/**
 * The event classifier: one parsed log line becomes one event (time, kind, process
 * path, target path), or a line-level error that makes the caller skip the line.
 *
 * `Classify` is the specification, written with one extraction rule per kind;
 * class `EventRecord` fills in the four fields step by step as the C++ struct does,
 * and its `ParseEvent` is proved to agree with `Classify`.
 */
module Events {
  import opened Wrappers
  import opened Timestamps
  import opened Json
  import opened Text

  /** A classified event as stored by the parser. */
  datatype Event = Event(time: Timestamp, eventType: string, process: string, target: string)

  /** `event_t::operator<`: events are ordered by their timestamps alone. */
  predicate Before(a: Event, b: Event) {
    Less(a.time, b.time)
  }

  /**
   * Why a line is skipped. `MalformedLine`: the line is not JSON. `InvalidTimeFormat`:
   * the "time" text does not parse. `JsonFault`: an access the JSON library rejects.
   */
  datatype LineError = MalformedLine | InvalidTimeFormat | JsonFault(fault: JsonError)

  function Lift<T>(r: Result<T, JsonError>): Result<T, LineError> {
    match r
    case Success(v) => Success(v)
    case Failure(e) => Failure(JsonFault(e))
  }

  /** The kinds in the order they are tried. */
  const EventTypes: seq<string> := ["exec", "fork", "create", "open"]

  /** The first kind from position `i` on that is a key of `ev`, or "" when there is none. */
  function FirstKindFrom(ev: Json, i: nat): string
    requires i <= |EventTypes|
    decreases |EventTypes| - i
  {
    if i == |EventTypes| then ""
    else if Contains(ev, EventTypes[i]) then EventTypes[i]
    else FirstKindFrom(ev, i + 1)
  }

  function FirstKind(ev: Json): string {
    FirstKindFrom(ev, 0)
  }

  /** The timestamp of a line: parsed from "time" when the key is there, `unset` otherwise. */
  function EventTime(json: Json, unset: Timestamp): Result<Timestamp, LineError> {
    if Contains(json, "time") then
      var text :- Lift(AsString(json.members["time"]));
      match ParseTime(text)
      case Some(t) => Success(t)
      case None => Failure(InvalidTimeFormat)
    else Success(unset)
  }

  /**
   * One extraction rule: if the object at `parent` has the key `guard`, the string at
   * `parent + [guard] + rest`; otherwise the field keeps `current`.
   */
  function CopyIfPresent(json: Json, parent: seq<string>, guard: string, rest: seq<string>, current: string)
    : Result<string, LineError>
  {
    var p :- Lift(Walk(json, parent));
    if Contains(p, guard) then Lift(StringAt(json, parent + [guard] + rest)) else Success(current)
  }

  /** The process path rule. */
  function ProcessOf(json: Json, current: string): Result<string, LineError> {
    CopyIfPresent(json, ["process"], "executable", ["path"], current)
  }

  /** The target rule of each kind. */
  function TargetOf(json: Json, kind: string, current: string): Result<string, LineError> {
    if kind == "exec" then CopyIfPresent(json, ["event", "exec"], "target", ["executable", "path"], current)
    else if kind == "fork" then CopyIfPresent(json, ["event", "fork"], "child", ["executable", "path"], current)
    else if kind == "create" then CopyIfPresent(json, ["event", "create"], "destination", ["existing_file", "path"], current)
    else if kind == "open" then CopyIfPresent(json, ["event", "open"], "file", ["path"], current)
    else Success(current)
  }

  /**
   * The event a freshly default-initialised `event_t` holds after `parse_event(json)`,
   * or the error that escapes it. `unset` stands for the timestamp such an `event_t`
   * starts with, which the C++ leaves uninitialised.
   */
  function Classify(json: Json, unset: Timestamp): Result<Event, LineError> {
    var time :- EventTime(json, unset);
    var ev :- Lift(At(json, "event"));
    var kind := FirstKind(ev);
    if kind == "" then Success(Event(time, "", "", ""))
    else
      var process :- ProcessOf(json, "");
      var target :- TargetOf(json, kind, "");
      Success(Event(time, kind, process, target))
  }

  /** A field update that either succeeded with `r`'s value or failed with `r`'s error and left the field alone. */
  predicate Assigned(r: Result<string, LineError>, err: Option<LineError>, now: string, before: string) {
    match r
    case Success(v) => err.None? && now == v
    case Failure(e) => err == Some(e) && now == before
  }

  /** `event_t`: the struct that `parse_event` and its helpers fill in field by field. */
  class EventRecord {
    var time: Timestamp
    var eventType: string
    var process: string
    var target: string

    /** A default-initialised `event_t`; its time is whatever `unset` is. */
    constructor (unset: Timestamp)
      ensures time == unset && eventType == "" && process == "" && target == ""
    {
      time := unset;
      eventType := "";
      process := "";
      target := "";
    }

    /** The copy of the struct the parser appends. */
    function Value(): Event
      reads this
    {
      Event(time, eventType, process, target)
    }

    /**
     * `parse_event`: on a freshly initialised record, succeeds exactly when `Classify`
     * does and leaves the record holding the classified event.
     */
    method ParseEvent(json: Json) returns (err: Option<LineError>)
      requires eventType == "" && process == "" && target == ""
      modifies this
      ensures Classify(json, old(time)).Success? <==> err.None?
      ensures err.None? ==> Value() == Classify(json, old(time)).value
      ensures err.Some? ==> Classify(json, old(time)) == Failure(err.value)
    {
      if Contains(json, "time") {
        var text := AsString(json.members["time"]);
        if text.Failure? {
          return Some(JsonFault(text.error));
        }
        var parsed := ParseTime(text.value);
        if parsed.None? {
          return Some(InvalidTimeFormat);
        }
        time := parsed.value;
      }
      assert EventTime(json, old(time)) == Success(time);

      for i := 0 to |EventTypes|
        invariant eventType == "" && process == "" && target == ""
        invariant time == EventTime(json, old(time)).value
        invariant 0 < i ==> At(json, "event").Success?
        invariant At(json, "event").Success? ==>
          FirstKindFrom(At(json, "event").value, i) == FirstKind(At(json, "event").value)
      {
        var ev := At(json, "event");
        if ev.Failure? {
          return Some(JsonFault(ev.error));
        }
        if Contains(ev.value, EventTypes[i]) {
          eventType := EventTypes[i];
          break;
        }
      }
      assert At(json, "event").Success? && eventType == FirstKind(At(json, "event").value);

      if eventType != "" {
        err := GetProcessPath(json);
        if err.Some? {
          return;
        }
        err := ParseEventDetails(json);
      } else {
        err := None;
      }
    }

    /** `get_process_path`: the process rule applied to the `process` field. */
    method GetProcessPath(json: Json) returns (err: Option<LineError>)
      modifies this
      ensures Assigned(ProcessOf(json, old(process)), err, process, old(process))
      ensures time == old(time) && eventType == old(eventType) && target == old(target)
    {
      var owner := At(json, "process");
      assert Walk(json, ["process"]) == owner by {
        assert ["process"][1..] == [];
      }
      assert ["process"] + ["executable"] + ["path"] == ["process", "executable", "path"];
      if owner.Failure? {
        return Some(JsonFault(owner.error));
      }
      if Contains(owner.value, "executable") {
        var path := StringAt(json, ["process", "executable", "path"]);
        if path.Failure? {
          return Some(JsonFault(path.error));
        }
        process := path.value;
      }
      return None;
    }

    /** `parse_event_details`: dispatch on the kind to its target rule. */
    method ParseEventDetails(json: Json) returns (err: Option<LineError>)
      modifies this
      ensures Assigned(TargetOf(json, eventType, old(target)), err, target, old(target))
      ensures time == old(time) && eventType == old(eventType) && process == old(process)
    {
      if eventType == "exec" {
        err := ParseExecTarget(json);
      } else if eventType == "fork" {
        err := ParseForkTarget(json);
      } else if eventType == "create" {
        err := ParseCreateTarget(json);
      } else if eventType == "open" {
        err := ParseOpenTarget(json);
      } else {
        err := None;
      }
    }

    /** `parse_exec_target`. */
    method ParseExecTarget(json: Json) returns (err: Option<LineError>)
      modifies this
      ensures Assigned(TargetOf(json, "exec", old(target)), err, target, old(target))
      ensures time == old(time) && eventType == old(eventType) && process == old(process)
    {
      err := TakeTarget(json, ["event", "exec"], "target", ["executable", "path"]);
    }

    /** `parse_fork_target`. */
    method ParseForkTarget(json: Json) returns (err: Option<LineError>)
      modifies this
      ensures Assigned(TargetOf(json, "fork", old(target)), err, target, old(target))
      ensures time == old(time) && eventType == old(eventType) && process == old(process)
    {
      err := TakeTarget(json, ["event", "fork"], "child", ["executable", "path"]);
    }

    /** `parse_open_target`. */
    method ParseOpenTarget(json: Json) returns (err: Option<LineError>)
      modifies this
      ensures Assigned(TargetOf(json, "open", old(target)), err, target, old(target))
      ensures time == old(time) && eventType == old(eventType) && process == old(process)
    {
      err := TakeTarget(json, ["event", "open"], "file", ["path"]);
    }

    /** `parse_create_target`. */
    method ParseCreateTarget(json: Json) returns (err: Option<LineError>)
      modifies this
      ensures Assigned(TargetOf(json, "create", old(target)), err, target, old(target))
      ensures time == old(time) && eventType == old(eventType) && process == old(process)
    {
      err := TakeTarget(json, ["event", "create"], "destination", ["existing_file", "path"]);
    }

    /** The body shared by the four `parse_*_target` helpers. */
    method TakeTarget(json: Json, parent: seq<string>, guard: string, rest: seq<string>)
      returns (err: Option<LineError>)
      modifies this
      ensures Assigned(CopyIfPresent(json, parent, guard, rest, old(target)), err, target, old(target))
      ensures time == old(time) && eventType == old(eventType) && process == old(process)
    {
      var owner := Walk(json, parent);
      if owner.Failure? {
        return Some(JsonFault(owner.error));
      }
      if Contains(owner.value, guard) {
        var path := StringAt(json, parent + [guard] + rest);
        if path.Failure? {
          return Some(JsonFault(path.error));
        }
        target := path.value;
      }
      return None;
    }
  }

  // ---------------------------------------------------------------------------
  // What the classification means.
  // ---------------------------------------------------------------------------

  /** The first-match search from position `i` on. */
  lemma {:induction false} FirstKindFromSpec(ev: Json, i: nat)
    requires i <= |EventTypes|
    ensures FirstKindFrom(ev, i) == "" <==>
      forall k :: i <= k < |EventTypes| ==> !Contains(ev, EventTypes[k])
    ensures forall k :: i <= k < |EventTypes| ==>
      (FirstKindFrom(ev, i) == EventTypes[k] <==>
        Contains(ev, EventTypes[k]) && forall m :: i <= m < k ==> !Contains(ev, EventTypes[m]))
    decreases |EventTypes| - i
  {
    if i < |EventTypes| {
      FirstKindFromSpec(ev, i + 1);
    }
  }

  /**
   * The kind is the first of exec, fork, create, open that is a key of the `event`
   * object, and it is empty exactly when none of the four is.
   */
  lemma KindIsFirstPresent(ev: Json, k: nat)
    requires k < |EventTypes|
    ensures FirstKind(ev) == EventTypes[k] <==>
      Contains(ev, EventTypes[k]) && forall m :: 0 <= m < k ==> !Contains(ev, EventTypes[m])
    ensures FirstKind(ev) == "" <==> forall m :: 0 <= m < |EventTypes| ==> !Contains(ev, EventTypes[m])
    ensures FirstKind(ev) == "" || FirstKind(ev) in EventTypes
  {
    FirstKindFromSpec(ev, 0);
  }

  /** What a successful extraction rule produced, stated over paths from the root. */
  lemma CopyIfPresentMeaning(json: Json, parent: seq<string>, guard: string, rest: seq<string>, current: string, v: string)
    requires CopyIfPresent(json, parent, guard, rest, current) == Success(v)
    ensures HasPath(json, parent)
    ensures HasPath(json, parent + [guard]) ==> StringAt(json, parent + [guard] + rest) == Success(v)
    ensures !HasPath(json, parent + [guard]) ==> v == current
  {
    HasPathStep(json, parent, guard);
  }

  /** The event's time is parsed from "time" when the key is there, and is the initial value otherwise. */
  lemma TimeOfEvent(json: Json, unset: Timestamp, e: Event)
    requires Classify(json, unset) == Success(e)
    ensures !Contains(json, "time") ==> e.time == unset
    ensures Contains(json, "time") ==>
      json.members["time"].Str? && ParseTime(json.members["time"].text) == Some(e.time)
  {
    assert EventTime(json, unset) == Success(e.time);
  }

  /** A "time" that is not a string, or a string that does not parse, skips the line. */
  lemma BadTimeSkipsLine(json: Json, unset: Timestamp)
    requires Contains(json, "time")
    ensures !json.members["time"].Str? ==> Classify(json, unset) == Failure(JsonFault(TypeError))
    ensures json.members["time"].Str? && ParseTime(json.members["time"].text).None? ==>
      Classify(json, unset) == Failure(InvalidTimeFormat)
  {
    var v := json.members["time"];
    if !v.Str? {
      assert EventTime(json, unset) == Failure(JsonFault(TypeError));
    } else if ParseTime(v.text).None? {
      assert EventTime(json, unset) == Failure(InvalidTimeFormat);
    }
  }

  /**
   * Degenerate retention: when the `event` object holds none of the four kinds, the line
   * still yields an event, with empty kind, process and target, whatever "process" holds.
   */
  lemma UnclassifiedIsKept(json: Json, unset: Timestamp)
    requires EventTime(json, unset).Success? && Contains(json, "event")
    requires forall m :: 0 <= m < |EventTypes| ==> !Contains(json.members["event"], EventTypes[m])
    ensures Classify(json, unset) == Success(Event(EventTime(json, unset).value, "", "", ""))
  {
    KindIsFirstPresent(json.members["event"], 0);
  }

  /** The kind of a classified event is the first of the four present under "event"; an empty kind means empty fields. */
  lemma ClassifiedKind(json: Json, unset: Timestamp, e: Event)
    requires Classify(json, unset) == Success(e)
    ensures Contains(json, "event")
    ensures e.eventType == FirstKind(json.members["event"])
    ensures e.eventType == "" ==> e.process == "" && e.target == ""
  {
  }

  /**
   * The process path of a classified event is `process.executable.path` when `process`
   * has an `executable`, and empty otherwise; a kindless event never reads `process`.
   */
  lemma ProcessFollowsPath(json: Json, unset: Timestamp, e: Event)
    requires Classify(json, unset) == Success(e) && e.eventType != ""
    ensures HasPath(json, ["process"])
    ensures HasPath(json, ["process", "executable"]) ==> StringAt(json, ["process", "executable", "path"]) == Success(e.process)
    ensures !HasPath(json, ["process", "executable"]) ==> e.process == ""
  {
    assert ProcessOf(json, "") == Success(e.process);
    CopyIfPresentMeaning(json, ["process"], "executable", ["path"], "", e.process);
    assert ["process"] + ["executable"] == ["process", "executable"];
    assert ["process", "executable"] + ["path"] == ["process", "executable", "path"];
  }

  /** The target of a classified event follows its kind's full path, taken only when the guarding key is there. */
  lemma TargetFollowsKindPath(json: Json, unset: Timestamp, e: Event)
    requires Classify(json, unset) == Success(e)
    ensures e.eventType == "exec" ==>
      && (HasPath(json, ["event", "exec", "target"]) ==>
            StringAt(json, ["event", "exec", "target", "executable", "path"]) == Success(e.target))
      && (!HasPath(json, ["event", "exec", "target"]) ==> e.target == "")
    ensures e.eventType == "fork" ==>
      && (HasPath(json, ["event", "fork", "child"]) ==>
            StringAt(json, ["event", "fork", "child", "executable", "path"]) == Success(e.target))
      && (!HasPath(json, ["event", "fork", "child"]) ==> e.target == "")
    ensures e.eventType == "create" ==>
      && (HasPath(json, ["event", "create", "destination"]) ==>
            StringAt(json, ["event", "create", "destination", "existing_file", "path"]) == Success(e.target))
      && (!HasPath(json, ["event", "create", "destination"]) ==> e.target == "")
    ensures e.eventType == "open" ==>
      && (HasPath(json, ["event", "open", "file"]) ==>
            StringAt(json, ["event", "open", "file", "path"]) == Success(e.target))
      && (!HasPath(json, ["event", "open", "file"]) ==> e.target == "")
  {
    if e.eventType != "" {
      assert TargetOf(json, e.eventType, "") == Success(e.target);
      if e.eventType == "exec" {
        CopyIfPresentMeaning(json, ["event", "exec"], "target", ["executable", "path"], "", e.target);
        assert ["event", "exec"] + ["target"] == ["event", "exec", "target"];
        assert ["event", "exec", "target"] + ["executable", "path"] == ["event", "exec", "target", "executable", "path"];
      } else if e.eventType == "fork" {
        CopyIfPresentMeaning(json, ["event", "fork"], "child", ["executable", "path"], "", e.target);
        assert ["event", "fork"] + ["child"] == ["event", "fork", "child"];
        assert ["event", "fork", "child"] + ["executable", "path"] == ["event", "fork", "child", "executable", "path"];
      } else if e.eventType == "create" {
        CopyIfPresentMeaning(json, ["event", "create"], "destination", ["existing_file", "path"], "", e.target);
        assert ["event", "create"] + ["destination"] == ["event", "create", "destination"];
        assert ["event", "create", "destination"] + ["existing_file", "path"]
            == ["event", "create", "destination", "existing_file", "path"];
      } else if e.eventType == "open" {
        CopyIfPresentMeaning(json, ["event", "open"], "file", ["path"], "", e.target);
        assert ["event", "open"] + ["file"] == ["event", "open", "file"];
        assert ["event", "open", "file"] + ["path"] == ["event", "open", "file", "path"];
      }
    }
  }

  /**
   * Lines that are skipped although they are JSON: a line that is not an object, one
   * without "event", and one with a kind but no "process".
   */
  lemma SkippedLines(json: Json, unset: Timestamp)
    ensures !json.Object? ==> Classify(json, unset) == Failure(JsonFault(TypeError))
    ensures json.Object? && "event" !in json.members && EventTime(json, unset).Success? ==>
      Classify(json, unset) == Failure(JsonFault(MissingKey))
    ensures Contains(json, "event") && EventTime(json, unset).Success? &&
            FirstKind(json.members["event"]) != "" && "process" !in json.members ==>
      Classify(json, unset) == Failure(JsonFault(MissingKey))
  {
    if Contains(json, "event") && EventTime(json, unset).Success? &&
       FirstKind(json.members["event"]) != "" && "process" !in json.members {
      assert Walk(json, ["process"]) == Failure(MissingKey);
    }
  }

  /** An exec line with a time, a target path and a process path, as in the worked example. */
  function ExecLine(time: string, target: string, process: string): Json {
    Object(map[
      "time" := Str(time),
      "event" := Object(map["exec" := Object(map["target" := Object(map[
        "executable" := Object(map["path" := Str(target)])])])]),
      "process" := Object(map["executable" := Object(map["path" := Str(process)])])])
  }

  /** The time text and the `event` object of such a line. */
  lemma ExecLineParts(time: string, target: string, process: string)
    ensures var json := ExecLine(time, target, process);
      && Contains(json, "time") && json.members["time"] == Str(time)
      && At(json, "event") == Success(json.members["event"])
  {
  }

  /** A "time" string that parses gives the event its time. */
  lemma TimeFromString(json: Json, text: string, unset: Timestamp)
    requires Contains(json, "time") && json.members["time"] == Str(text) && ParseTime(text).Some?
    ensures EventTime(json, unset) == Success(ParseTime(text).value)
  {
    assert Lift(AsString(json.members["time"])) == Success(text);
  }

  /** Its kind is exec. */
  lemma ExecLineKind(time: string, target: string, process: string)
    ensures FirstKind(ExecLine(time, target, process).members["event"]) == "exec"
  {
  }

  /** Its process path is taken. */
  lemma ExecLineProcess(time: string, target: string, process: string)
    ensures ProcessOf(ExecLine(time, target, process), "") == Success(process)
  {
    var json := ExecLine(time, target, process);
    assert ["process"][1..] == [];
    assert ["process"] + ["executable"] + ["path"] == ["process", "executable", "path"];
    assert ["process", "executable", "path"][1..] == ["executable", "path"];
    assert ["executable", "path"][1..] == ["path"];
    assert ["path"][1..] == [];
  }

  /** Its exec target path is taken. */
  lemma ExecLineTarget(time: string, target: string, process: string)
    ensures TargetOf(ExecLine(time, target, process), "exec", "") == Success(target)
  {
    var json := ExecLine(time, target, process);
    assert ["event", "exec"][1..] == ["exec"];
    assert ["exec"][1..] == [];
    var full := ["event", "exec", "target", "executable", "path"];
    assert ["event", "exec"] + ["target"] + ["executable", "path"] == full;
    assert full[1..] == ["exec", "target", "executable", "path"];
    assert full[1..][1..] == ["target", "executable", "path"];
    assert full[1..][1..][1..] == ["executable", "path"];
    assert ["executable", "path"][1..] == ["path"];
    assert ["path"][1..] == [];
  }

  /** Such a line classifies as exec, with both paths taken, whenever its time text parses. */
  lemma ExecLineShape(time: string, target: string, process: string, unset: Timestamp)
    requires ParseTime(time).Some?
    ensures Classify(ExecLine(time, target, process), unset)
         == Success(Event(ParseTime(time).value, "exec", process, target))
  {
    ExecLineParts(time, target, process);
    TimeFromString(ExecLine(time, target, process), time, unset);
    ExecLineKind(time, target, process);
    ExecLineProcess(time, target, process);
    ExecLineTarget(time, target, process);
  }

  /** The time text of the worked example, assembled from its seven digit runs. */
  lemma ExecTimeText()
    ensures Joined("2024", "01", "02", "03", "04", "05", "678901", '-', '-', ' ', ':', ':', '.')
         == "2024-01-02 03:04:05.678901"
  {
  }

  /** The digit runs of the worked example and their values. */
  lemma ExecTimeDigits()
    ensures IsNumeral("2024", IntMax) && DigitsValue("2024") == 2024
    ensures IsNumeral("01", IntMax) && DigitsValue("01") == 1
    ensures IsNumeral("02", IntMax) && DigitsValue("02") == 2
    ensures IsNumeral("03", IntMax) && DigitsValue("03") == 3
    ensures IsNumeral("04", IntMax) && DigitsValue("04") == 4
    ensures IsNumeral("05", IntMax) && DigitsValue("05") == 5
    ensures IsNumeral("678901", LongMax) && DigitsValue("678901") == 678901
  {
    assert "2024"[..3] == "202" && "202"[..2] == "20" && "20"[..1] == "2" && "2"[..0] == "";
    assert "678901"[..5] == "67890" && "67890"[..4] == "6789" && "6789"[..3] == "678";
    assert "678"[..2] == "67" && "67"[..1] == "6" && "6"[..0] == "";
  }

  /** The time text of the worked example is canonical, reads as 2024-01-02 03:04:05.678901 and renders back unchanged. */
  lemma ExecLineTime()
    ensures IsCanonical("2024-01-02 03:04:05.678901")
    ensures ParseTime("2024-01-02 03:04:05.678901") == Some(Timestamp(2024, 1, 2, 3, 4, 5, 678901))
    ensures ToString(Timestamp(2024, 1, 2, 3, 4, 5, 678901)) == "2024-01-02 03:04:05.678901"
  {
    ExecTimeText();
    ExecTimeDigits();
    JoinedPieces("2024", "01", "02", "03", "04", "05", "678901", '-', '-', ' ', ':', ':', '.');
    ParsePieces("2024", "01", "02", "03", "04", "05", "678901", '-', '-', ' ', ':', ':', '.');
    CanonicalAscii("2024-01-02 03:04:05.678901");
    CanonicalRoundTrip("2024-01-02 03:04:05.678901");
  }

  /** The worked example: the exec line of 2024-01-02 run by /bin/bash on /bin/ls. */
  lemma ExecLineClassified(unset: Timestamp)
    ensures Classify(ExecLine("2024-01-02 03:04:05.678901", "/bin/ls", "/bin/bash"), unset) ==
      Success(Event(Timestamp(2024, 1, 2, 3, 4, 5, 678901), "exec", "/bin/bash", "/bin/ls"))
  {
    ExecLineTime();
    ExecLineShape("2024-01-02 03:04:05.678901", "/bin/ls", "/bin/bash", unset);
  }
}
