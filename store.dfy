/**
 * The event store: the parser's list of accepted events, the sort by timestamp and
 * the grouping by process path. The `std::map` of the grouping is an association
 * list whose keys ascend in string order, which is the order the map iterates in.
 */
module Store {
  import opened Wrappers
  import opened Timestamps
  import opened Json
  import opened Events

  // ---------------------------------------------------------------------------
  // String order (the key order of the map).
  // ---------------------------------------------------------------------------

  /** `std::string` less-than: lexicographic by character, a proper prefix first. */
  predicate StrLess(a: string, b: string)
    decreases |a|
  {
    if a == [] then b != []
    else b != [] && (a[0] < b[0] || (a[0] == b[0] && StrLess(a[1..], b[1..])))
  }

  lemma {:induction false} StrLessIrreflexive(a: string)
    ensures !StrLess(a, a)
    decreases |a|
  {
    if a != [] {
      StrLessIrreflexive(a[1..]);
    }
  }

  lemma {:induction false} StrLessTransitive(a: string, b: string, c: string)
    requires StrLess(a, b) && StrLess(b, c)
    ensures StrLess(a, c)
    decreases |a|
  {
    if a != [] && a[0] == b[0] && b[0] == c[0] {
      StrLessTransitive(a[1..], b[1..], c[1..]);
    }
  }

  lemma {:induction false} StrLessTotal(a: string, b: string)
    requires a != b
    ensures StrLess(a, b) || StrLess(b, a)
    decreases |a|
  {
    if a != [] && b != [] && a[0] == b[0] {
      assert a == [a[0]] + a[1..] && b == [b[0]] + b[1..];
      StrLessTotal(a[1..], b[1..]);
    }
  }

  // ---------------------------------------------------------------------------
  // Sorting by time.
  // ---------------------------------------------------------------------------

  /** Not after: the order `std::sort` establishes with `event_t::operator<`. */
  predicate NotAfter(a: Event, b: Event) {
    !Before(b, a)
  }

  predicate SortedByTime(s: seq<Event>) {
    forall i, j :: 0 <= i < j < |s| ==> NotAfter(s[i], s[j])
  }

  /** Timestamps are totally ordered, so "not after" chains. */
  lemma NotAfterTransitive(a: Event, b: Event, c: Event)
    requires NotAfter(a, b) && NotAfter(b, c)
    ensures NotAfter(a, c)
  {
    NotLessTransitive(a.time, b.time, c.time);
  }

  /** Events with equal timestamps are not ordered either way; otherwise exactly one comes first. */
  lemma BeforeIsStrictWeakOrder(a: Event, b: Event)
    ensures !Before(a, a)
    ensures !(Before(a, b) && Before(b, a))
    ensures !Before(a, b) && !Before(b, a) <==> a.time == b.time
  {
    LessIrreflexive(a.time);
    LessTrichotomy(a.time, b.time);
  }

  // ---------------------------------------------------------------------------
  // Grouping.
  // ---------------------------------------------------------------------------

  /** One entry of the map: a process path and its events. */
  datatype Group = Group(process: string, events: seq<Event>)

  /** Keys strictly ascending: the order in which the map is iterated, with no key twice. */
  predicate Ascending(gs: seq<Group>) {
    forall i, j :: 0 <= i < j < |gs| ==> StrLess(gs[i].process, gs[j].process)
  }

  /** Every key lies strictly above `k`. */
  predicate AllAbove(gs: seq<Group>, k: string) {
    forall i :: 0 <= i < |gs| ==> StrLess(k, gs[i].process)
  }

  /** The events held under key `k`, or none. */
  function Lookup(gs: seq<Group>, k: string): seq<Event> {
    if gs == [] then []
    else if gs[0].process == k then gs[0].events
    else Lookup(gs[1..], k)
  }

  function TotalSize(gs: seq<Group>): nat {
    if gs == [] then 0 else |gs[0].events| + TotalSize(gs[1..])
  }

  /** The events of `s` with process path `p`, in their order in `s`. */
  function Filter(s: seq<Event>, p: string): seq<Event> {
    if s == [] then []
    else Filter(s[..|s| - 1], p) + (if s[|s| - 1].process == p then [s[|s| - 1]] else [])
  }

  lemma {:induction false} LookupBelow(gs: seq<Group>, k: string)
    requires AllAbove(gs, k)
    ensures Lookup(gs, k) == []
    decreases |gs|
  {
    if gs != [] {
      StrLessIrreflexive(k);
      assert AllAbove(gs[1..], k) by {
        forall i | 0 <= i < |gs[1..]|
          ensures StrLess(k, gs[1..][i].process)
        {
          assert gs[1..][i] == gs[i + 1];
        }
      }
      LookupBelow(gs[1..], k);
    }
  }

  /**
   * `groupedEvents[e.process].push_back(e)`: append to the group of `e`'s process,
   * creating it at its place in key order when it is missing.
   */
  function Append(gs: seq<Group>, e: Event): (r: seq<Group>)
    requires Ascending(gs)
    ensures Ascending(r)
    ensures forall k :: Lookup(r, k) == Lookup(gs, k) + (if k == e.process then [e] else [])
    ensures TotalSize(r) == TotalSize(gs) + 1
    ensures forall k :: AllAbove(gs, k) && StrLess(k, e.process) ==> AllAbove(r, k)
    decreases |gs|
  {
    if gs == [] then
      [Group(e.process, [e])]
    else if gs[0].process == e.process then
      var r := [Group(gs[0].process, gs[0].events + [e])] + gs[1..];
      assert r[1..] == gs[1..];
      ConsAscending(r[0], gs[1..]);
      r
    else if StrLess(e.process, gs[0].process) then
      var r := [Group(e.process, [e])] + gs;
      assert r[1..] == gs;
      BelowFirst(gs, e.process);
      LookupBelow(gs, e.process);
      ConsAscending(r[0], gs);
      r
    else
      var tail := gs[1..];
      assert Ascending(tail);
      assert AllAbove(tail, gs[0].process);
      StrLessTotal(gs[0].process, e.process);
      var rest := Append(tail, e);
      var r := [gs[0]] + rest;
      assert r[1..] == rest;
      ConsAscending(gs[0], rest);
      r
  }

  /** `Append` never leaves a group without events. */
  lemma {:induction false} AppendNonEmpty(gs: seq<Group>, e: Event)
    requires Ascending(gs)
    requires forall g :: g in gs ==> g.events != []
    ensures forall g :: g in Append(gs, e) ==> g.events != []
    decreases |gs|
  {
    var r := Append(gs, e);
    if gs != [] && gs[0].process != e.process && !StrLess(e.process, gs[0].process) {
      assert Ascending(gs[1..]);
      AppendNonEmpty(gs[1..], e);
      assert r == [gs[0]] + Append(gs[1..], e);
    } else if gs != [] && gs[0].process == e.process {
      assert r == [Group(gs[0].process, gs[0].events + [e])] + gs[1..];
    } else if gs != [] {
      assert r == [Group(e.process, [e])] + gs;
    }
  }

  /** In an ascending list, a key below the first key is below them all. */
  lemma BelowFirst(gs: seq<Group>, k: string)
    requires Ascending(gs) && gs != [] && StrLess(k, gs[0].process)
    ensures AllAbove(gs, k)
  {
    forall i | 0 <= i < |gs|
      ensures StrLess(k, gs[i].process)
    {
      if i > 0 {
        StrLessTransitive(k, gs[0].process, gs[i].process);
      }
    }
  }

  /** A key below every key of an ascending list can go in front of it. */
  lemma ConsAscending(g: Group, gs: seq<Group>)
    requires Ascending(gs) && AllAbove(gs, g.process)
    ensures Ascending([g] + gs)
  {
    var r := [g] + gs;
    forall i, j | 0 <= i < j < |r|
      ensures StrLess(r[i].process, r[j].process)
    {
      assert r[j] == gs[j - 1];
      if i > 0 {
        assert r[i] == gs[i - 1];
      }
    }
  }

  /** The grouping of `events`: keys ascend, no group is empty, and each key holds exactly its events in order. */
  ghost predicate GroupedBy(groups: seq<Group>, events: seq<Event>) {
    && Ascending(groups)
    && (forall g :: g in groups ==> g.events != [])
    && (forall k :: Lookup(groups, k) == Filter(events, k))
  }

  // ---------------------------------------------------------------------------
  // Ingest.
  // ---------------------------------------------------------------------------

  /** One input line: its parsed JSON, or `None` when the line is not JSON. */
  type Line = Option<Json>

  /** The outcome of one line: `json::parse` and then `parse_event` on a fresh record. */
  function Ingest(line: Line, unset: Timestamp): Result<Event, LineError> {
    match line
    case None => Failure(MalformedLine)
    case Some(json) => Classify(json, unset)
  }

  /** The events of the lines that did not fail, one per such line, in line order. */
  function Accepted(lines: seq<Line>, unset: Timestamp): seq<Event> {
    if lines == [] then []
    else
      Accepted(lines[..|lines| - 1], unset) +
      match Ingest(lines[|lines| - 1], unset)
      case Success(e) => [e]
      case Failure(_) => []
  }

  /** `event_t`s collected by `CParser`; `events` is its vector member. */
  class Parser {
    var events: seq<Event>

    constructor ()
      ensures events == []
    {
      events := [];
    }

    /**
     * `CParser::parse` without the output step: ingest every line, skipping the ones
     * that fail, sort, and group. `unset` is the initial time of each fresh record.
     */
    method Parse(lines: seq<Line>, unset: Timestamp) returns (groups: seq<Group>)
      modifies this
      ensures multiset(events) == multiset(old(events) + Accepted(lines, unset))
      ensures SortedByTime(events)
      ensures GroupedBy(groups, events) && TotalSize(groups) == |events|
    {
      var i := 0;
      while i < |lines|
        invariant 0 <= i <= |lines|
        invariant events == old(events) + Accepted(lines[..i], unset)
      {
        assert lines[..i + 1][..i] == lines[..i];
        match lines[i] {
          case None =>
          case Some(json) =>
            var tmp := new EventRecord(unset);
            var err := tmp.ParseEvent(json);
            if err.None? {
              events := events + [tmp.Value()];
            }
        }
        i := i + 1;
      }
      assert lines[..|lines|] == lines;
      SortEvents();
      groups := GroupByProcess();
    }

    /** `std::sort(events.begin(), events.end())`: a reordering that is non-decreasing in time. */
    method SortEvents()
      modifies this
      ensures multiset(events) == multiset(old(events))
      ensures SortedByTime(events)
    {
      var s := events;
      var i := 0;
      while i < |s|
        invariant 0 <= i <= |s| == |old(events)|
        invariant multiset(s) == multiset(old(events))
        invariant SortedByTime(s[..i])
        decreases |s| - i
      {
        SiftStart(s, i);
        var j := i;
        while j > 0 && Before(s[j], s[j - 1])
          invariant |s| == |old(events)|
          invariant multiset(s) == multiset(old(events))
          invariant Sifting(s, i, j)
        {
          SiftStep(s, i, j);
          s := s[j - 1 := s[j]][j := s[j - 1]];
          j := j - 1;
        }
        SiftDone(s, i, j);
        i := i + 1;
      }
      assert s[..|s|] == s;
      events := s;
    }

    /** `group_by_process`: one group per process path, keys ascending, events in their order. */
    method GroupByProcess() returns (groups: seq<Group>)
      ensures GroupedBy(groups, events)
      ensures TotalSize(groups) == |events|
    {
      groups := [];
      for i := 0 to |events|
        invariant GroupedBy(groups, events[..i])
        invariant TotalSize(groups) == i
      {
        assert events[..i + 1][..i] == events[..i];
        AppendNonEmpty(groups, events[i]);
        groups := Append(groups, events[i]);
      }
      assert events[..|events|] == events;
    }
  }

  /**
   * The state of one insertion pass: the element at `j` is moving down, everything
   * else in `s[..i + 1]` is in order, and the element is earlier than all it has passed.
   */
  predicate Sifting(s: seq<Event>, i: nat, j: nat) {
    && j <= i < |s|
    && (forall a, b :: 0 <= a < b <= i && a != j && b != j ==> NotAfter(s[a], s[b]))
    && (forall b :: j < b <= i ==> Before(s[j], s[b]))
  }

  lemma SiftStart(s: seq<Event>, i: nat)
    requires i < |s| && SortedByTime(s[..i])
    ensures Sifting(s, i, i)
  {
    assert forall a :: 0 <= a < i ==> s[..i][a] == s[a];
  }

  lemma SiftStep(s: seq<Event>, i: nat, j: nat)
    requires Sifting(s, i, j) && 0 < j && Before(s[j], s[j - 1])
    ensures Sifting(s[j - 1 := s[j]][j := s[j - 1]], i, j - 1)
    ensures multiset(s[j - 1 := s[j]][j := s[j - 1]]) == multiset(s)
  {
    var t := s[j - 1 := s[j]][j := s[j - 1]];
    forall a, b | 0 <= a < b <= i && a != j - 1 && b != j - 1
      ensures NotAfter(t[a], t[b])
    {
      var a' := if a == j then j - 1 else a;
      var b' := if b == j then j - 1 else b;
      assert t[a] == s[a'] && t[b] == s[b'];
      assert NotAfter(s[a'], s[b']);
    }
    forall b | j - 1 < b <= i
      ensures Before(t[j - 1], t[b])
    {
    }
    SwapPermutes(s, j - 1);
  }

  lemma SwapPermutes(s: seq<Event>, k: nat)
    requires k + 1 < |s|
    ensures multiset(s[k := s[k + 1]][k + 1 := s[k]]) == multiset(s)
  {
    var t := s[k := s[k + 1]][k + 1 := s[k]];
    assert t == s[..k] + [s[k + 1], s[k]] + s[k + 2..];
    assert s == s[..k] + [s[k], s[k + 1]] + s[k + 2..];
  }

  lemma SiftDone(s: seq<Event>, i: nat, j: nat)
    requires Sifting(s, i, j) && (j == 0 || !Before(s[j], s[j - 1]))
    ensures SortedByTime(s[..i + 1])
  {
    forall a | 0 <= a < j
      ensures NotAfter(s[a], s[j])
    {
      if a < j - 1 {
        NotAfterTransitive(s[a], s[j - 1], s[j]);
      }
    }
    forall b | j < b <= i
      ensures NotAfter(s[j], s[b])
    {
      BeforeIsStrictWeakOrder(s[j], s[b]);
    }
    assert forall a, b :: 0 <= a < b <= i ==> NotAfter(s[a], s[b]);
  }

  // ---------------------------------------------------------------------------
  // What ingesting, sorting and grouping mean.
  // ---------------------------------------------------------------------------

  /** Lines contribute independently: the events of two runs of lines are those of each, in order. */
  lemma {:induction false} AcceptedAppend(a: seq<Line>, b: seq<Line>, unset: Timestamp)
    ensures Accepted(a + b, unset) == Accepted(a, unset) + Accepted(b, unset)
    decreases |b|
  {
    if b == [] {
      assert a + b == a;
    } else {
      var b' := b[..|b| - 1];
      assert (a + b)[..|a + b| - 1] == a + b';
      assert (a + b)[|a + b| - 1] == b[|b| - 1];
      AcceptedAppend(a, b', unset);
    }
  }

  /** A line that fails (not JSON, bad time, a rejected access) is skipped and the lines after it are still read. */
  lemma SkippedLine(a: seq<Line>, line: Line, b: seq<Line>, unset: Timestamp)
    requires Ingest(line, unset).Failure?
    ensures Accepted(a + [line] + b, unset) == Accepted(a + b, unset)
  {
    AcceptedAppend(a + [line], b, unset);
    AcceptedAppend(a, [line], unset);
    AcceptedAppend(a, b, unset);
    assert [line][..0] == [];
  }

  /** A line that classifies contributes exactly its one event, at its place among the others. */
  lemma KeptLine(a: seq<Line>, line: Line, b: seq<Line>, unset: Timestamp, e: Event)
    requires Ingest(line, unset) == Success(e)
    ensures Accepted(a + [line] + b, unset) == Accepted(a, unset) + [e] + Accepted(b, unset)
  {
    AcceptedAppend(a + [line], b, unset);
    AcceptedAppend(a, [line], unset);
    assert [line][..0] == [];
  }

  /** A JSON line whose `event` object has none of the four kinds still yields an event, with empty fields. */
  lemma DegenerateLineKept(a: seq<Line>, json: Json, b: seq<Line>, unset: Timestamp)
    requires EventTime(json, unset).Success? && Contains(json, "event")
    requires forall m :: 0 <= m < |EventTypes| ==> !Contains(json.members["event"], EventTypes[m])
    ensures Accepted(a + [Some(json)] + b, unset)
         == Accepted(a, unset) + [Event(EventTime(json, unset).value, "", "", "")] + Accepted(b, unset)
  {
    UnclassifiedIsKept(json, unset);
    KeptLine(a, Some(json), b, unset, Event(EventTime(json, unset).value, "", "", ""));
  }

  /** The accepted events are exactly the events of the lines that classify. */
  lemma {:induction false} AcceptedMembership(lines: seq<Line>, unset: Timestamp, e: Event)
    ensures e in Accepted(lines, unset) <==> exists i :: 0 <= i < |lines| && Ingest(lines[i], unset) == Success(e)
    decreases |lines|
  {
    if lines != [] {
      var init := lines[..|lines| - 1];
      AcceptedMembership(init, unset, e);
      if e in Accepted(init, unset) {
        var i :| 0 <= i < |init| && Ingest(init[i], unset) == Success(e);
        assert lines[i] == init[i];
      }
      if exists i :: 0 <= i < |lines| && Ingest(lines[i], unset) == Success(e) {
        var i :| 0 <= i < |lines| && Ingest(lines[i], unset) == Success(e);
        if i < |lines| - 1 {
          assert init[i] == lines[i];
        }
      }
    }
  }

  lemma {:induction false} FilterMembership(s: seq<Event>, p: string, e: Event)
    ensures e in Filter(s, p) <==> e in s && e.process == p
    decreases |s|
  {
    if s != [] {
      var init := s[..|s| - 1];
      FilterMembership(init, p, e);
      assert s == init + [s[|s| - 1]];
    }
  }

  /** Grouping keeps the time order: the events of each process come out sorted when all events were. */
  lemma {:induction false} FilterSorted(s: seq<Event>, p: string)
    requires SortedByTime(s)
    ensures SortedByTime(Filter(s, p))
    decreases |s|
  {
    if s != [] {
      var init := s[..|s| - 1];
      var last := s[|s| - 1];
      assert SortedByTime(init);
      FilterSorted(init, p);
      if last.process == p {
        var f := Filter(init, p);
        forall i | 0 <= i < |f|
          ensures NotAfter(f[i], last)
        {
          FilterMembership(init, p, f[i]);
          var k :| 0 <= k < |init| && init[k] == f[i];
          assert s[k] == f[i];
        }
      }
    }
  }

  lemma {:induction false} LookupAt(gs: seq<Group>, j: nat)
    requires Ascending(gs) && j < |gs|
    ensures Lookup(gs, gs[j].process) == gs[j].events
    decreases j
  {
    if j > 0 {
      StrLessIrreflexive(gs[0].process);
      assert gs[0].process != gs[j].process;
      assert gs[1..][j - 1] == gs[j];
      LookupAt(gs[1..], j - 1);
    }
  }

  lemma {:induction false} LookupFound(gs: seq<Group>, k: string)
    requires (forall g :: g in gs ==> g.events != []) && Lookup(gs, k) != []
    ensures exists j :: 0 <= j < |gs| && gs[j].process == k
    decreases |gs|
  {
    if gs[0].process != k {
      LookupFound(gs[1..], k);
      var j :| 0 <= j < |gs[1..]| && gs[1..][j].process == k;
      assert gs[j + 1].process == k;
    }
  }

  /**
   * Grouping completeness: every event is in the group of its process path, a group
   * holds only events of its own path, and no path has two groups, so each event is
   * in exactly one group.
   */
  lemma GroupingComplete(groups: seq<Group>, events: seq<Event>)
    requires GroupedBy(groups, events)
    ensures forall e :: e in events ==>
      exists j :: 0 <= j < |groups| && groups[j].process == e.process && e in groups[j].events
    ensures forall j, e :: 0 <= j < |groups| && e in groups[j].events ==>
      e in events && e.process == groups[j].process
    ensures forall i, j :: 0 <= i < j < |groups| ==> groups[i].process != groups[j].process
  {
    forall e | e in events
      ensures exists j :: 0 <= j < |groups| && groups[j].process == e.process && e in groups[j].events
    {
      FilterMembership(events, e.process, e);
      LookupFound(groups, e.process);
      var j :| 0 <= j < |groups| && groups[j].process == e.process;
      LookupAt(groups, j);
    }
    forall j, e | 0 <= j < |groups| && e in groups[j].events
      ensures e in events && e.process == groups[j].process
    {
      LookupAt(groups, j);
      FilterMembership(events, groups[j].process, e);
    }
    forall i, j | 0 <= i < j < |groups|
      ensures groups[i].process != groups[j].process
    {
      StrLessIrreflexive(groups[i].process);
    }
  }

  /** Two events of one process with times T1 < T2 appear in that process's group as T1 before T2. */
  lemma OrderWithinGroup(groups: seq<Group>, events: seq<Event>, e1: Event, e2: Event)
    requires GroupedBy(groups, events) && SortedByTime(events)
    requires e1 in events && e2 in events && e1.process == e2.process && Before(e1, e2)
    ensures exists i, j ::
              && 0 <= i < j < |Lookup(groups, e1.process)|
              && Lookup(groups, e1.process)[i] == e1
              && Lookup(groups, e1.process)[j] == e2
  {
    var g := Lookup(groups, e1.process);
    FilterSorted(events, e1.process);
    FilterMembership(events, e1.process, e1);
    FilterMembership(events, e1.process, e2);
    LessIrreflexive(e1.time);
    var i :| 0 <= i < |g| && g[i] == e1;
    var j :| 0 <= j < |g| && g[j] == e2;
    assert i < j;
    assert 0 <= i < j < |g| && g[i] == e1 && g[j] == e2;
  }
}
