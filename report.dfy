/**
 * The bytes the two renderers write: per process group a header row, a rule of
 * dashes as wide as the four columns together, one row per event and two newlines.
 * Cells are left-justified and padded with spaces to the column width, never cut.
 * Widths count bytes, as `std::setw` does on a `std::string`: a value outside ASCII
 * takes more of its column than it has characters.
 */
module Report {
  import opened Text
  import opened Wrappers
  import opened Timestamps
  import opened Events
  import opened Store

  /** Column widths of Time, Process, Event and Target. */
  datatype Widths = Widths(time: nat, process: nat, event: nat, target: nat) {
    function Total(): nat {
      time + process + event + target
    }
  }

  /** `print_grouped_events`. */
  const Console := Widths(30, 40, 12, 50)

  /** `save_events_to_file`. */
  const File := Widths(35, 60, 10, 190)

  /**
   * `std::left << std::setw(w) << v` for a `std::string` v, given as its bytes: the
   * bytes, then spaces up to `w` bytes; a longer value is written whole.
   */
  function Cell(v: string, w: nat): (r: string)
    ensures |r| == if |v| < w then w else |v|
    ensures r[..|v|] == v
    ensures forall i :: |v| <= i < |r| ==> r[i] == ' '
  {
    if |v| < w then v + Repeat(' ', w - |v|) else v
  }

  /** One table line of four byte strings: four cells and a newline. */
  function Row(w: Widths, time: string, process: string, event: string, target: string): string {
    Cell(time, w.time) + Cell(process, w.process) + Cell(event, w.event) + Cell(target, w.target) + "\n"
  }

  function Header(w: Widths): string {
    Row(w, "Time", "Process", "Event", "Target")
  }

  /** `std::string(total width, '-')` and a newline. */
  function Rule(w: Widths): string {
    Repeat('-', w.Total()) + "\n"
  }

  /**
   * The row of one event. The text fields are written as their UTF-8 bytes; the
   * time text is ASCII, so its characters are its bytes (`ToStringAscii`).
   */
  function EventRow(w: Widths, e: Event): string {
    Row(w, ToString(e.time), Utf8(e.process), Utf8(e.eventType), Utf8(e.target))
  }

  function EventRows(w: Widths, events: seq<Event>): string {
    if events == [] then "" else EventRow(w, events[0]) + EventRows(w, events[1..])
  }

  /** The text of one group: header, rule, its rows, and a blank line after it. */
  function GroupBlock(w: Widths, g: Group): string {
    Header(w) + Rule(w) + EventRows(w, g.events) + "\n\n"
  }

  /** The block of each group, in map order. */
  function Blocks(w: Widths, groups: seq<Group>): (r: seq<string>)
    ensures |r| == |groups|
    ensures forall k :: 0 <= k < |groups| ==> r[k] == GroupBlock(w, groups[k])
  {
    if groups == [] then [] else [GroupBlock(w, groups[0])] + Blocks(w, groups[1..])
  }

  /** Texts written one after the other. */
  function Join(parts: seq<string>): string {
    if parts == [] then "" else parts[0] + Join(parts[1..])
  }

  /** The whole report: the blocks of the groups, in map order. */
  function Render(w: Widths, groups: seq<Group>): string {
    Join(Blocks(w, groups))
  }

  /**
   * `center(s, width)` on the bytes of s: a text at least `width` bytes long is
   * returned as is; otherwise it is padded with spaces to exactly `width` bytes, the
   * left pad being the smaller half.
   */
  function Center(s: string, width: int): (r: string)
    ensures |Utf8(s)| >= width ==> r == Utf8(s)
    ensures |Utf8(s)| < width ==>
      var len := |Utf8(s)|;
      var left := (width - len) / 2;
      && |r| == width
      && r[left..left + len] == Utf8(s)
      && (forall i :: 0 <= i < left ==> r[i] == ' ')
      && (forall i :: left + len <= i < width ==> r[i] == ' ')
      && 0 <= (width - len - left) - left <= 1
  {
    var b := Utf8(s);
    var len := |b|;
    if len >= width then b
    else
      var leftPadding := (width - len) / 2;
      var rightPadding := width - len - leftPadding;
      Repeat(' ', leftPadding) + b + Repeat(' ', rightPadding)
  }

  // ---------------------------------------------------------------------------
  // Layout properties.
  // ---------------------------------------------------------------------------

  /**
   * When every value fits its column, a row is exactly as wide as the four columns
   * plus the newline, and each column starts at the sum of the widths before it.
   */
  lemma RowColumns(w: Widths, a: string, b: string, c: string, d: string)
    requires |a| <= w.time && |b| <= w.process && |c| <= w.event && |d| <= w.target
    ensures var r := Row(w, a, b, c, d);
      var o1 := w.time;
      var o2 := o1 + w.process;
      var o3 := o2 + w.event;
      && |r| == w.Total() + 1
      && r[..o1] == Cell(a, w.time)
      && r[o1..o2] == Cell(b, w.process)
      && r[o2..o3] == Cell(c, w.event)
      && r[o3..w.Total()] == Cell(d, w.target)
      && r[w.Total()] == '\n'
  {
    FourCells(Cell(a, w.time), Cell(b, w.process), Cell(c, w.event), Cell(d, w.target));
  }

  /** Where each of four cells lies in the line made of them. */
  lemma FourCells(ca: string, cb: string, cc: string, cd: string)
    ensures var r := ca + cb + cc + cd + "\n";
      var o1 := |ca|;
      var o2 := o1 + |cb|;
      var o3 := o2 + |cc|;
      && |r| == o3 + |cd| + 1
      && r[..o1] == ca
      && r[o1..o2] == cb
      && r[o2..o3] == cc
      && r[o3..o3 + |cd|] == cd
      && r[o3 + |cd|] == '\n'
  {
    var r := ca + cb + cc + cd + "\n";
    var o1 := |ca|;
    var o2 := o1 + |cb|;
    var o3 := o2 + |cc|;
    assert r[..o1] == ca;
    assert r[o1..o2] == cb;
    assert r[o2..o3] == cc;
    assert r[o3..o3 + |cd|] == cd;
  }

  /** A row never loses text: a value wider than its column pushes the rest to the right. */
  lemma RowWidth(w: Widths, a: string, b: string, c: string, d: string)
    ensures |Row(w, a, b, c, d)| ==
      (if |a| < w.time then w.time else |a|) + (if |b| < w.process then w.process else |b|) +
      (if |c| < w.event then w.event else |c|) + (if |d| < w.target then w.target else |d|) + 1
  {
    var r := Row(w, a, b, c, d);
    assert r == Cell(a, w.time) + (Cell(b, w.process) + Cell(c, w.event) + Cell(d, w.target) + "\n");
  }

  /** The rule is dashes, one per column position, then a newline: 132 for the console and 295 for the file. */
  lemma RuleWidths(w: Widths)
    ensures |Rule(w)| == w.Total() + 1
    ensures forall i :: 0 <= i < w.Total() ==> Rule(w)[i] == '-'
    ensures Rule(w)[w.Total()] == '\n'
    ensures Console.Total() == 132 && File.Total() == 295
  {
  }

  /** The header fits both tables, so it is exactly as wide as the rule under it. */
  lemma HeaderMatchesRule(w: Widths)
    requires w == Console || w == File
    ensures |Header(w)| == |Rule(w)|
  {
    RowColumns(w, "Time", "Process", "Event", "Target");
  }

  /** A row starts with its first value, whatever the widths. */
  lemma RowStart(w: Widths, a: string, b: string, c: string, d: string)
    ensures Row(w, a, b, c, d)[..|a|] == a
  {
    assert Row(w, a, b, c, d) == Cell(a, w.time) + (Cell(b, w.process) + Cell(c, w.event) + Cell(d, w.target) + "\n");
  }

  /**
   * The Time column of a row starts with the text of the event's time (26 characters
   * when the fields fit their widths, by `ToStringLength`), and reading that text
   * back gives the time.
   */
  lemma TimeColumnReadsBack(w: Widths, e: Event)
    requires FitsWidths(e.time)
    ensures EventRow(w, e)[..|ToString(e.time)|] == ToString(e.time)
    ensures ParseTime(EventRow(w, e)[..|ToString(e.time)|]) == Some(e.time)
  {
    RowStart(w, ToString(e.time), Utf8(e.process), Utf8(e.eventType), Utf8(e.target));
    RoundTrip(e.time);
  }

  /** When the first two values fit, a row with empty third and fourth values ends in blanks up to the newline. */
  lemma RowBlankTail(w: Widths, a: string, b: string)
    requires |a| <= w.time && |b| <= w.process
    ensures forall i :: w.time + w.process <= i < w.Total() ==> Row(w, a, b, "", "")[i] == ' '
  {
    RowColumns(w, a, b, "", "");
    var r := Row(w, a, b, "", "");
    var o2 := w.time + w.process;
    var o3 := o2 + w.event;
    forall i | o2 <= i < w.Total()
      ensures r[i] == ' '
    {
      if i < o3 {
        assert r[i] == r[o2..o3][i - o2];
      } else {
        assert r[i] == r[o3..w.Total()][i - o3];
      }
    }
  }

  /** An event without a kind shows blank Event and Target columns. */
  lemma DegenerateRowBlank(w: Widths, e: Event)
    requires e.eventType == "" && e.target == ""
    requires |ToString(e.time)| <= w.time && |Utf8(e.process)| <= w.process
    ensures forall i :: w.time + w.process <= i < w.Total() ==> EventRow(w, e)[i] == ' '
  {
    RowBlankTail(w, ToString(e.time), Utf8(e.process));
  }

  /** Writing two lists of texts is writing the one, then the other. */
  lemma {:induction false} JoinConcat(p: seq<string>, q: seq<string>)
    ensures Join(p + q) == Join(p) + Join(q)
    decreases |p|
  {
    if p == [] {
      assert p + q == q;
    } else {
      assert (p + q)[0] == p[0] && (p + q)[1..] == p[1..] + q;
      JoinConcat(p[1..], q);
    }
  }

  /** The report of two lists of groups is the two reports one after the other. */
  lemma RenderConcat(w: Widths, a: seq<Group>, b: seq<Group>)
    ensures Render(w, a + b) == Render(w, a) + Render(w, b)
  {
    assert Blocks(w, a + b) == Blocks(w, a) + Blocks(w, b);
    JoinConcat(Blocks(w, a), Blocks(w, b));
  }

  /** Cutting the list at group `k`: the groups before it, its block, the groups after it. */
  lemma RenderSplit(w: Widths, groups: seq<Group>, k: nat)
    requires k < |groups|
    ensures Render(w, groups) == Render(w, groups[..k]) + GroupBlock(w, groups[k]) + Render(w, groups[k + 1..])
  {
    assert groups == groups[..k] + ([groups[k]] + groups[k + 1..]);
    RenderConcat(w, groups[..k], [groups[k]] + groups[k + 1..]);
    RenderConcat(w, [groups[k]], groups[k + 1..]);
    assert Join(Blocks(w, [groups[k]])) == GroupBlock(w, groups[k]) + Join([]);
  }

  /**
   * Groups come out in ascending order of their process path, the order the
   * `std::map` iterates in: of two groups, the block of the one with the smaller
   * path is written first, and the groups between them are written between them.
   */
  lemma RenderKeyOrder(w: Widths, groups: seq<Group>, i: nat, j: nat)
    requires Ascending(groups) && i < j < |groups|
    ensures StrLess(groups[i].process, groups[j].process)
    ensures Render(w, groups) == Render(w, groups[..j]) + GroupBlock(w, groups[j]) + Render(w, groups[j + 1..])
    ensures Render(w, groups[..j]) == Render(w, groups[..i]) + GroupBlock(w, groups[i]) + Render(w, groups[i + 1..j])
  {
    RenderSplit(w, groups, j);
    var front := groups[..j];
    RenderSplit(w, front, i);
    assert front[..i] == groups[..i] && front[i] == groups[i] && front[i + 1..] == groups[i + 1..j];
  }
}
