/**
 * The timestamp of an event (`event_time_t`): six `int` fields and a `long long`
 * microsecond, the canonical text form produced by `to_string`, the stream-based
 * reader `parse_time`, and the lexicographic `operator<`.
 */
module Timestamps {
  import opened Wrappers
  import opened Text

  /** Bounds of a 32-bit `int` and of a 64-bit `long long`. */
  const IntMin: int := -0x8000_0000
  const IntMax: int := 0x7fff_ffff
  const LongMin: int := -0x8000_0000_0000_0000
  const LongMax: int := 0x7fff_ffff_ffff_ffff

  datatype Timestamp = Timestamp(
    year: int, month: int, day: int, hour: int, minute: int, second: int,
    microsecond: int)

  predicate InInt(n: int) {
    IntMin <= n <= IntMax
  }

  /** Every field holds a value of its C++ type. */
  predicate InTypeRanges(t: Timestamp) {
    && InInt(t.year) && InInt(t.month) && InInt(t.day)
    && InInt(t.hour) && InInt(t.minute) && InInt(t.second)
    && LongMin <= t.microsecond <= LongMax
  }

  // ---------------------------------------------------------------------------
  // Ordering: std::tie(year, ..., microsecond) < std::tie(...)
  // ---------------------------------------------------------------------------

  /** The tuple that `std::tie` builds, in field order. */
  function Fields(t: Timestamp): (f: seq<int>)
    ensures |f| == 7
  {
    [t.year, t.month, t.day, t.hour, t.minute, t.second, t.microsecond]
  }

  /** `std::tuple`'s `operator<`: decide on the first element, else compare the tails. */
  predicate LexLess(a: seq<int>, b: seq<int>)
    requires |a| == |b|
    decreases |a|
  {
    |a| > 0 && (a[0] < b[0] || (!(b[0] < a[0]) && LexLess(a[1..], b[1..])))
  }

  /** `event_time_t::operator<`. */
  predicate Less(a: Timestamp, b: Timestamp) {
    LexLess(Fields(a), Fields(b))
  }

  lemma {:induction false} LexIrreflexive(a: seq<int>)
    ensures !LexLess(a, a)
    decreases |a|
  {
    if |a| > 0 {
      LexIrreflexive(a[1..]);
    }
  }

  lemma {:induction false} LexTransitive(a: seq<int>, b: seq<int>, c: seq<int>)
    requires |a| == |b| == |c|
    requires LexLess(a, b) && LexLess(b, c)
    ensures LexLess(a, c)
    decreases |a|
  {
    if a[0] == b[0] == c[0] {
      LexTransitive(a[1..], b[1..], c[1..]);
    }
  }

  lemma {:induction false} LexTrichotomy(a: seq<int>, b: seq<int>)
    requires |a| == |b|
    ensures a == b <==> !LexLess(a, b) && !LexLess(b, a)
    ensures !(LexLess(a, b) && LexLess(b, a))
    decreases |a|
  {
    if |a| > 0 {
      LexTrichotomy(a[1..], b[1..]);
      if a[0] == b[0] && a[1..] == b[1..] {
        assert a == [a[0]] + a[1..] && b == [b[0]] + b[1..];
      }
    }
  }

  /** `operator<` is a strict order: never `a < a` ... */
  lemma LessIrreflexive(a: Timestamp)
    ensures !Less(a, a)
  {
    LexIrreflexive(Fields(a));
  }

  /** ... and transitive. */
  lemma LessTransitive(a: Timestamp, b: Timestamp, c: Timestamp)
    requires Less(a, b) && Less(b, c)
    ensures Less(a, c)
  {
    LexTransitive(Fields(a), Fields(b), Fields(c));
  }

  /**
   * Exactly one of `a < b`, `b < a`, `a == b` holds: two timestamps are
   * incomparable exactly when all seven fields agree.
   */
  lemma LessTrichotomy(a: Timestamp, b: Timestamp)
    ensures a == b <==> !Less(a, b) && !Less(b, a)
    ensures !(Less(a, b) && Less(b, a))
  {
    LexTrichotomy(Fields(a), Fields(b));
    if Fields(a) == Fields(b) {
      assert Fields(a)[0] == Fields(b)[0] && Fields(a)[1] == Fields(b)[1];
      assert Fields(a)[2] == Fields(b)[2] && Fields(a)[3] == Fields(b)[3];
      assert Fields(a)[4] == Fields(b)[4] && Fields(a)[5] == Fields(b)[5];
      assert Fields(a)[6] == Fields(b)[6];
    }
  }

  lemma {:induction false} LexNotLessChain(a: seq<int>, b: seq<int>, c: seq<int>)
    requires |a| == |b| == |c|
    requires !LexLess(b, a) && !LexLess(c, b)
    ensures !LexLess(c, a)
    decreases |a|
  {
    if |a| > 0 && a[0] == b[0] && b[0] == c[0] {
      LexNotLessChain(a[1..], b[1..], c[1..]);
    }
  }

  /** "Not earlier" chains: the order is total, so its complement is transitive too. */
  lemma NotLessTransitive(a: Timestamp, b: Timestamp, c: Timestamp)
    requires !Less(b, a) && !Less(c, b)
    ensures !Less(c, a)
  {
    LexNotLessChain(Fields(a), Fields(b), Fields(c));
  }

  /** The order decides on the first field that differs, in the order year ... microsecond. */
  lemma LessDecidedByFirstDifference(a: Timestamp, b: Timestamp, k: nat)
    requires k < 7
    requires forall i :: 0 <= i < k ==> Fields(a)[i] == Fields(b)[i]
    requires Fields(a)[k] != Fields(b)[k]
    ensures Less(a, b) <==> Fields(a)[k] < Fields(b)[k]
  {
    LexDecided(Fields(a), Fields(b), k);
  }

  lemma {:induction false} LexDecided(a: seq<int>, b: seq<int>, k: nat)
    requires |a| == |b| && k < |a|
    requires forall i :: 0 <= i < k ==> a[i] == b[i]
    requires a[k] != b[k]
    ensures LexLess(a, b) <==> a[k] < b[k]
    decreases k
  {
    if k > 0 {
      LexDecided(a[1..], b[1..], k - 1);
    }
  }

  // ---------------------------------------------------------------------------
  // Rendering: std::setw(w) << std::setfill('0') << n, right-justified
  // ---------------------------------------------------------------------------

  /** Decimal digits of a natural number, without leading zeros. */
  function NatToDigits(n: nat): (r: string)
    ensures |r| > 0 && AllDigits(r)
    decreases n
  {
    if n < 10 then [DigitChar(n)] else NatToDigits(n / 10) + [DigitChar(n % 10)]
  }

  /** What `operator<<` writes for an integer: a '-' for negatives, then the digits. */
  function IntToString(n: int): string {
    if n < 0 then "-" + NatToDigits(-n) else NatToDigits(n)
  }

  /**
   * Right-justified padding to width w with the fill character. The text is never
   * cut: the result is as long as the wider of w and the text, and ends with it.
   */
  function PadLeft(s: string, w: nat, fill: char): (r: string)
    ensures |r| == if |s| < w then w else |s|
    ensures r[|r| - |s|..] == s
    ensures forall i :: 0 <= i < |r| - |s| ==> r[i] == fill
  {
    if |s| < w then Repeat(fill, w - |s|) + s else s
  }

  /** One zero-padded field of the canonical form. */
  function Field(n: int, w: nat): string {
    PadLeft(IntToString(n), w, '0')
  }

  /**
   * Seven fields joined by six separator characters, in the order
   * year c1 month c2 day c3 hour c4 minute c5 second c6 microsecond.
   */
  function Joined(f1: string, f2: string, f3: string, f4: string, f5: string, f6: string, f7: string,
                  c1: char, c2: char, c3: char, c4: char, c5: char, c6: char): string {
    f1 + ([c1] + (f2 + ([c2] + (f3 + ([c3] + (f4 + ([c4] + (f5 + ([c5] + (f6 + ([c6] + f7)))))))))))
  }

  /** `event_time_t::to_string`: `YYYY-MM-DD HH:MM:SS.ssssss`, each field zero-padded. */
  function ToString(t: Timestamp): string {
    Joined(Field(t.year, 4), Field(t.month, 2), Field(t.day, 2), Field(t.hour, 2),
           Field(t.minute, 2), Field(t.second, 2), Field(t.microsecond, 6),
           '-', '-', ' ', ':', ':', '.')
  }

  function Pow10(k: nat): (p: nat)
    ensures p >= 1
  {
    if k == 0 then 1 else 10 * Pow10(k - 1)
  }

  /** Every field is non-negative and fits its width in the canonical form. */
  predicate FitsWidths(t: Timestamp) {
    && 0 <= t.year < Pow10(4)
    && 0 <= t.month < Pow10(2) && 0 <= t.day < Pow10(2)
    && 0 <= t.hour < Pow10(2) && 0 <= t.minute < Pow10(2) && 0 <= t.second < Pow10(2)
    && 0 <= t.microsecond < Pow10(6)
  }

  // ---------------------------------------------------------------------------
  // Reading: the istringstream extractions of parse_time. The stream holds the
  // bytes of the text (see `Utf8`); each function below takes the bytes not yet
  // consumed.
  // ---------------------------------------------------------------------------

  /** A value read from the stream and the bytes not yet consumed. */
  datatype Read<T> = Read(value: T, rest: string)

  /** The leading-whitespace skip that every formatted extraction performs. */
  function SkipSpace(s: string): (r: string)
    ensures |r| <= |s| && r == s[|s| - |r|..]
    ensures r == [] || !IsSpace(r[0])
  {
    if s != [] && IsSpace(s[0]) then SkipSpace(s[1..]) else s
  }

  /** Length of the run of digits at the front of s. */
  function DigitRun(s: string): (k: nat)
    ensures k <= |s| && AllDigits(s[..k])
    ensures k == |s| || !IsDigit(s[k])
  {
    if s != [] && IsDigit(s[0]) then 1 + DigitRun(s[1..]) else 0
  }

  /** The number a string of decimal digits denotes. */
  function DigitsValue(ds: string): nat
    requires AllDigits(ds)
  {
    if ds == [] then 0 else DigitsValue(ds[..|ds| - 1]) * 10 + DigitValue(ds[|ds| - 1])
  }

  /**
   * `stream >> n` into an integer whose type holds [lo, hi]: skip whitespace, an
   * optional sign, at least one digit; a value that does not fit sets failbit.
   */
  function ReadInt(s: string, lo: int, hi: int): (r: Option<Read<int>>)
    ensures r.Some? ==> lo <= r.value.value <= hi && |r.value.rest| < |s|
  {
    ReadNumber(SkipSpace(s), lo, hi)
  }

  /** The number itself, once whitespace is skipped: optional sign, then digits. */
  function ReadNumber(t: string, lo: int, hi: int): (r: Option<Read<int>>)
    ensures r.Some? ==> lo <= r.value.value <= hi && |r.value.rest| < |t|
  {
    var signed := t != [] && (t[0] == '-' || t[0] == '+');
    var u := if signed then t[1..] else t;
    var k := DigitRun(u);
    if k == 0 then None
    else
      var magnitude: int := DigitsValue(u[..k]);
      var n: int := if signed && t[0] == '-' then -magnitude else magnitude;
      if n < lo || hi < n then None else Some(Read(n, u[k..]))
  }

  /** `stream >> c` into a `char`: skip whitespace, then take one byte. */
  function ReadChar(s: string): (r: Option<Read<char>>)
    ensures r.Some? ==> !IsSpace(r.value.value) && |r.value.rest| < |s|
  {
    var t := SkipSpace(s);
    if t == [] then None else Some(Read(t[0], t[1..]))
  }

  /** `stream.ignore(1)`: drop one byte, whatever it is; at the end the stream fails. */
  function Ignore(s: string): Option<string> {
    if s == [] then None else Some(s[1..])
  }

  /** `ss >> year >> delimiter >> month >> delimiter >> day`. */
  function ReadDate(s: string): (r: Option<Read<(int, int, int)>>)
    ensures r.Some? ==> var (a, b, c) := r.value.value; InInt(a) && InInt(b) && InInt(c)
  {
    var year :- ReadInt(s, IntMin, IntMax);
    var d1 :- ReadChar(year.rest);
    var month :- ReadInt(d1.rest, IntMin, IntMax);
    var d2 :- ReadChar(month.rest);
    var day :- ReadInt(d2.rest, IntMin, IntMax);
    Some(Read((year.value, month.value, day.value), day.rest))
  }

  /** `ss.ignore(1) >> hour >> delimiter >> minute >> delimiter >> second`. */
  function ReadClock(s: string): (r: Option<Read<(int, int, int)>>)
    ensures r.Some? ==> var (a, b, c) := r.value.value; InInt(a) && InInt(b) && InInt(c)
  {
    var s0 :- Ignore(s);
    var hour :- ReadInt(s0, IntMin, IntMax);
    var d1 :- ReadChar(hour.rest);
    var minute :- ReadInt(d1.rest, IntMin, IntMax);
    var d2 :- ReadChar(minute.rest);
    var second :- ReadInt(d2.rest, IntMin, IntMax);
    Some(Read((hour.value, minute.value, second.value), second.rest))
  }

  /** `ss.ignore(1) >> microsecond`, into a `long long`. */
  function ReadMicrosecond(s: string): Option<Read<int>> {
    var s0 :- Ignore(s);
    ReadInt(s0, LongMin, LongMax)
  }

  /**
   * `event_time_t::parse_time`: seven integers read positionally from the bytes of
   * the text. The delimiters are read and discarded without being checked, and no
   * field is range-checked beyond its C++ type; `None` stands for the "Invalid time
   * format" exception. Whatever follows the microsecond is ignored.
   */
  function ParseTime(text: string): (r: Option<Timestamp>)
    ensures r.Some? ==> InTypeRanges(r.value)
  {
    ParseBytes(Utf8(text))
  }

  /** The extractions of `parse_time` on the stream's bytes. */
  function ParseBytes(bytes: string): (r: Option<Timestamp>)
    ensures r.Some? ==> InTypeRanges(r.value)
  {
    var date :- ReadDate(bytes);
    var clock :- ReadClock(date.rest);
    var microsecond :- ReadMicrosecond(clock.rest);
    Some(Timestamp(date.value.0, date.value.1, date.value.2,
                   clock.value.0, clock.value.1, clock.value.2, microsecond.value))
  }

  // ---------------------------------------------------------------------------
  // Round trip between to_string and parse_time
  // ---------------------------------------------------------------------------

  lemma DigitsValueSnoc(ds: string, c: char)
    requires AllDigits(ds) && IsDigit(c)
    ensures AllDigits(ds + [c]) && DigitsValue(ds + [c]) == DigitsValue(ds) * 10 + DigitValue(c)
  {
    assert (ds + [c])[..|ds|] == ds;
  }

  lemma {:induction false} NatToDigitsValue(n: nat)
    ensures DigitsValue(NatToDigits(n)) == n
    decreases n
  {
    if n < 10 {
      assert NatToDigits(n) == [] + [DigitChar(n)];
      DigitsValueSnoc([], DigitChar(n));
    } else {
      NatToDigitsValue(n / 10);
      DigitsValueSnoc(NatToDigits(n / 10), DigitChar(n % 10));
    }
  }

  lemma {:induction false} NatToDigitsLength(n: nat, w: nat)
    requires 1 <= w && n < Pow10(w)
    ensures |NatToDigits(n)| <= w
    decreases w
  {
    if n >= 10 {
      assert Pow10(1) == 10;
      assert n / 10 < Pow10(w - 1);
      NatToDigitsLength(n / 10, w - 1);
    }
  }

  lemma {:induction false} ZerosValue(k: nat)
    ensures AllDigits(Repeat('0', k)) && DigitsValue(Repeat('0', k)) == 0
    decreases k
  {
    if k > 0 {
      ZerosValue(k - 1);
      DigitsValueSnoc(Repeat('0', k - 1), '0');
    }
  }

  /** Leading zeros do not change the value of a digit string. */
  lemma {:induction false} LeadingZeros(k: nat, ds: string)
    requires AllDigits(ds)
    ensures AllDigits(Repeat('0', k) + ds)
    ensures DigitsValue(Repeat('0', k) + ds) == DigitsValue(ds)
    decreases |ds|
  {
    ZerosValue(k);
    if ds == [] {
      assert Repeat('0', k) + ds == Repeat('0', k);
    } else {
      var init, c := ds[..|ds| - 1], ds[|ds| - 1];
      assert ds == init + [c];
      LeadingZeros(k, init);
      assert Repeat('0', k) + ds == (Repeat('0', k) + init) + [c];
      DigitsValueSnoc(Repeat('0', k) + init, c);
      DigitsValueSnoc(init, c);
    }
  }

  /** A non-negative field that fits its width renders as exactly w digits denoting it. */
  lemma FieldDigits(n: int, w: nat)
    requires 1 <= w && 0 <= n < Pow10(w)
    ensures |Field(n, w)| == w && AllDigits(Field(n, w)) && DigitsValue(Field(n, w)) == n
  {
    var ds := NatToDigits(n);
    NatToDigitsLength(n, w);
    NatToDigitsValue(n);
    assert IntToString(n) == ds;
    var f := Repeat('0', w - |ds|) + ds;
    if |ds| < w {
      assert Field(n, w) == f;
    } else {
      assert Repeat('0', 0) + ds == ds;
      assert Field(n, w) == f;
    }
    LeadingZeros(w - |ds|, ds);
  }

  lemma {:induction false} DigitRunAll(ds: string, rest: string)
    requires AllDigits(ds) && (rest == [] || !IsDigit(rest[0]))
    ensures DigitRun(ds + rest) == |ds|
    decreases |ds|
  {
    if ds != [] {
      assert (ds + rest)[1..] == ds[1..] + rest;
      DigitRunAll(ds[1..], rest);
    }
  }

  lemma ReadIntDigits(ds: string, rest: string, lo: int, hi: int)
    requires ds != [] && AllDigits(ds) && lo <= DigitsValue(ds) <= hi
    requires rest == [] || !IsDigit(rest[0])
    ensures ReadInt(ds + rest, lo, hi) == Some(Read(DigitsValue(ds) as int, rest))
  {
    assert !IsSpace((ds + rest)[0]) by {
      assert (ds + rest)[0] == ds[0];
    }
    assert [] + (ds + rest) == ds + rest;
    ReadIntSkip([], ds + rest, lo, hi);
    ReadNumberUnsigned(ds, rest, lo, hi);
  }

  lemma ReadCharAt(c: char, rest: string)
    requires !IsSpace(c)
    ensures ReadChar([c] + rest) == Some(Read(c, rest))
  {
    assert ([c] + rest)[1..] == rest;
  }

  /** A non-empty run of digits whose value is at most hi. */
  predicate IsNumeral(f: string, hi: int) {
    f != [] && AllDigits(f) && DigitsValue(f) <= hi
  }

  /** A separator read with `>> delimiter`, which skips whitespace, and ends the number before it. */
  predicate IsDelimiter(c: char) {
    !IsDigit(c) && !IsSpace(c)
  }

  lemma ReadDatePieces(f1: string, f2: string, f3: string, c1: char, c2: char, rest: string)
    requires IsNumeral(f1, IntMax) && IsNumeral(f2, IntMax) && IsNumeral(f3, IntMax)
    requires IsDelimiter(c1) && IsDelimiter(c2)
    requires rest == [] || !IsDigit(rest[0])
    ensures ReadDate(f1 + ([c1] + (f2 + ([c2] + (f3 + rest)))))
         == Some(Read((DigitsValue(f1) as int, DigitsValue(f2) as int, DigitsValue(f3) as int), rest))
  {
    var r2 := [c2] + (f3 + rest);
    var r1 := [c1] + (f2 + r2);
    ReadIntDigits(f1, r1, IntMin, IntMax);
    ReadCharAt(c1, f2 + r2);
    ReadIntDigits(f2, r2, IntMin, IntMax);
    ReadCharAt(c2, f3 + rest);
    ReadIntDigits(f3, rest, IntMin, IntMax);
  }

  lemma ReadClockPieces(c0: char, f1: string, f2: string, f3: string, c1: char, c2: char, rest: string)
    requires IsNumeral(f1, IntMax) && IsNumeral(f2, IntMax) && IsNumeral(f3, IntMax)
    requires IsDelimiter(c1) && IsDelimiter(c2)
    requires rest == [] || !IsDigit(rest[0])
    ensures ReadClock([c0] + (f1 + ([c1] + (f2 + ([c2] + (f3 + rest))))))
         == Some(Read((DigitsValue(f1) as int, DigitsValue(f2) as int, DigitsValue(f3) as int), rest))
  {
    var r2 := [c2] + (f3 + rest);
    var r1 := [c1] + (f2 + r2);
    assert Ignore([c0] + (f1 + r1)) == Some(f1 + r1);
    ReadIntDigits(f1, r1, IntMin, IntMax);
    ReadCharAt(c1, f2 + r2);
    ReadIntDigits(f2, r2, IntMin, IntMax);
    ReadCharAt(c2, f3 + rest);
    ReadIntDigits(f3, rest, IntMin, IntMax);
  }

  lemma ReadMicrosecondPiece(c0: char, f: string)
    requires IsNumeral(f, LongMax)
    ensures ReadMicrosecond([c0] + f) == Some(Read(DigitsValue(f) as int, []))
  {
    assert ([c0] + f)[1..] == f == f + [];
    ReadIntDigits(f, [], LongMin, LongMax);
  }

  /**
   * `parse_time` on seven digit runs and six separators reads the values of the
   * runs. The separators are not validated: any non-digit will do, except that the
   * four read with `>> delimiter` must not be whitespace (that extraction skips it);
   * the two consumed by `ignore(1)` may even be whitespace.
   */
  lemma ParsePieces(f1: string, f2: string, f3: string, f4: string, f5: string, f6: string, f7: string,
                    c1: char, c2: char, c3: char, c4: char, c5: char, c6: char)
    requires IsNumeral(f1, IntMax) && IsNumeral(f2, IntMax) && IsNumeral(f3, IntMax)
    requires IsNumeral(f4, IntMax) && IsNumeral(f5, IntMax) && IsNumeral(f6, IntMax)
    requires IsNumeral(f7, LongMax)
    requires IsDelimiter(c1) && IsDelimiter(c2) && IsDelimiter(c4) && IsDelimiter(c5)
    requires !IsDigit(c3) && !IsDigit(c6)
    ensures ParseBytes(Joined(f1, f2, f3, f4, f5, f6, f7, c1, c2, c3, c4, c5, c6))
         == Some(Timestamp(DigitsValue(f1), DigitsValue(f2), DigitsValue(f3), DigitsValue(f4),
                           DigitsValue(f5), DigitsValue(f6), DigitsValue(f7)))
  {
    var micro := [c6] + f7;
    var clock := [c3] + (f4 + ([c4] + (f5 + ([c5] + (f6 + micro)))));
    ReadDatePieces(f1, f2, f3, c1, c2, clock);
    ReadClockPieces(c3, f4, f5, f6, c4, c5, micro);
    ReadMicrosecondPiece(c6, f7);
  }

  /**
   * Reading back a timestamp whose fields fit their widths, written with any
   * one-byte separators `parse_time` accepts, gives the timestamp: the delimiters
   * are not validated and no calendar range is checked (month 13 reads back as 13).
   * A separator outside ASCII is several bytes and fails (`NonAsciiDelimiterFails`).
   */
  lemma ParseAnySeparators(t: Timestamp, c1: char, c2: char, c3: char, c4: char, c5: char, c6: char)
    requires FitsWidths(t)
    requires IsDelimiter(c1) && IsDelimiter(c2) && IsDelimiter(c4) && IsDelimiter(c5)
    requires !IsDigit(c3) && !IsDigit(c6)
    requires IsAscii([c1, c2, c3, c4, c5, c6])
    ensures ParseTime(Joined(Field(t.year, 4), Field(t.month, 2), Field(t.day, 2), Field(t.hour, 2),
                             Field(t.minute, 2), Field(t.second, 2), Field(t.microsecond, 6),
                             c1, c2, c3, c4, c5, c6)) == Some(t)
  {
    FieldDigits(t.year, 4);
    FieldDigits(t.month, 2);
    FieldDigits(t.day, 2);
    FieldDigits(t.hour, 2);
    FieldDigits(t.minute, 2);
    FieldDigits(t.second, 2);
    FieldDigits(t.microsecond, 6);
    var f1, f2, f3, f4 := Field(t.year, 4), Field(t.month, 2), Field(t.day, 2), Field(t.hour, 2);
    var f5, f6, f7 := Field(t.minute, 2), Field(t.second, 2), Field(t.microsecond, 6);
    ParsePieces(f1, f2, f3, f4, f5, f6, f7, c1, c2, c3, c4, c5, c6);
    JoinedAscii(f1, f2, f3, f4, f5, f6, f7, c1, c2, c3, c4, c5, c6);
    Utf8Ascii(Joined(f1, f2, f3, f4, f5, f6, f7, c1, c2, c3, c4, c5, c6));
  }

  /** Joining ASCII pieces gives ASCII text. */
  lemma JoinedAscii(f1: string, f2: string, f3: string, f4: string, f5: string, f6: string, f7: string,
                    c1: char, c2: char, c3: char, c4: char, c5: char, c6: char)
    requires IsAscii(f1) && IsAscii(f2) && IsAscii(f3) && IsAscii(f4) && IsAscii(f5)
    requires IsAscii(f6) && IsAscii(f7) && IsAscii([c1, c2, c3, c4, c5, c6])
    ensures IsAscii(Joined(f1, f2, f3, f4, f5, f6, f7, c1, c2, c3, c4, c5, c6))
  {
    assert [c1, c2, c3, c4, c5, c6][0] == c1 && [c1, c2, c3, c4, c5, c6][1] == c2;
    assert [c1, c2, c3, c4, c5, c6][2] == c3 && [c1, c2, c3, c4, c5, c6][3] == c4;
    assert [c1, c2, c3, c4, c5, c6][4] == c5 && [c1, c2, c3, c4, c5, c6][5] == c6;
    var r := [c6] + f7;
    AsciiConcat(f6, r);
    r := f6 + r;
    AsciiConcat([c5], r);
    r := [c5] + r;
    AsciiConcat(f5, r);
    r := f5 + r;
    AsciiConcat([c4], r);
    r := [c4] + r;
    AsciiConcat(f4, r);
    r := f4 + r;
    AsciiConcat([c3], r);
    r := [c3] + r;
    AsciiConcat(f3, r);
    r := f3 + r;
    AsciiConcat([c2], r);
    r := [c2] + r;
    AsciiConcat(f2, r);
    r := f2 + r;
    AsciiConcat([c1], r);
    r := [c1] + r;
    AsciiConcat(f1, r);
  }

  lemma AsciiConcat(a: string, b: string)
    requires IsAscii(a) && IsAscii(b)
    ensures IsAscii(a + b)
  {
    forall i | 0 <= i < |a + b| ensures (a + b)[i] as int < 0x80 {
      if i >= |a| {
        assert (a + b)[i] == b[i - |a|];
      }
    }
  }

  /** What `to_string` writes is ASCII whatever the fields: digits, '-', the separators and '0' fill. */
  lemma ToStringAscii(t: Timestamp)
    ensures IsAscii(ToString(t))
    ensures Utf8(ToString(t)) == ToString(t)
  {
    var f1, f2, f3, f4 := Field(t.year, 4), Field(t.month, 2), Field(t.day, 2), Field(t.hour, 2);
    var f5, f6, f7 := Field(t.minute, 2), Field(t.second, 2), Field(t.microsecond, 6);
    FieldAscii(t.year, 4);
    FieldAscii(t.month, 2);
    FieldAscii(t.day, 2);
    FieldAscii(t.hour, 2);
    FieldAscii(t.minute, 2);
    FieldAscii(t.second, 2);
    FieldAscii(t.microsecond, 6);
    SevenAscii(f1, f2, f3, f4, f5, f6, f7);
    Utf8Ascii(ToString(t));
  }

  lemma SevenAscii(f1: string, f2: string, f3: string, f4: string, f5: string, f6: string, f7: string)
    requires IsAscii(f1) && IsAscii(f2) && IsAscii(f3) && IsAscii(f4) && IsAscii(f5)
    requires IsAscii(f6) && IsAscii(f7)
    ensures IsAscii(Joined(f1, f2, f3, f4, f5, f6, f7, '-', '-', ' ', ':', ':', '.'))
  {
    var seps := "-- ::.";
    assert IsAscii(seps);
    assert [seps[0], seps[1], seps[2], seps[3], seps[4], seps[5]] == seps;
    JoinedAscii(f1, f2, f3, f4, f5, f6, f7, seps[0], seps[1], seps[2], seps[3], seps[4], seps[5]);
  }

  lemma FieldAscii(n: int, w: nat)
    ensures IsAscii(Field(n, w))
  {
    var s := IntToString(n);
    assert IsAscii(s) by {
      if n < 0 {
        AsciiConcat("-", NatToDigits(-n));
      }
    }
    var r := Field(n, w);
    forall i | 0 <= i < |r| ensures r[i] as int < 0x80 {
      if i >= |r| - |s| {
        assert r[i] == r[|r| - |s|..][i - (|r| - |s|)];
      }
    }
  }

  /** Reading back the canonical text of a timestamp whose fields fit gives the timestamp. */
  lemma RoundTrip(t: Timestamp)
    requires FitsWidths(t)
    ensures ParseTime(ToString(t)) == Some(t)
  {
    ParseAnySeparators(t, '-', '-', ' ', ':', ':', '.');
  }

  /** The text form pads and never cuts: at least 26 characters, exactly 26 when the fields fit. */
  lemma ToStringLength(t: Timestamp)
    ensures |ToString(t)| >= 26
    ensures FitsWidths(t) ==> |ToString(t)| == 26
  {
    if FitsWidths(t) {
      FieldDigits(t.year, 4);
      FieldDigits(t.month, 2);
      FieldDigits(t.day, 2);
      FieldDigits(t.hour, 2);
      FieldDigits(t.minute, 2);
      FieldDigits(t.second, 2);
      FieldDigits(t.microsecond, 6);
    }
  }

  /**
   * Canonical timestamp text: 26 characters, the separators of `to_string` at
   * positions 4, 7, 10, 13, 16 and 19, and decimal digits everywhere else.
   */
  predicate IsCanonical(s: string) {
    && |s| == 26
    && s[4] == '-' && s[7] == '-' && s[10] == ' ' && s[13] == ':' && s[16] == ':' && s[19] == '.'
    && AllDigits(s[0..4]) && AllDigits(s[5..7]) && AllDigits(s[8..10]) && AllDigits(s[11..13])
    && AllDigits(s[14..16]) && AllDigits(s[17..19]) && AllDigits(s[20..26])
  }

  lemma {:induction false} DigitsValueBound(ds: string)
    requires AllDigits(ds)
    ensures DigitsValue(ds) < Pow10(|ds|)
    decreases |ds|
  {
    if ds != [] {
      DigitsValueBound(ds[..|ds| - 1]);
    }
  }

  /** Two digit strings of the same length that denote the same number are equal. */
  lemma {:induction false} DigitsInjective(a: string, b: string)
    requires |a| == |b| && AllDigits(a) && AllDigits(b)
    requires DigitsValue(a) == DigitsValue(b)
    ensures a == b
    decreases |a|
  {
    if a != [] {
      var n := |a| - 1;
      var va, vb := DigitsValue(a[..n]), DigitsValue(b[..n]);
      var x, y := DigitValue(a[n]), DigitValue(b[n]);
      assert va * 10 + x == vb * 10 + y;
      assert va == vb && x == y;
      DigitsInjective(a[..n], b[..n]);
      assert a == a[..n] + [a[n]] && b == b[..n] + [b[n]];
    }
  }

  /** Cutting a 26-character text at the separator positions and joining it back. */
  lemma SplitAtSeparators(s: string)
    requires |s| == 26
    ensures s == Joined(s[0..4], s[5..7], s[8..10], s[11..13], s[14..16], s[17..19], s[20..26],
                        s[4], s[7], s[10], s[13], s[16], s[19])
  {
    assert s[19..] == [s[19]] + s[20..26];
    assert s[17..] == s[17..19] + s[19..];
    assert s[16..] == [s[16]] + s[17..];
    assert s[14..] == s[14..16] + s[16..];
    assert s[13..] == [s[13]] + s[14..];
    assert s[11..] == s[11..13] + s[13..];
    assert s[10..] == [s[10]] + s[11..];
    assert s[8..] == s[8..10] + s[10..];
    assert s[7..] == [s[7]] + s[8..];
    assert s[5..] == s[5..7] + s[7..];
    assert s[4..] == [s[4]] + s[5..];
    assert s == s[0..4] + s[4..];
  }

  lemma PieceAt(s: string, k: nat, f: string, c: char, r: string)
    requires k <= |s| && s[k..] == f + ([c] + r)
    ensures k + |f| + 1 + |r| == |s|
    ensures s[k..k + |f|] == f && s[k + |f|] == c && s[k + |f| + 1..] == r
  {
    assert s[k..][..|f|] == f;
    assert s[k..][|f|] == c;
    assert s[k..][|f| + 1..] == r;
  }

  /** Where the pieces of a joined text of the canonical widths sit. */
  lemma JoinedPieces(f1: string, f2: string, f3: string, f4: string, f5: string, f6: string, f7: string,
                     c1: char, c2: char, c3: char, c4: char, c5: char, c6: char)
    requires |f1| == 4 && |f2| == 2 && |f3| == 2 && |f4| == 2 && |f5| == 2 && |f6| == 2 && |f7| == 6
    ensures var s := Joined(f1, f2, f3, f4, f5, f6, f7, c1, c2, c3, c4, c5, c6);
            && |s| == 26
            && s[0..4] == f1 && s[4] == c1 && s[5..7] == f2 && s[7] == c2 && s[8..10] == f3
            && s[10] == c3 && s[11..13] == f4 && s[13] == c4 && s[14..16] == f5 && s[16] == c5
            && s[17..19] == f6 && s[19] == c6 && s[20..26] == f7
  {
    var r6 := f7;
    var r5 := f6 + ([c6] + r6);
    var r4 := f5 + ([c5] + r5);
    var r3 := f4 + ([c4] + r4);
    var r2 := f3 + ([c3] + r3);
    var r1 := f2 + ([c2] + r2);
    var s := f1 + ([c1] + r1);
    assert s[0..] == s;
    PieceAt(s, 0, f1, c1, r1);
    PieceAt(s, 5, f2, c2, r2);
    PieceAt(s, 8, f3, c3, r3);
    PieceAt(s, 11, f4, c4, r4);
    PieceAt(s, 14, f5, c5, r5);
    PieceAt(s, 17, f6, c6, r6);
  }

  /** `to_string` of a timestamp whose fields fit is canonical text. */
  lemma ToStringCanonical(t: Timestamp)
    requires FitsWidths(t)
    ensures IsCanonical(ToString(t))
  {
    FieldDigits(t.year, 4);
    FieldDigits(t.month, 2);
    FieldDigits(t.day, 2);
    FieldDigits(t.hour, 2);
    FieldDigits(t.minute, 2);
    FieldDigits(t.second, 2);
    FieldDigits(t.microsecond, 6);
    JoinedPieces(Field(t.year, 4), Field(t.month, 2), Field(t.day, 2), Field(t.hour, 2),
                 Field(t.minute, 2), Field(t.second, 2), Field(t.microsecond, 6),
                 '-', '-', ' ', ':', ':', '.');
  }

  lemma NumeralBound(f: string, w: nat, hi: int)
    requires |f| == w && f != [] && AllDigits(f) && Pow10(w) <= hi + 1
    ensures IsNumeral(f, hi) && DigitsValue(f) < Pow10(w)
  {
    DigitsValueBound(f);
  }

  /** `parse_time` reads each digit group of a canonical text as its decimal value. */
  lemma ParseCanonical(s: string)
    requires IsCanonical(s)
    ensures ParseTime(s) == Some(Timestamp(
              DigitsValue(s[0..4]), DigitsValue(s[5..7]), DigitsValue(s[8..10]),
              DigitsValue(s[11..13]), DigitsValue(s[14..16]), DigitsValue(s[17..19]),
              DigitsValue(s[20..26])))
    ensures FitsWidths(ParseTime(s).value)
  {
    assert Pow10(4) == 10000 && Pow10(2) == 100 && Pow10(6) == 1000000;
    NumeralBound(s[0..4], 4, IntMax);
    NumeralBound(s[5..7], 2, IntMax);
    NumeralBound(s[8..10], 2, IntMax);
    NumeralBound(s[11..13], 2, IntMax);
    NumeralBound(s[14..16], 2, IntMax);
    NumeralBound(s[17..19], 2, IntMax);
    NumeralBound(s[20..26], 6, LongMax);
    SplitAtSeparators(s);
    ParsePieces(s[0..4], s[5..7], s[8..10], s[11..13], s[14..16], s[17..19], s[20..26],
                s[4], s[7], s[10], s[13], s[16], s[19]);
    CanonicalAscii(s);
  }

  /** Canonical text is ASCII, so its bytes are its characters. */
  lemma CanonicalAscii(s: string)
    requires IsCanonical(s)
    ensures Utf8(s) == s
  {
    SplitAtSeparators(s);
    var seps := [s[4], s[7], s[10], s[13], s[16], s[19]];
    assert seps == "-- ::.";
    JoinedAscii(s[0..4], s[5..7], s[8..10], s[11..13], s[14..16], s[17..19], s[20..26],
                s[4], s[7], s[10], s[13], s[16], s[19]);
    Utf8Ascii(s);
  }

  /** Two canonical texts that read as the same timestamp are the same text. */
  lemma CanonicalInjective(a: string, b: string)
    requires IsCanonical(a) && IsCanonical(b) && ParseTime(a) == ParseTime(b)
    ensures a == b
  {
    ParseCanonical(a);
    ParseCanonical(b);
    SameDigitGroup(a, b, 0, 4);
    SameDigitGroup(a, b, 5, 7);
    SameDigitGroup(a, b, 8, 10);
    SameDigitGroup(a, b, 11, 13);
    SameDigitGroup(a, b, 14, 16);
    SameDigitGroup(a, b, 17, 19);
    SameDigitGroup(a, b, 20, 26);
    SplitAtSeparators(a);
    SplitAtSeparators(b);
  }

  lemma SameDigitGroup(a: string, b: string, i: nat, j: nat)
    requires i <= j <= |a| == |b|
    requires AllDigits(a[i..j]) && AllDigits(b[i..j]) && DigitsValue(a[i..j]) == DigitsValue(b[i..j])
    ensures a[i..j] == b[i..j]
  {
    DigitsInjective(a[i..j], b[i..j]);
  }

  /** Every canonical text is the `to_string` of the timestamp `parse_time` reads from it. */
  lemma CanonicalRoundTrip(s: string)
    requires IsCanonical(s)
    ensures ParseTime(s).Some?
    ensures FitsWidths(ParseTime(s).value) && ToString(ParseTime(s).value) == s
  {
    ParseCanonical(s);
    var t := ParseTime(s).value;
    ToStringCanonical(t);
    RoundTrip(t);
    CanonicalInjective(ToString(t), s);
  }

  // ---------------------------------------------------------------------------
  // What the extractions read, and when they fail
  // ---------------------------------------------------------------------------

  predicate AllSpace(ws: string) {
    forall i :: 0 <= i < |ws| ==> IsSpace(ws[i])
  }

  lemma {:induction false} SkipSpaceAll(ws: string, x: string)
    requires AllSpace(ws) && (x == [] || !IsSpace(x[0]))
    ensures SkipSpace(ws + x) == x
    decreases |ws|
  {
    if ws == [] {
      assert ws + x == x;
    } else {
      assert (ws + x)[0] == ws[0] && (ws + x)[1..] == ws[1..] + x;
      assert AllSpace(ws[1..]) by {
        forall i | 0 <= i < |ws| - 1 ensures IsSpace(ws[1..][i]) {
          assert ws[1..][i] == ws[i + 1];
        }
      }
      SkipSpaceAll(ws[1..], x);
    }
  }

  /** Formatted extraction skips the whitespace in front and then reads what follows. */
  lemma ReadIntSkip(ws: string, t: string, lo: int, hi: int)
    requires AllSpace(ws) && (t == [] || !IsSpace(t[0]))
    ensures ReadInt(ws + t, lo, hi) == ReadNumber(t, lo, hi)
  {
    SkipSpaceAll(ws, t);
  }

  /**
   * `>> n` after any whitespace, an optional sign and a run of digits that ends
   * where a non-digit (or the end) follows: the signed value of the digits when it
   * fits the type, and failure when it does not.
   */
  lemma ReadIntValue(ws: string, sign: string, ds: string, rest: string, lo: int, hi: int)
    requires AllSpace(ws) && (sign == "" || sign == "-" || sign == "+")
    requires ds != [] && AllDigits(ds) && (rest == [] || !IsDigit(rest[0]))
    ensures var n := if sign == "-" then -(DigitsValue(ds) as int) else DigitsValue(ds) as int;
            ReadInt(ws + (sign + (ds + rest)), lo, hi) == if lo <= n <= hi then Some(Read(n, rest)) else None
  {
    var t := sign + (ds + rest);
    if sign == "" {
      assert t == ds + rest && t[0] == ds[0];
      ReadIntSkip(ws, t, lo, hi);
      ReadNumberUnsigned(ds, rest, lo, hi);
    } else {
      assert t == [sign[0]] + (ds + rest) && t[0] == sign[0];
      ReadIntSkip(ws, t, lo, hi);
      ReadNumberSigned(sign[0], ds, rest, lo, hi);
    }
  }

  lemma ReadNumberUnsigned(ds: string, rest: string, lo: int, hi: int)
    requires ds != [] && AllDigits(ds) && (rest == [] || !IsDigit(rest[0]))
    ensures ReadNumber(ds + rest, lo, hi)
         == if lo <= DigitsValue(ds) <= hi then Some(Read(DigitsValue(ds) as int, rest)) else None
  {
    var u := ds + rest;
    assert u[0] == ds[0];
    DigitRunAll(ds, rest);
    assert u[..|ds|] == ds && u[|ds|..] == rest;
  }

  lemma ReadNumberSigned(sign: char, ds: string, rest: string, lo: int, hi: int)
    requires (sign == '-' || sign == '+') && ds != [] && AllDigits(ds) && (rest == [] || !IsDigit(rest[0]))
    ensures var n := if sign == '-' then -(DigitsValue(ds) as int) else DigitsValue(ds) as int;
            ReadNumber([sign] + (ds + rest), lo, hi) == if lo <= n <= hi then Some(Read(n, rest)) else None
  {
    var u := ds + rest;
    var t := [sign] + u;
    assert t[0] == sign && t[1..] == u;
    DigitRunAll(ds, rest);
    assert u[..|ds|] == ds && u[|ds|..] == rest;
  }

  /**
   * `>> n` fails when no digit comes next: after the whitespace there is a sign not
   * followed by a digit (whitespace is not allowed there), or neither sign nor digit.
   */
  lemma ReadIntNoDigit(ws: string, sign: string, rest: string, lo: int, hi: int)
    requires AllSpace(ws) && (sign == "" || sign == "-" || sign == "+")
    requires rest == [] || !IsDigit(rest[0])
    requires sign == "" ==> rest == [] || (!IsSpace(rest[0]) && rest[0] != '-' && rest[0] != '+')
    ensures ReadInt(ws + (sign + rest), lo, hi) == None
  {
    var t := sign + rest;
    if sign == "" {
      assert t == rest;
      ReadIntSkip(ws, t, lo, hi);
      assert DigitRun(rest) == 0;
    } else {
      assert t[0] == sign[0] && t[1..] == rest;
      ReadIntSkip(ws, t, lo, hi);
      assert DigitRun(t[1..]) == 0;
    }
  }

  /** `>> c` skips whitespace and takes the byte after it; at the end of the stream it fails. */
  lemma ReadCharValue(ws: string, rest: string)
    requires AllSpace(ws) && (rest == [] || !IsSpace(rest[0]))
    ensures ReadChar(ws + rest) == if rest == [] then None else Some(Read(rest[0], rest[1..]))
  {
    SkipSpaceAll(ws, rest);
  }

  /**
   * A character outside ASCII right after the year is several bytes: `>> delimiter`
   * takes its lead byte, and `>> month` then meets a continuation byte, which is
   * neither whitespace, sign nor digit, so `parse_time` fails.
   */
  lemma NonAsciiDelimiterFails(year: string, c: char, rest: string)
    requires IsNumeral(year, IntMax) && c as int >= 0x80
    ensures ParseTime(year + ([c] + rest)) == None
  {
    var e := EncodeChar(c);
    Utf8Append(year, [c] + rest);
    assert ([c] + rest)[0] == c && ([c] + rest)[1..] == rest;
    assert Utf8([c] + rest) == e + Utf8(rest);
    DigitsAscii(year);
    Utf8Ascii(year);
    assert Utf8(year + ([c] + rest)) == year + (e + Utf8(rest));
    SplitByteFails(year, e, Utf8(rest));
  }

  /** The date extractions fail on a year followed by a lead byte and a continuation byte. */
  lemma SplitByteFails(year: string, e: string, x: string)
    requires IsNumeral(year, IntMax) && |e| >= 2
    requires 0xC0 <= e[0] as int && 0x80 <= e[1] as int < 0xC0
    ensures ReadDate(year + (e + x)) == None
  {
    var after := e[1..] + x;
    assert (e + x)[0] == e[0] && [e[0]] + after == e + x;
    ReadIntDigits(year, e + x, IntMin, IntMax);
    ReadCharAt(e[0], after);
    assert after[0] == e[1];
    ContinuationFails(after, IntMin, IntMax);
    MonthFails(year + (e + x));
  }

  /** The date extractions fail when `>> month` does. */
  lemma MonthFails(s: string)
    requires ReadInt(s, IntMin, IntMax).Some?
    requires ReadChar(ReadInt(s, IntMin, IntMax).value.rest).Some?
    requires ReadInt(ReadChar(ReadInt(s, IntMin, IntMax).value.rest).value.rest, IntMin, IntMax).None?
    ensures ReadDate(s) == None
  {
  }

  /** An integer extraction that meets a continuation byte fails. */
  lemma ContinuationFails(s: string, lo: int, hi: int)
    requires s != [] && 0x80 <= s[0] as int < 0xC0
    ensures ReadInt(s, lo, hi) == None
  {
    assert SkipSpace(s) == s;
  }

  // ---------------------------------------------------------------------------
  // Every token is required: a successful parse reads seven digit groups
  // ---------------------------------------------------------------------------

  /** The number of maximal runs of decimal digits. */
  function DigitGroups(s: string): nat
    decreases |s|
  {
    if s == [] then 0
    else if IsDigit(s[0]) then 1 + DigitGroups(s[DigitRun(s)..])
    else DigitGroups(s[1..])
  }

  /** Dropping the first byte loses at most the group it belongs to. */
  lemma DropOneGroups(s: string)
    requires s != []
    ensures DigitGroups(s[1..]) <= DigitGroups(s)
    ensures !IsDigit(s[0]) ==> DigitGroups(s[1..]) == DigitGroups(s)
  {
    if IsDigit(s[0]) && DigitRun(s) > 1 {
      assert s[1..][DigitRun(s[1..])..] == s[DigitRun(s)..];
    }
  }

  lemma {:induction false} SkipSpaceGroups(s: string)
    ensures DigitGroups(SkipSpace(s)) == DigitGroups(s)
    decreases |s|
  {
    if s != [] && IsSpace(s[0]) {
      DropOneGroups(s);
      SkipSpaceGroups(s[1..]);
    }
  }

  /** `>> n` consumes exactly one digit group. */
  lemma ReadIntGroups(s: string, lo: int, hi: int)
    requires ReadInt(s, lo, hi).Some?
    ensures DigitGroups(ReadInt(s, lo, hi).value.rest) + 1 == DigitGroups(s)
  {
    SkipSpaceGroups(s);
    var t := SkipSpace(s);
    if t != [] && (t[0] == '-' || t[0] == '+') {
      DropOneGroups(t);
    }
  }

  lemma ReadCharGroups(s: string)
    requires ReadChar(s).Some?
    ensures DigitGroups(ReadChar(s).value.rest) <= DigitGroups(s)
  {
    SkipSpaceGroups(s);
    DropOneGroups(SkipSpace(s));
  }

  lemma ReadDateGroups(s: string)
    requires ReadDate(s).Some?
    ensures DigitGroups(ReadDate(s).value.rest) + 3 <= DigitGroups(s)
  {
    var year := ReadInt(s, IntMin, IntMax).value;
    ReadIntGroups(s, IntMin, IntMax);
    var d1 := ReadChar(year.rest).value;
    ReadCharGroups(year.rest);
    var month := ReadInt(d1.rest, IntMin, IntMax).value;
    ReadIntGroups(d1.rest, IntMin, IntMax);
    var d2 := ReadChar(month.rest).value;
    ReadCharGroups(month.rest);
    ReadIntGroups(d2.rest, IntMin, IntMax);
  }

  lemma ReadClockGroups(s: string)
    requires ReadClock(s).Some?
    ensures DigitGroups(ReadClock(s).value.rest) + 3 <= DigitGroups(s)
  {
    DropOneGroups(s);
    var s0 := s[1..];
    var hour := ReadInt(s0, IntMin, IntMax).value;
    ReadIntGroups(s0, IntMin, IntMax);
    var d1 := ReadChar(hour.rest).value;
    ReadCharGroups(hour.rest);
    var minute := ReadInt(d1.rest, IntMin, IntMax).value;
    ReadIntGroups(d1.rest, IntMin, IntMax);
    var d2 := ReadChar(minute.rest).value;
    ReadCharGroups(minute.rest);
    ReadIntGroups(d2.rest, IntMin, IntMax);
  }

  lemma ReadMicrosecondGroups(s: string)
    requires ReadMicrosecond(s).Some?
    ensures DigitGroups(ReadMicrosecond(s).value.rest) + 1 <= DigitGroups(s)
  {
    DropOneGroups(s);
    ReadIntGroups(s[1..], LongMin, LongMax);
  }

  /** Non-digit bytes in front do not add groups. */
  lemma {:induction false} NonDigitPrefixGroups(p: string, x: string)
    requires forall i :: 0 <= i < |p| ==> !IsDigit(p[i])
    ensures DigitGroups(p + x) == DigitGroups(x)
    decreases |p|
  {
    if p == [] {
      assert p + x == x;
    } else {
      assert (p + x)[1..] == p[1..] + x;
      DropOneGroups(p + x);
      NonDigitPrefixGroups(p[1..], x);
    }
  }

  /** A run of digits followed by a non-digit (or the end) is one group. */
  lemma RunGroups(ds: string, x: string)
    requires ds != [] && AllDigits(ds) && (x == [] || !IsDigit(x[0]))
    ensures DigitGroups(ds + x) == 1 + DigitGroups(x)
  {
    DigitRunAll(ds, x);
    assert (ds + x)[0] == ds[0];
    assert (ds + x)[|ds|..] == x;
  }

  /** Encoding to bytes keeps the digit groups: digits are ASCII, every other byte is a non-digit. */
  lemma {:induction false} Utf8Groups(s: string)
    ensures DigitGroups(Utf8(s)) == DigitGroups(s)
    decreases |s|
  {
    if s != [] {
      if IsDigit(s[0]) {
        var k := DigitRun(s);
        var ds, x := s[..k], s[k..];
        assert s == ds + x;
        Utf8Append(ds, x);
        DigitsAscii(ds);
        Utf8Ascii(ds);
        if x != [] {
          assert Utf8(x)[0] == EncodeChar(x[0])[0];
        }
        RunGroups(ds, Utf8(x));
        Utf8Groups(x);
      } else {
        NonDigitPrefixGroups(EncodeChar(s[0]), Utf8(s[1..]));
        DropOneGroups(s);
        Utf8Groups(s[1..]);
      }
    }
  }

  /** A text that `parse_time` accepts holds at least seven digit groups, one per field. */
  lemma ParseNeedsSevenGroups(s: string)
    requires ParseTime(s).Some?
    ensures DigitGroups(s) >= 7
  {
    var b := Utf8(s);
    Utf8Groups(s);
    var date := ReadDate(b).value;
    ReadDateGroups(b);
    var clock := ReadClock(date.rest).value;
    ReadClockGroups(date.rest);
    ReadMicrosecondGroups(clock.rest);
  }

  /** Cutting a text never adds a group. */
  lemma {:induction false} PrefixGroups(x: string, n: nat)
    requires n <= |x|
    ensures DigitGroups(x[..n]) <= DigitGroups(x)
    decreases |x|
  {
    if n > 0 {
      if !IsDigit(x[0]) {
        assert x[..n][0] == x[0] && x[..n][1..] == x[1..][..n - 1];
        DropOneGroups(x);
        DropOneGroups(x[..n]);
        PrefixGroups(x[1..], n - 1);
      } else {
        var k := DigitRun(x);
        if n <= k {
          assert AllDigits(x[..n]) by {
            assert x[..n] == x[..k][..n];
          }
          RunGroups(x[..n], []);
          assert x[..n] + [] == x[..n];
        } else {
          assert x[..n] == x[..k] + x[k..][..n - k];
          RunGroups(x[..k], x[k..][..n - k]);
          PrefixGroups(x[k..], n - k);
        }
      }
    }
  }

  /** A text with no digit at all has no year token: `parse_time` fails. */
  lemma NoDigitsFails(s: string)
    requires forall i :: 0 <= i < |s| ==> !IsDigit(s[i])
    ensures ParseTime(s) == None
  {
    NonDigitPrefixGroups(s, []);
    assert s + [] == s;
    if ParseTime(s).Some? {
      ParseNeedsSevenGroups(s);
    }
  }

  /**
   * A canonical text cut anywhere before its microsecond digits is rejected: every
   * one of the seven tokens is required.
   */
  lemma MissingTokenFails(s: string)
    requires IsCanonical(s)
    ensures forall n :: 0 <= n <= 20 ==> ParseTime(s[..n]) == None
  {
    SixGroupsBeforeMicrosecond(s);
    forall n | 0 <= n <= 20
      ensures ParseTime(s[..n]) == None
    {
      assert s[..n] == s[..20][..n];
      PrefixGroups(s[..20], n);
      if ParseTime(s[..n]).Some? {
        ParseNeedsSevenGroups(s[..n]);
      }
    }
  }

  /** The first 20 characters of a canonical text hold six digit groups. */
  lemma SixGroupsBeforeMicrosecond(s: string)
    requires IsCanonical(s)
    ensures DigitGroups(s[..20]) == 6
  {
    SplitPrefix(s);
    var f6 := s[17..19];
    RunGroups(f6, [s[19]]);
    NonDigitPrefixGroups([s[19]], []);
    assert [s[19]] + [] == [s[19]];
    var r := f6 + [s[19]];
    RunGroups(s[14..16], [s[16]] + r);
    NonDigitPrefixGroups([s[16]], r);
    r := s[14..16] + ([s[16]] + r);
    RunGroups(s[11..13], [s[13]] + r);
    NonDigitPrefixGroups([s[13]], r);
    r := s[11..13] + ([s[13]] + r);
    RunGroups(s[8..10], [s[10]] + r);
    NonDigitPrefixGroups([s[10]], r);
    r := s[8..10] + ([s[10]] + r);
    RunGroups(s[5..7], [s[7]] + r);
    NonDigitPrefixGroups([s[7]], r);
    r := s[5..7] + ([s[7]] + r);
    RunGroups(s[0..4], [s[4]] + r);
    NonDigitPrefixGroups([s[4]], r);
  }

  lemma SplitPrefix(s: string)
    requires |s| == 26
    ensures s[..20] == s[0..4] + ([s[4]] + (s[5..7] + ([s[7]] + (s[8..10] + ([s[10]] + (s[11..13] +
                      ([s[13]] + (s[14..16] + ([s[16]] + (s[17..19] + [s[19]]))))))))))
  {
    var n := 20;
    assert s[19..n] == [s[19]];
    assert s[17..n] == s[17..19] + s[19..n];
    assert s[16..n] == [s[16]] + s[17..n];
    assert s[14..n] == s[14..16] + s[16..n];
    assert s[13..n] == [s[13]] + s[14..n];
    assert s[11..n] == s[11..13] + s[13..n];
    assert s[10..n] == [s[10]] + s[11..n];
    assert s[8..n] == s[8..10] + s[10..n];
    assert s[7..n] == [s[7]] + s[8..n];
    assert s[5..n] == s[5..7] + s[7..n];
    assert s[4..n] == [s[4]] + s[5..n];
    assert s[..n] == s[0..4] + s[4..n];
  }
}
