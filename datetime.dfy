/**
 * `normalize_datetime` of the message parser: finds "day month-word year ... H:M:S" in a free-form
 * header timestamp and renders it as ISO 8601, or gives the string back unchanged.
 *
 * The search is Python's `re.search` of
 *   (\d{1,2})\s+([а-яА-Я]+)\s+(\d{4}).*?(\d{1,2}:\d{1,2}:\d{1,2})
 * written out as a scanner. Every piece but `.*?` is forced: a greedy run can only be followed by a
 * piece that rejects the run's own characters, so backtracking into it never helps. `.*?` is the one
 * search, and `.` does not cross a newline.
 */
module Datetime {
  import opened Base
  import opened Text

  /** The character classes the pattern uses. */
  datatype Class = Digit | Space | Letter | AnyButNewline

  /** `\d` for ASCII digits, `\s`, `[а-яА-Я]` (U+0410 to U+044F, so not 'ё' or 'Ё'), and `.`. */
  predicate Is(c: char, k: Class) {
    match k
    case Digit => IsDigit(c)
    case Space => IsSpace(c)
    case Letter => 'А' <= c <= 'я'
    case AnyButNewline => c != '\n'
  }

  predicate IsDigit(c: char) { '0' <= c <= '9' }

  predicate AllDigits(ds: string) {
    forall k :: 0 <= k < |ds| ==> IsDigit(ds[k])
  }

  /** Every character of `s` in `[from, to)` is of class `k`. */
  predicate AllIn(s: string, from: int, to: int, k: Class) {
    0 <= from <= to <= |s| && forall m {:trigger Is(s[m], k)} :: from <= m < to ==> Is(s[m], k)
  }

  /** Length of the run of class-`k` characters of `s` starting at `i`, taking at most `limit`. */
  function Run(s: string, i: nat, k: Class, limit: nat): (n: nat)
    requires i <= |s|
    ensures n <= limit && i + n <= |s|
    decreases limit
  {
    if limit > 0 && i < |s| && Is(s[i], k) then 1 + Run(s, i + 1, k, limit - 1) else 0
  }

  /** The run is all of class `k` and stops at the limit, at the end of `s` or before a character of another class. */
  lemma {:induction false} RunSound(s: string, i: nat, k: Class, limit: nat)
    requires i <= |s|
    ensures AllIn(s, i, i + Run(s, i, k, limit), k)
    ensures var n := Run(s, i, k, limit); n == limit || i + n == |s| || !Is(s[i + n], k)
    decreases limit
  {
    if limit > 0 && i < |s| && Is(s[i], k) {
      RunSound(s, i + 1, k, limit - 1);
    }
  }

  /** A run that is all class `k` and stops at the limit, the end or a character of another class is what Run finds. */
  lemma {:induction false} RunExact(s: string, i: nat, k: Class, limit: nat, n: nat)
    requires n <= limit && AllIn(s, i, i + n, k)
    requires n == limit || i + n == |s| || !Is(s[i + n], k)
    ensures Run(s, i, k, limit) == n
    decreases limit
  {
    if n > 0 {
      RunExact(s, i + 1, k, limit - 1, n - 1);
    }
  }

  /** Where the time `\d{1,2}:\d{1,2}:\d{1,2}` starting at some position ends its hour, minute and second. */
  datatype ClockEnds = ClockEnds(hourEnd: nat, minuteEnd: nat, secondEnd: nat)

  /** `\d{1,2}:\d{1,2}:\d{1,2}` spelled out at `p` with the given ends. */
  predicate ClockAt(s: string, p: nat, c: ClockEnds) {
    p < c.hourEnd <= p + 2 && c.hourEnd + 1 < c.minuteEnd <= c.hourEnd + 3 &&
    c.minuteEnd + 1 < c.secondEnd <= c.minuteEnd + 3 && c.secondEnd <= |s| &&
    AllIn(s, p, c.hourEnd, Digit) && s[c.hourEnd] == ':' &&
    AllIn(s, c.hourEnd + 1, c.minuteEnd, Digit) && s[c.minuteEnd] == ':' &&
    AllIn(s, c.minuteEnd + 1, c.secondEnd, Digit)
  }

  /** The time at `p`, each field as many digits as it can take (at most two). */
  function MatchClock(s: string, p: nat): (r: Option<ClockEnds>)
    requires p <= |s|
    ensures r.Some? ==> p < r.value.hourEnd < r.value.minuteEnd < r.value.secondEnd <= |s|
  {
    var h := Run(s, p, Digit, 2);
    if h == 0 || p + h >= |s| || s[p + h] != ':' then None
    else
      var m := Run(s, p + h + 1, Digit, 2);
      if m == 0 || p + h + 1 + m >= |s| || s[p + h + 1 + m] != ':' then None
      else
        var sc := Run(s, p + h + 1 + m + 1, Digit, 2);
        if sc == 0 then None
        else Some(ClockEnds(p + h, p + h + 1 + m, p + h + 1 + m + 1 + sc))
  }

  /** What MatchClock reads is a time, and each field is as long as it can be. */
  lemma MatchClockSound(s: string, p: nat)
    requires p <= |s| && MatchClock(s, p).Some?
    ensures ClockAt(s, p, MatchClock(s, p).value)
    ensures var c := MatchClock(s, p).value; c.secondEnd == c.minuteEnd + 3 || c.secondEnd == |s| || !IsDigit(s[c.secondEnd])
  {
    var h := Run(s, p, Digit, 2);
    RunSound(s, p, Digit, 2);
    var m := Run(s, p + h + 1, Digit, 2);
    RunSound(s, p + h + 1, Digit, 2);
    RunSound(s, p + h + 1 + m + 1, Digit, 2);
  }

  /** Whenever the time can be read at `p`, MatchClock reads it. */
  lemma MatchClockComplete(s: string, p: nat, c: ClockEnds)
    requires ClockAt(s, p, c)
    ensures MatchClock(s, p).Some?
  {
    RunExact(s, p, Digit, 2, c.hourEnd - p);
    RunExact(s, c.hourEnd + 1, Digit, 2, c.minuteEnd - c.hourEnd - 1);
  }

  /** A time that starts at `start`. */
  datatype Clock = Clock(start: nat, ends: ClockEnds)

  /** MatchClock's verdict at every position 0 to |s|. */
  function Clocks(s: string): (hits: seq<Option<ClockEnds>>)
    ensures |hits| == |s| + 1
    ensures forall p :: 0 <= p <= |s| ==> hits[p] == MatchClock(s, p)
  {
    seq(|s| + 1, p requires 0 <= p <= |s| => MatchClock(s, p))
  }

  /** `.*?` followed by the time: the first position from `p` on where a time can be read, not crossing a newline. */
  function FindClock(s: string, p: nat): (r: Option<Clock>)
    requires p <= |s|
    ensures r.Some? ==> p <= r.value.start <= |s| && MatchClock(s, r.value.start) == Some(r.value.ends)
  {
    FirstClock(s, Clocks(s), p)
  }

  /** No newline lies between `p` and the time the lazy search finds. */
  lemma FindClockSound(s: string, p: nat)
    requires p <= |s| && FindClock(s, p).Some?
    ensures AllIn(s, p, FindClock(s, p).value.start, AnyButNewline)
  {
    FirstClockSound(s, Clocks(s), p);
  }

  /** The lazy search over the verdicts `hits`. */
  function FirstClock(s: string, hits: seq<Option<ClockEnds>>, p: nat): (r: Option<Clock>)
    requires p <= |s| && |hits| == |s| + 1
    ensures r.Some? ==> p <= r.value.start <= |s| && hits[r.value.start] == Some(r.value.ends)
    decreases |s| - p
  {
    if hits[p].Some? then Some(Clock(p, hits[p].value))
    else if p < |s| && s[p] != '\n' then FirstClock(s, hits, p + 1)
    else None
  }

  lemma {:induction false} FirstClockSound(s: string, hits: seq<Option<ClockEnds>>, p: nat)
    requires p <= |s| && |hits| == |s| + 1 && FirstClock(s, hits, p).Some?
    ensures AllIn(s, p, FirstClock(s, hits, p).value.start, AnyButNewline)
    decreases |s| - p
  {
    if hits[p].None? {
      FirstClockSound(s, hits, p + 1);
      assert Is(s[p], AnyButNewline);
    }
  }

  /** If a time can be read at `t` and no newline lies between `p` and `t`, the lazy search finds one no later than `t`. */
  lemma FindClockComplete(s: string, p: nat, t: nat)
    requires p <= t <= |s| && AllIn(s, p, t, AnyButNewline) && MatchClock(s, t).Some?
    ensures FindClock(s, p).Some? && FindClock(s, p).value.start <= t
  {
    FirstClockComplete(s, Clocks(s), p, t);
  }

  lemma {:induction false} FirstClockComplete(s: string, hits: seq<Option<ClockEnds>>, p: nat, t: nat)
    requires p <= t <= |s| && |hits| == |s| + 1 && AllIn(s, p, t, AnyButNewline) && hits[t].Some?
    ensures FirstClock(s, hits, p).Some? && FirstClock(s, hits, p).value.start <= t
    decreases t - p
  {
    if p < t && hits[p].None? {
      assert Is(s[p], AnyButNewline);
      FirstClockComplete(s, hits, p + 1, t);
    }
  }

  /**
   * The positions of one match starting at `i`: the day is `[i, dayEnd)`, the month word
   * `[monthStart, monthEnd)`, the year `[yearStart, yearStart + 4)`, and the time starts at `clockStart`.
   */
  datatype Spans = Spans(dayEnd: nat, monthStart: nat, monthEnd: nat, yearStart: nat, clockStart: nat, clock: ClockEnds)

  /** `(\d{1,2})\s+([а-яА-Я]+)\s+(\d{4})` matches at `i` with these positions. */
  predicate DateAt(s: string, i: nat, m: Spans) {
    i < m.dayEnd <= i + 2 && m.dayEnd < m.monthStart < m.monthEnd < m.yearStart &&
    m.yearStart + 4 <= |s| &&
    AllIn(s, i, m.dayEnd, Digit) &&
    AllIn(s, m.dayEnd, m.monthStart, Space) &&
    AllIn(s, m.monthStart, m.monthEnd, Letter) &&
    AllIn(s, m.monthEnd, m.yearStart, Space) &&
    AllIn(s, m.yearStart, m.yearStart + 4, Digit)
  }

  /** The whole pattern matches at `i` with these positions: the regular expression as a relation. */
  predicate PatternAt(s: string, i: nat, m: Spans) {
    DateAt(s, i, m) && m.yearStart + 4 <= m.clockStart &&
    AllIn(s, m.yearStart + 4, m.clockStart, AnyButNewline) &&
    ClockAt(s, m.clockStart, m.clock)
  }

  /** Where the day, the month word and the year end up, if `(\d{1,2})\s+([а-яА-Я]+)\s+(\d{4})` matches at `i`. */
  function ScanDate(s: string, i: nat): (r: Option<Spans>)
    requires i <= |s|
    ensures r.Some? ==> i < r.value.dayEnd && r.value.yearStart + 4 <= |s|
  {
    var d := Run(s, i, Digit, 2);
    if d == 0 then None else ScanMonth(s, i + d)
  }

  /** `\s+([а-яА-Я]+)\s+(\d{4})` after the day, which ends at `dayEnd`. */
  function ScanMonth(s: string, dayEnd: nat): (r: Option<Spans>)
    requires dayEnd <= |s|
    ensures r.Some? ==> r.value.dayEnd == dayEnd && r.value.yearStart + 4 <= |s|
  {
    var w := Run(s, dayEnd, Space, |s| - dayEnd);
    var l := Run(s, dayEnd + w, Letter, |s| - (dayEnd + w));
    if w == 0 || l == 0 then None else ScanYear(s, dayEnd, dayEnd + w, dayEnd + w + l)
  }

  /** `\s+(\d{4})` after the month word, which ends at `monthEnd`. */
  function ScanYear(s: string, dayEnd: nat, monthStart: nat, monthEnd: nat): (r: Option<Spans>)
    requires monthEnd <= |s|
    ensures r.Some? ==> r.value == Spans(dayEnd, monthStart, monthEnd, r.value.yearStart, 0, ClockEnds(0, 0, 0))
    ensures r.Some? ==> monthEnd < r.value.yearStart && r.value.yearStart + 4 <= |s|
  {
    var w := Run(s, monthEnd, Space, |s| - monthEnd);
    if w == 0 || Run(s, monthEnd + w, Digit, 4) != 4 then None
    else Some(Spans(dayEnd, monthStart, monthEnd, monthEnd + w, 0, ClockEnds(0, 0, 0)))
  }

  lemma ScanYearSound(s: string, dayEnd: nat, monthStart: nat, monthEnd: nat)
    requires monthEnd <= |s| && ScanYear(s, dayEnd, monthStart, monthEnd).Some?
    ensures var y := ScanYear(s, dayEnd, monthStart, monthEnd).value.yearStart;
      AllIn(s, monthEnd, y, Space) && AllIn(s, y, y + 4, Digit)
  {
    var w := Run(s, monthEnd, Space, |s| - monthEnd);
    RunSound(s, monthEnd, Space, |s| - monthEnd);
    RunSound(s, monthEnd + w, Digit, 4);
  }

  lemma ScanMonthSound(s: string, dayEnd: nat)
    requires dayEnd <= |s| && ScanMonth(s, dayEnd).Some?
    ensures var m := ScanMonth(s, dayEnd).value;
      dayEnd < m.monthStart < m.monthEnd < m.yearStart &&
      AllIn(s, dayEnd, m.monthStart, Space) && AllIn(s, m.monthStart, m.monthEnd, Letter) &&
      AllIn(s, m.monthEnd, m.yearStart, Space) && AllIn(s, m.yearStart, m.yearStart + 4, Digit)
  {
    var w := Run(s, dayEnd, Space, |s| - dayEnd);
    RunSound(s, dayEnd, Space, |s| - dayEnd);
    var l := Run(s, dayEnd + w, Letter, |s| - (dayEnd + w));
    RunSound(s, dayEnd + w, Letter, |s| - (dayEnd + w));
    ScanYearSound(s, dayEnd, dayEnd + w, dayEnd + w + l);
  }

  /** What ScanDate finds is a match of the date part of the pattern. */
  lemma ScanDateSound(s: string, i: nat)
    requires i <= |s| && ScanDate(s, i).Some?
    ensures DateAt(s, i, ScanDate(s, i).value)
  {
    var d := Run(s, i, Digit, 2);
    RunSound(s, i, Digit, 2);
    ScanMonthSound(s, i + d);
  }

  lemma ScanYearComplete(s: string, dayEnd: nat, monthStart: nat, monthEnd: nat, yearStart: nat)
    requires monthEnd < yearStart && yearStart + 4 <= |s|
    requires AllIn(s, monthEnd, yearStart, Space) && AllIn(s, yearStart, yearStart + 4, Digit)
    ensures ScanYear(s, dayEnd, monthStart, monthEnd) == Some(Spans(dayEnd, monthStart, monthEnd, yearStart, 0, ClockEnds(0, 0, 0)))
  {
    assert Is(s[yearStart], Digit);
    RunExact(s, monthEnd, Space, |s| - monthEnd, yearStart - monthEnd);
    RunExact(s, yearStart, Digit, 4, 4);
  }

  lemma ScanMonthComplete(s: string, dayEnd: nat, monthStart: nat, monthEnd: nat, yearStart: nat)
    requires dayEnd < monthStart < monthEnd < yearStart && yearStart + 4 <= |s|
    requires AllIn(s, dayEnd, monthStart, Space) && AllIn(s, monthStart, monthEnd, Letter)
    requires AllIn(s, monthEnd, yearStart, Space) && AllIn(s, yearStart, yearStart + 4, Digit)
    ensures ScanMonth(s, dayEnd) == Some(Spans(dayEnd, monthStart, monthEnd, yearStart, 0, ClockEnds(0, 0, 0)))
  {
    assert Is(s[monthStart], Letter);
    RunExact(s, dayEnd, Space, |s| - dayEnd, monthStart - dayEnd);
    assert Is(s[monthEnd], Space);
    RunExact(s, monthStart, Letter, |s| - monthStart, monthEnd - monthStart);
    ScanYearComplete(s, dayEnd, monthStart, monthEnd, yearStart);
  }

  /** The date part of any match is where ScanDate puts it. */
  lemma ScanDateComplete(s: string, i: nat, m: Spans)
    requires DateAt(s, i, m)
    ensures ScanDate(s, i) == Some(Spans(m.dayEnd, m.monthStart, m.monthEnd, m.yearStart, 0, ClockEnds(0, 0, 0)))
  {
    assert Is(s[m.dayEnd], Space);
    RunExact(s, i, Digit, 2, m.dayEnd - i);
    ScanMonthComplete(s, m.dayEnd, m.monthStart, m.monthEnd, m.yearStart);
  }

  /** The whole pattern anchored at `i`: the date part, then the first time after it. */
  function ScanAt(s: string, i: nat): (r: Option<Spans>)
    requires i <= |s|
  {
    match ScanDate(s, i)
    case None => None
    case Some(m) =>
      match FindClock(s, m.yearStart + 4)
      case None => None
      case Some(c) => Some(Spans(m.dayEnd, m.monthStart, m.monthEnd, m.yearStart, c.start, c.ends))
  }

  /** What the scanner finds at `i` is a match of the pattern at `i`. */
  lemma ScanAtSound(s: string, i: nat)
    requires i <= |s| && ScanAt(s, i).Some?
    ensures PatternAt(s, i, ScanAt(s, i).value)
  {
    ScanAtDateSound(s, i);
    ScanAtClockSound(s, i);
  }

  /** The date half of a scanner match is a match of the date part of the pattern. */
  lemma ScanAtDateSound(s: string, i: nat)
    requires i <= |s| && ScanAt(s, i).Some?
    ensures DateAt(s, i, ScanAt(s, i).value)
  {
    var m, c := ScanAtParts(s, i);
    ScanDateSound(s, i);
    DateAtSame(s, i, m, ScanAt(s, i).value);
  }

  /** The date part only looks at the day, month and year spans. */
  lemma DateAtSame(s: string, i: nat, m: Spans, r: Spans)
    requires DateAt(s, i, m)
    requires r.dayEnd == m.dayEnd && r.monthStart == m.monthStart && r.monthEnd == m.monthEnd && r.yearStart == m.yearStart
    ensures DateAt(s, i, r)
  {
  }

  /** The clock half of a scanner match: a time after the year, reached without crossing a newline. */
  lemma ScanAtClockSound(s: string, i: nat)
    requires i <= |s| && ScanAt(s, i).Some?
    ensures var r := ScanAt(s, i).value;
      r.yearStart + 4 <= r.clockStart && AllIn(s, r.yearStart + 4, r.clockStart, AnyButNewline) &&
      ClockAt(s, r.clockStart, r.clock)
  {
    var m, c := ScanAtParts(s, i);
    FindClockSound(s, m.yearStart + 4);
    MatchClockSound(s, c.start);
  }

  /** A scanner match is a date part and the time the lazy search finds after it. */
  lemma ScanAtParts(s: string, i: nat) returns (m: Spans, c: Clock)
    requires i <= |s| && ScanAt(s, i).Some?
    ensures ScanDate(s, i) == Some(m) && m.yearStart + 4 <= |s| && FindClock(s, m.yearStart + 4) == Some(c)
    ensures ScanAt(s, i) == Some(Spans(m.dayEnd, m.monthStart, m.monthEnd, m.yearStart, c.start, c.ends))
  {
    m := ScanDate(s, i).value;
    c := FindClock(s, m.yearStart + 4).value;
  }

  /**
   * Whenever the pattern matches at `i` in any way, the scanner finds a match at `i`: the same day,
   * month word and year (the runs are forced), and a time starting no later (`.*?` is lazy).
   */
  lemma ScanAtComplete(s: string, i: nat, m: Spans)
    requires i <= |s| && PatternAt(s, i, m)
    ensures ScanAt(s, i).Some?
    ensures ScanAt(s, i).value.dayEnd == m.dayEnd && ScanAt(s, i).value.monthStart == m.monthStart
    ensures ScanAt(s, i).value.monthEnd == m.monthEnd && ScanAt(s, i).value.yearStart == m.yearStart
    ensures ScanAt(s, i).value.clockStart <= m.clockStart
  {
    var d := Spans(m.dayEnd, m.monthStart, m.monthEnd, m.yearStart, 0, ClockEnds(0, 0, 0));
    ScanDateComplete(s, i, m);
    MatchClockComplete(s, m.clockStart, m.clock);
    FindClockComplete(s, m.yearStart + 4, m.clockStart);
    ScanAtJoin(s, i, d, FindClock(s, m.yearStart + 4).value);
  }

  /** A date part and the time the lazy search finds after it make a scanner match. */
  lemma ScanAtJoin(s: string, i: nat, d: Spans, c: Clock)
    requires i <= |s| && ScanDate(s, i) == Some(d) && d.yearStart + 4 <= |s| && FindClock(s, d.yearStart + 4) == Some(c)
    ensures ScanAt(s, i) == Some(Spans(d.dayEnd, d.monthStart, d.monthEnd, d.yearStart, c.start, c.ends))
  {
  }

  /** The scanner's verdict at every start position 0 to |s|. */
  function Starts(s: string): (hits: seq<Option<Spans>>)
    ensures |hits| == |s| + 1
    ensures forall j :: 0 <= j <= |s| ==> hits[j] == ScanAt(s, j)
  {
    seq(|s| + 1, j requires 0 <= j <= |s| => ScanAt(s, j))
  }

  /** The first index from `i` on whose entry is present. */
  function FirstSome<T>(hits: seq<Option<T>>, i: nat): (r: Option<nat>)
    requires i <= |hits|
    ensures r.Some? ==> i <= r.value < |hits| && hits[r.value].Some?
    ensures r.Some? ==> forall j :: i <= j < r.value ==> hits[j].None?
    ensures r.None? ==> forall j :: i <= j < |hits| ==> hits[j].None?
    decreases |hits| - i
  {
    if i == |hits| then None
    else if hits[i].Some? then Some(i)
    else FirstSome(hits, i + 1)
  }

  /** `re.search`: the first match, trying the start positions left to right. */
  datatype Found = Found(pos: nat, spans: Spans)

  function Search(s: string): (r: Option<Found>)
    ensures r.Some? ==> r.value.pos <= |s| && ScanAt(s, r.value.pos) == Some(r.value.spans)
    ensures r.Some? ==> forall j :: 0 <= j < r.value.pos ==> ScanAt(s, j).None?
    ensures r.None? ==> forall j :: 0 <= j <= |s| ==> ScanAt(s, j).None?
  {
    var hits := Starts(s);
    match FirstSome(hits, 0)
    case None => None
    case Some(p) => Some(Found(p, hits[p].value))
  }

  /** The search finds a match exactly when the pattern matches somewhere, and none starts before the one it finds. */
  lemma SearchLeftmost(s: string, i: nat, m: Spans)
    requires i <= |s| && PatternAt(s, i, m)
    ensures Search(s).Some? && Search(s).value.pos <= i
    ensures forall j, m' :: 0 <= j < Search(s).value.pos ==> !PatternAt(s, j, m')
  {
    ScanAtComplete(s, i, m);
    forall j, m' | 0 <= j < Search(s).value.pos ensures !PatternAt(s, j, m') {
      if PatternAt(s, j, m') {
        ScanAtComplete(s, j, m');
      }
    }
  }

  /**
   * The match the search reports, pinned down: if the pattern matches at `i`, nowhere before `i`,
   * and the time in `m` is the first one readable after the year, the search reports exactly `m` at `i`.
   */
  lemma SearchExact(s: string, i: nat, m: Spans)
    requires i <= |s| && PatternAt(s, i, m)
    requires forall j, m' :: 0 <= j < i ==> !PatternAt(s, j, m')
    requires forall k :: m.yearStart + 4 <= k < m.clockStart ==> MatchClock(s, k).None?
    requires MatchClock(s, m.clockStart) == Some(m.clock)
    ensures Search(s) == Some(Found(i, m))
  {
    ScanAtExact(s, i, m);
    forall j | 0 <= j < i ensures ScanAt(s, j).None? {
      if ScanAt(s, j).Some? {
        ScanAtSound(s, j);
      }
    }
    SearchAt(s, i);
  }

  /** The search reports the first start position where the scanner succeeds. */
  lemma SearchAt(s: string, i: nat)
    requires i <= |s| && ScanAt(s, i).Some?
    requires forall j :: 0 <= j < i ==> ScanAt(s, j).None?
    ensures Search(s) == Some(Found(i, ScanAt(s, i).value))
  {
    FirstSomeExact(Starts(s), 0, i);
  }

  lemma {:induction false} FirstSomeExact<T>(hits: seq<Option<T>>, p: nat, t: nat)
    requires p <= t < |hits| && hits[t].Some?
    requires forall j :: p <= j < t ==> hits[j].None?
    ensures FirstSome(hits, p) == Some(t)
    decreases t - p
  {
    if p < t {
      FirstSomeExact(hits, p + 1, t);
    }
  }

  /** Anchored at `i`, the scanner returns `m` when `m`'s time is the first one after the year. */
  lemma ScanAtExact(s: string, i: nat, m: Spans)
    requires i <= |s| && PatternAt(s, i, m)
    requires forall k :: m.yearStart + 4 <= k < m.clockStart ==> MatchClock(s, k).None?
    requires MatchClock(s, m.clockStart) == Some(m.clock)
    ensures ScanAt(s, i) == Some(m)
  {
    ScanDateComplete(s, i, m);
    FindClockExact(s, m.yearStart + 4, m.clockStart);
    ScanAtJoin(s, i, Spans(m.dayEnd, m.monthStart, m.monthEnd, m.yearStart, 0, ClockEnds(0, 0, 0)), Clock(m.clockStart, m.clock));
  }

  /** The lazy search stops at the first readable time. */
  lemma FindClockExact(s: string, p: nat, t: nat)
    requires p <= t <= |s| && AllIn(s, p, t, AnyButNewline) && MatchClock(s, t).Some?
    requires forall k :: p <= k < t ==> MatchClock(s, k).None?
    ensures FindClock(s, p) == Some(Clock(t, MatchClock(s, t).value))
  {
    FirstClockExact(s, Clocks(s), p, t);
  }

  lemma {:induction false} FirstClockExact(s: string, hits: seq<Option<ClockEnds>>, p: nat, t: nat)
    requires p <= t <= |s| && |hits| == |s| + 1 && AllIn(s, p, t, AnyButNewline) && hits[t].Some?
    requires forall k :: p <= k < t ==> hits[k].None?
    ensures FirstClock(s, hits, p) == Some(Clock(t, hits[t].value))
    decreases t - p
  {
    if p < t {
      assert Is(s[p], AnyButNewline);
      FirstClockExact(s, hits, p + 1, t);
    }
  }

  // ---------------------------------------------------------------------------
  // Month table and calendar

  /** `month_map`: the first three lower-case letters of the month word → month number. */
  const MonthMap: map<string, nat> := map[
    "янв" := 1, "фев" := 2, "мар" := 3, "апр" := 4,
    "май" := 5, "июн" := 6, "июл" := 7, "авг" := 8,
    "сен" := 9, "окт" := 10, "ноя" := 11, "дек" := 12]

  /** `month_str.lower()[:3]` */
  function MonthKey(word: string): (key: string)
    ensures |key| == if |word| < 3 then |word| else 3
    ensures key == Lower(word)[..|key|]
  {
    var low := Lower(word);
    if |low| <= 3 then low else low[..3]
  }

  /** `month_map.get(month_str.lower()[:3])` */
  function MonthNumber(word: string): (r: Option<nat>)
    ensures r.Some? <==> MonthKey(word) in MonthMap
    ensures r.Some? ==> 1 <= r.value <= 12 && r.value == MonthMap[MonthKey(word)]
  {
    var key := MonthKey(word);
    if key in MonthMap then Some(MonthMap[key]) else None
  }

  function Pow10(n: nat): (r: nat)
    ensures r >= 1
  {
    if n == 0 then 1 else 10 * Pow10(n - 1)
  }

  /** `int(ds)` for a string of decimal digits. */
  function DecimalValue(ds: string): (v: nat)
    requires AllDigits(ds)
    ensures v < Pow10(|ds|)
  {
    if ds == [] then 0
    else DecimalValue(ds[..|ds| - 1]) * 10 + (ds[|ds| - 1] as int - '0' as int)
  }

  datatype DateTime = DateTime(year: nat, month: nat, day: nat, hour: nat, minute: nat, second: nat)

  predicate IsLeapYear(y: nat) {
    y % 4 == 0 && (y % 100 != 0 || y % 400 == 0)
  }

  function DaysInMonth(y: nat, m: nat): (n: nat)
    requires 1 <= m <= 12
    ensures 28 <= n <= 31
    ensures n == 29 <==> m == 2 && IsLeapYear(y)
  {
    if m == 2 then (if IsLeapYear(y) then 29 else 28)
    else if m == 4 || m == 6 || m == 9 || m == 11 then 30
    else 31
  }

  /** What `datetime.datetime(year, month, day, hour, minute, second)` accepts without raising. */
  predicate ValidDateTime(dt: DateTime) {
    1 <= dt.year <= 9999 && 1 <= dt.month <= 12 && 1 <= dt.day <= DaysInMonth(dt.year, dt.month) &&
    dt.hour <= 23 && dt.minute <= 59 && dt.second <= 59
  }

  /** `n` as exactly `width` decimal digits, zero-padded on the left. */
  function Pad(n: nat, width: nat): (r: string)
    requires n < Pow10(width)
    ensures |r| == width && AllDigits(r)
  {
    if width == 0 then []
    else Pad(n / 10, width - 1) + [('0' as int + n % 10) as char]
  }

  /** Reading a padded number back gives the number. */
  lemma {:induction false} PadRoundTrip(n: nat, width: nat)
    requires n < Pow10(width)
    ensures DecimalValue(Pad(n, width)) == n
  {
    if width > 0 {
      var p := Pad(n, width);
      assert p[..|p| - 1] == Pad(n / 10, width - 1);
      PadRoundTrip(n / 10, width - 1);
    }
  }

  /** `datetime.isoformat()` for a value without microseconds: `YYYY-MM-DDTHH:MM:SS`. */
  function IsoFormat(dt: DateTime): (r: string)
    requires ValidDateTime(dt)
    ensures IsIsoTimestamp(r)
  {
    Pad(dt.year, 4) + "-" + Pad(dt.month, 2) + "-" + Pad(dt.day, 2) + "T" +
    Pad(dt.hour, 2) + ":" + Pad(dt.minute, 2) + ":" + Pad(dt.second, 2)
  }

  /** The shape of an ISO timestamp: digits with '-', 'T' and ':' at fixed places. */
  predicate IsIsoTimestamp(r: string) {
    |r| == 19 &&
    (forall k :: 0 <= k < 19 && k != 4 && k != 7 && k != 10 && k != 13 && k != 16 ==> IsDigit(r[k])) &&
    r[4] == '-' && r[7] == '-' && r[10] == 'T' && r[13] == ':' && r[16] == ':'
  }

  /** Reads the six fields back out of an ISO timestamp. */
  function ParseIso(r: string): (dt: DateTime)
    requires IsIsoTimestamp(r)
  {
    DateTime(DecimalValue(r[0..4]), DecimalValue(r[5..7]), DecimalValue(r[8..10]),
             DecimalValue(r[11..13]), DecimalValue(r[14..16]), DecimalValue(r[17..19]))
  }

  /** The ISO rendering loses nothing: parsing it back gives the same date and time. */
  lemma IsoRoundTrip(dt: DateTime)
    requires ValidDateTime(dt)
    ensures ParseIso(IsoFormat(dt)) == dt
  {
    var r := IsoFormat(dt);
    assert r[0..4] == Pad(dt.year, 4);
    assert r[5..7] == Pad(dt.month, 2);
    assert r[8..10] == Pad(dt.day, 2);
    assert r[11..13] == Pad(dt.hour, 2);
    assert r[14..16] == Pad(dt.minute, 2);
    assert r[17..19] == Pad(dt.second, 2);
    PadRoundTrip(dt.year, 4);
    PadRoundTrip(dt.month, 2);
    PadRoundTrip(dt.day, 2);
    PadRoundTrip(dt.hour, 2);
    PadRoundTrip(dt.minute, 2);
    PadRoundTrip(dt.second, 2);
  }

  // ---------------------------------------------------------------------------
  // normalize_datetime

  lemma DigitSlice(s: string, from: int, to: int)
    requires AllIn(s, from, to, Digit)
    ensures AllDigits(s[from..to])
  {
    forall k | 0 <= k < to - from ensures IsDigit(s[from..to][k]) {
      assert Is(s[from + k], Digit);
    }
  }

  /**
   * The date and time the groups of a match denote, before validation: the year has four digits
   * and every other number at most two.
   */
  function FieldsOf(s: string, i: nat, m: Spans, month: nat): (r: DateTime)
    requires PatternAt(s, i, m)
    ensures r.month == month && r.year < 10000
    ensures r.day < 100 && r.hour < 100 && r.minute < 100 && r.second < 100
  {
    var year := FieldValue(s, m.yearStart, m.yearStart + 4);
    var day := FieldValue(s, i, m.dayEnd);
    var hour := FieldValue(s, m.clockStart, m.clock.hourEnd);
    var minute := FieldValue(s, m.clock.hourEnd + 1, m.clock.minuteEnd);
    var second := FieldValue(s, m.clock.minuteEnd + 1, m.clock.secondEnd);
    DateTime(year, month, day, hour, minute, second)
  }

  /** `int()` of the digits `s[from..to]`, one to four of them. */
  function FieldValue(s: string, from: nat, to: nat): (v: nat)
    requires from < to <= from + 4 && AllIn(s, from, to, Digit)
    ensures v < Pow10(to - from)
    ensures to <= from + 2 ==> v < 100
    ensures v < 10000
  {
    DigitSlice(s, from, to);
    assert Pow10(1) == 10 && Pow10(2) == 100 && Pow10(3) == 1000 && Pow10(4) == 10000;
    DecimalValue(s[from..to])
  }

  /** What happens after a match: month lookup, calendar validation, ISO rendering or the string unchanged. */
  function Convert(s: string, i: nat, m: Spans): (r: string)
    requires PatternAt(s, i, m)
    ensures r == s || IsIsoTimestamp(r)
  {
    match MonthNumber(s[m.monthStart..m.monthEnd])
    case None => s
    case Some(month) =>
      var dt := FieldsOf(s, i, m, month);
      if ValidDateTime(dt) then IsoFormat(dt) else s
  }

  /** `normalize_datetime`: the ISO form of the first match when it names a real date and time, else `s` itself. */
  function NormalizeDatetime(s: string): (r: string)
    ensures r == s || IsIsoTimestamp(r)
  {
    match Search(s)
    case None => s
    case Some(f) =>
      ScanAtSound(s, f.pos);
      Convert(s, f.pos, f.spans)
  }

  /** Without a match of the pattern anywhere, the string comes back unchanged. */
  lemma NormalizeNoMatch(s: string)
    requires forall i, m :: 0 <= i <= |s| ==> !PatternAt(s, i, m)
    ensures NormalizeDatetime(s) == s
  {
    if Search(s).Some? {
      ScanAtSound(s, Search(s).value.pos);
    }
  }

  /** The first match in `s` is at `i` with positions `m`. */
  predicate FirstMatch(s: string, i: nat, m: Spans) {
    i <= |s| && Search(s) == Some(Found(i, m))
  }

  /** A first match whose month word is not one of the twelve keys leaves the string unchanged. */
  lemma NormalizeUnknownMonth(s: string, i: nat, m: Spans)
    requires FirstMatch(s, i, m) && MonthNumber(s[m.monthStart..m.monthEnd]).None?
    ensures NormalizeDatetime(s) == s
  {
  }

  /** With a recognised month, the result is the ISO form exactly when the date and time are real ones. */
  lemma NormalizeCalendar(s: string, i: nat, m: Spans, month: nat)
    requires FirstMatch(s, i, m) && MonthNumber(s[m.monthStart..m.monthEnd]) == Some(month)
    ensures PatternAt(s, i, m)
    ensures ValidDateTime(FieldsOf(s, i, m, month)) ==> NormalizeDatetime(s) == IsoFormat(FieldsOf(s, i, m, month))
    ensures !ValidDateTime(FieldsOf(s, i, m, month)) ==> NormalizeDatetime(s) == s
  {
    ScanAtSound(s, i);
  }

  /** A string without whitespace never matches: the pattern needs whitespace after the day. */
  lemma NoSpaceNoMatch(s: string)
    requires forall k :: 0 <= k < |s| ==> !IsSpace(s[k])
    ensures forall i, m :: 0 <= i <= |s| ==> !PatternAt(s, i, m)
  {
    forall i, m | 0 <= i <= |s| ensures !PatternAt(s, i, m) {
      if i < m.dayEnd < m.monthStart <= |s| {
        assert !Is(s[m.dayEnd], Space);
      }
    }
  }

  lemma IsoHasNoSpace(r: string)
    requires IsIsoTimestamp(r)
    ensures forall k :: 0 <= k < |r| ==> !IsSpace(r[k])
  {
    forall k | 0 <= k < |r| ensures !IsSpace(r[k]) {
      if k != 4 && k != 7 && k != 10 && k != 13 && k != 16 { assert IsDigit(r[k]); }
    }
  }

  /** Normalising twice is normalising once: an ISO timestamp has no whitespace, so it never matches. */
  lemma NormalizeIdempotent(s: string)
    ensures NormalizeDatetime(NormalizeDatetime(s)) == NormalizeDatetime(s)
  {
    var r := NormalizeDatetime(s);
    if r != s {
      IsoHasNoSpace(r);
      NoSpaceNoMatch(r);
      NormalizeNoMatch(r);
    }
  }
}
