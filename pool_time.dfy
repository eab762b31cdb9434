/**
 * The banner page (scraper.py): a card's progress text ("N天M小时") becomes a
 * signed number of hours, and the main block turns that offset from the crawl
 * instant into the card's start (not started yet) or end (running or over),
 * on the hour. Instants are minutes on the UTC+8 clock, as in `Calendar`.
 */
module PoolTime {
  import opened Wrappers
  import opened Text
  import opened Calendar

  /**
   * `re.search(r'(\d+)' + unit, t).group(1)` as a number. A digit run taken
   * shorter is followed by a digit, never by the unit, so each position
   * matches with its longest run or not at all.
   */
  function NumberBefore(t: string, unit: string): Option<nat>
    decreases |t|
  {
    if t == [] then None
    else
      var n := LeadingDigits(t);
      if n > 0 && IsPrefix(unit, t[n..]) then Some(DigitsValue(t[..n]))
      else NumberBefore(t[1..], unit)
  }

  /** The whole hours of "N天M小时"; a missing part counts as 0. */
  function TotalHours(progress: string): (h: nat)
    ensures NumberBefore(progress, "天").None? && NumberBefore(progress, "小时").None? ==> h == 0
  {
    NumberBefore(progress, "天").GetOr(0) * 24 + NumberBefore(progress, "小时").GetOr(0)
  }

  /**
   * `parse_time_delta(progress_text, status)` in hours: forward for a banner
   * about to start or running, backward for one that is over, none otherwise.
   */
  function ParseTimeDelta(progress: string, status: string): (d: Option<int>)
    ensures d.Some? <==> Contains(status, "将开始") || Contains(status, "进行中") || Contains(status, "已结束")
    ensures d.Some? && (Contains(status, "将开始") || Contains(status, "进行中")) ==> d.value == TotalHours(progress)
    ensures d.Some? && !(Contains(status, "将开始") || Contains(status, "进行中")) ==> d.value == -(TotalHours(progress) as int)
  {
    var total: int := TotalHours(progress);
    if Contains(status, "将开始") || Contains(status, "进行中") then Some(total)
    else if Contains(status, "已结束") then Some(-total)
    else None
  }

  /**
   * The times the main block writes for one card: both absent unless the
   * offset is present and non-zero (`if delta:`); then the crawl instant moved
   * by the offset, minutes dropped, is the start of an upcoming card and the
   * end of a running or ended one.
   */
  function PoolWindow(progress: string, status: string, crawl: int): Window
  {
    var delta := ParseTimeDelta(progress, status);
    if delta.None? || delta.value == 0 then Window(None, None)
    else
      var at := TruncHour(crawl + delta.value * MinutesPerHour);
      if Contains(status, "将开始") then Window(Some(at), None)
      else if Contains(status, "进行中") then Window(None, Some(at))
      else if Contains(status, "已结束") then Window(None, Some(at))
      else Window(None, None)
  }

  // ------------------------------------------------------------- the parser

  /** A digit run followed by the unit is read at once. */
  lemma NumberBeforeHere(d: string, unit: string, rest: string)
    requires d != [] && AllDigits(d) && unit != [] && !IsDigit(unit[0])
    ensures NumberBefore(d + unit + rest, unit) == Some(DigitsValue(d))
  {
    var t := d + unit + rest;
    assert t == d + (unit + rest);
    LeadingDigitsOf(d, unit + rest);
    assert t[|d|..] == unit + rest;
    assert t[..|d|] == d;
  }

  /** A digit run followed by something other than the unit is skipped. */
  lemma {:induction false} NumberBeforeSkip(d: string, rest: string, unit: string)
    requires AllDigits(d) && rest != [] && !IsDigit(rest[0]) && !IsPrefix(unit, rest)
    ensures NumberBefore(d + rest, unit) == NumberBefore(rest[1..], unit)
    decreases |d|
  {
    var t := d + rest;
    LeadingDigitsOf(d, rest);
    assert t[|d|..] == rest;
    if d != [] {
      assert t[1..] == d[1..] + rest;
      NumberBeforeSkip(d[1..], rest, unit);
    }
  }

  /** A text without the unit's first character has no such number. */
  lemma {:induction false} NumberBeforeAbsent(t: string, unit: string)
    requires unit != [] && unit[0] !in t
    ensures NumberBefore(t, unit).None?
    decreases |t|
  {
    if t != [] {
      var n := LeadingDigits(t);
      if n < |t| {
        assert t[n] in t;
      }
      assert forall ch :: ch in t[1..] ==> ch in t;
      NumberBeforeAbsent(t[1..], unit);
    }
  }

  lemma DaysOf(days: nat, hours: nat)
    ensures NumberBefore(ShowNat(days) + "天" + ShowNat(hours) + "小时", "天") == Some(days)
  {
    var dn, hn := ShowNat(days), ShowNat(hours);
    NumberBeforeHere(dn, "天", hn + "小时");
    assert dn + "天" + hn + "小时" == dn + "天" + (hn + "小时");
    ShowNatRoundTrip(days);
  }

  /** A digit run and a character that cannot open the unit are passed over. */
  lemma NumberBeforePast(d: string, c: char, rest: string, unit: string)
    requires AllDigits(d) && !IsDigit(c) && unit != [] && c != unit[0]
    ensures NumberBefore(d + ([c] + rest), unit) == NumberBefore(rest, unit)
  {
    var r := [c] + rest;
    assert r[0] == c && r[1..] == rest;
    assert !IsPrefix(unit, r) by { if |unit| <= |r| { assert r[..|unit|][0] == c; } }
    NumberBeforeSkip(d, r, unit);
  }

  /** The number of "D<c>H<unit>" before `unit` is H, when `c` cannot open the unit. */
  lemma NumberAfterSeparator(d: string, c: char, h: string, unit: string)
    requires AllDigits(d) && !IsDigit(c) && h != [] && AllDigits(h)
    requires unit != [] && c != unit[0] && !IsDigit(unit[0])
    ensures NumberBefore(d + [c] + h + unit, unit) == Some(DigitsValue(h))
  {
    var tail := h + unit;
    assert d + [c] + h + unit == d + ([c] + tail);
    assert h + unit + [] == tail;
    NumberBeforePast(d, c, tail, unit);
    NumberBeforeHere(h, unit, []);
  }

  lemma HoursOf(days: nat, hours: nat)
    ensures NumberBefore(ShowNat(days) + "天" + ShowNat(hours) + "小时", "小时") == Some(hours)
  {
    NumberAfterSeparator(ShowNat(days), '天', ShowNat(hours), "小时");
    ShowNatRoundTrip(hours);
  }

  /** "N天M小时", written with `str`, is N days and M hours. */
  lemma DaysHoursRoundTrip(days: nat, hours: nat)
    ensures TotalHours(ShowNat(days) + "天" + ShowNat(hours) + "小时") == days * 24 + hours
  {
    DaysOf(days, hours);
    HoursOf(days, hours);
  }

  /** "M小时" alone is M hours: a missing day count is 0. */
  lemma HoursOnly(hours: nat)
    ensures TotalHours(ShowNat(hours) + "小时") == hours
  {
    var hn := ShowNat(hours);
    assert hn + "小时" == hn + "小时" + "";
    NumberBeforeHere(hn, "小时", "");
    ShowNatRoundTrip(hours);
    DigitsExclude(hn, '天');
    assert '天' !in hn + "小时";
    NumberBeforeAbsent(hn + "小时", "天");
  }

  /** "N天" alone is N days: a missing hour count is 0. */
  lemma DaysOnly(days: nat)
    ensures TotalHours(ShowNat(days) + "天") == days * 24
  {
    var dn := ShowNat(days);
    assert dn + "天" == dn + "天" + "";
    NumberBeforeHere(dn, "天", "");
    ShowNatRoundTrip(days);
    DigitsExclude(dn, '小');
    assert '小' !in dn + "天";
    NumberBeforeAbsent(dn + "天", "小时");
  }

  // ------------------------------------------------------------ the window

  /**
   * What the main block writes: never both times; a start only for an
   * upcoming card, an end only for a running or ended one; nothing for a
   * zero or missing offset; otherwise the crawl instant moved by the offset
   * and truncated to the hour.
   */
  lemma PoolWindowCases(progress: string, status: string, crawl: int)
    ensures var w := PoolWindow(progress, status, crawl);
      var delta := ParseTimeDelta(progress, status);
      && !(w.start.Some? && w.end.Some?)
      && (w.start.Some? || w.end.Some? <==> delta.Some? && delta.value != 0)
      && (w.start.Some? <==> delta.Some? && delta.value != 0 && Contains(status, "将开始"))
      && (w.start.Some? ==> w.start.value == TruncHour(crawl + delta.value * MinutesPerHour))
      && (w.end.Some? ==> w.end.value == TruncHour(crawl + delta.value * MinutesPerHour))
  {
  }

  /**
   * Upcoming and running cards get an instant after the crawl instant; an
   * ended card's end lies at least an hour before it. All are on the hour.
   */
  lemma PoolWindowAroundCrawl(progress: string, status: string, crawl: int)
    ensures var w := PoolWindow(progress, status, crawl);
      && (w.start.Some? ==> crawl < w.start.value && w.start.value % MinutesPerHour == 0)
      && ((w.end.Some? && (Contains(status, "将开始") || Contains(status, "进行中")))
            ==> crawl < w.end.value && w.end.value % MinutesPerHour == 0)
      && ((w.end.Some? && !(Contains(status, "将开始") || Contains(status, "进行中")))
            ==> w.end.value + MinutesPerHour <= crawl && w.end.value % MinutesPerHour == 0)
  {
    var delta := ParseTimeDelta(progress, status);
    if delta.Some? && delta.value != 0 {
      var m := crawl + delta.value * MinutesPerHour;
      assert TruncHour(m) <= m < TruncHour(m) + MinutesPerHour;
    }
  }

  /** Zero hours left leaves both times empty, whatever the status. */
  lemma ZeroOffsetNoTimes(status: string, crawl: int)
    ensures PoolWindow(ShowNat(0) + "天" + ShowNat(0) + "小时", status, crawl) == Window(None, None)
  {
    DaysHoursRoundTrip(0, 0);
  }
}
