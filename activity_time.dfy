/**
 * `parse_time_range` of activity.py: the progress text of an event card turned
 * into a start and an end instant on the UTC+8 timeline. Two grammars:
 *  - relative, "还剩下N天M小时" (N days M hours left): no start, and an end
 *    N days M hours after the crawl instant, truncated to the hour;
 *  - absolute, "A-B": split on '-', each side stripped with '/' read as '-',
 *    parsed as "%Y-%m-%d %H:%M" when the start side holds ':' and as
 *    "%Y-%m-%d" otherwise, both truncated to the hour.
 * Anything else, or a failing parse, gives neither instant.
 */
module ActivityTime {
  import opened Wrappers
  import opened Text
  import opened Calendar

  // ---------------------------------------------------------- relative grammar

  /** The numbers of a "还剩下N天M小时" match. */
  datatype Span = Span(days: nat, hours: nat)

  /** The marker that opens the relative grammar ("still left"). */
  const Remaining: string := "还剩下"

  /**
   * `re.match(r'还剩下(\d+)天(\d+)小时', t)`. Each `\d+` is followed by a
   * non-digit, so backtracking never helps: each takes its longest digit run.
   */
  function MatchRemaining(t: string): Option<Span>
  {
    if !IsPrefix(Remaining, t) then None
    else
      var u := t[|Remaining|..];
      var n := LeadingDigits(u);
      if n == 0 || n == |u| || u[n] != '天' then None
      else
        var v := u[n + 1..];
        var m := LeadingDigits(v);
        if m == 0 || !IsPrefix("小时", v[m..]) then None
        else Some(Span(DigitsValue(u[..n]), DigitsValue(v[..m])))
  }

  /** `re.search(r'还剩下(\d+)天(\d+)小时', t)`: the leftmost match. */
  function SearchRemaining(t: string): Option<Span>
    decreases |t|
  {
    var here := MatchRemaining(t);
    if here.Some? || t == [] then here else SearchRemaining(t[1..])
  }

  /** The relative grammar only matches text holding the marker. */
  lemma {:induction false} SearchFindsMarker(t: string)
    requires SearchRemaining(t).Some?
    ensures Contains(t, Remaining)
    decreases |t|
  {
    if MatchRemaining(t).Some? {
      assert OccursAt(t, Remaining, 0);
    } else {
      SearchFindsMarker(t[1..]);
      ContainsAfter([t[0]], t[1..], Remaining);
      assert [t[0]] + t[1..] == t;
    }
  }

  // ---------------------------------------------------------- absolute grammar

  /** `%Y`: exactly four ASCII digits. */
  function ParseYear(s: string): Option<int>
  {
    if |s| == 4 && AllDigits(s) then Some(DigitsValue(s)) else None
  }

  /** `%m`, `%d`, `%H`, `%M`: one or two ASCII digits whose value lies in [lo, hi]. */
  function ParseField(s: string, lo: int, hi: int): (r: Option<int>)
    ensures r.Some? ==> lo <= r.value <= hi
  {
    if 1 <= |s| <= 2 && AllDigits(s) && lo <= DigitsValue(s) <= hi then Some(DigitsValue(s)) else None
  }

  /**
   * `datetime.strptime(s, "%Y-%m-%d")`: three '-'-separated fields naming a
   * day that exists; the time of day is midnight.
   */
  function ParseDate(s: string): (r: Option<DateTime>)
    ensures r.Some? ==> Valid(r.value) && r.value.hour == 0 && r.value.minute == 0
  {
    var f := Split(s, '-');
    if |f| != 3 then None
    else
      match (ParseYear(f[0]), ParseField(f[1], 1, 12), ParseField(f[2], 1, 31))
      case (Some(y), Some(m), Some(d)) =>
        if ValidDate(y, m, d) then Some(DateTime(y, m, d, 0, 0)) else None
      case _ => None
  }

  /** The position of the first whitespace character, or `|s|`. */
  function FirstSpace(s: string): (k: nat)
    ensures k <= |s|
    ensures k < |s| ==> IsSpace(s[k])
    ensures forall i :: 0 <= i < k ==> !IsSpace(s[i])
    decreases |s|
  {
    if s == [] || IsSpace(s[0]) then 0 else 1 + FirstSpace(s[1..])
  }

  /**
   * `datetime.strptime(s, "%Y-%m-%d %H:%M")`: a date, a run of whitespace
   * (strptime reads the format's space as `\s+`), and "H:M".
   */
  function ParseDateTime(s: string): (r: Option<DateTime>)
    ensures r.Some? ==> Valid(r.value)
  {
    var k := FirstSpace(s);
    if k == |s| then None
    else
      var date := ParseDate(s[..k]);
      var t := Split(TrimStart(s[k..]), ':');
      if date.None? || |t| != 2 then None
      else
        match (ParseField(t[0], 0, 23), ParseField(t[1], 0, 59))
        case (Some(h), Some(mi)) => Some(date.value.(hour := h, minute := mi))
        case _ => None
  }

  /** One side of a range as the source prepares it: stripped, '/' read as '-'. */
  function Normalize(side: string): string
  {
    ReplaceChar(Strip(side), '/', '-')
  }

  /**
   * One side of a range: a date and time when the start side holds ':',
   * a bare date otherwise.
   */
  function ParseSide(side: string, withTime: bool): (r: Option<DateTime>)
    ensures r.Some? ==> Valid(r.value)
  {
    if withTime then ParseDateTime(side) else ParseDate(side)
  }

  /** The two sides of an absolute range, both read to the hour or neither. */
  function SidesRange(start: string, end: string): Window
  {
    var s, e := Normalize(start), Normalize(end);
    var withTime := ':' in s;
    var ps, pe := ParseSide(s, withTime), ParseSide(e, withTime);
    if ps.Some? && pe.Some? then
      Window(Some(TruncHour(ToMinutes(ps.value))), Some(TruncHour(ToMinutes(pe.value))))
    else Window(None, None)
  }

  /** The absolute branch, entered when the text holds a '-'. */
  function AbsoluteRange(text: string): Window
  {
    var parts := Split(text, '-');
    if |parts| != 2 then Window(None, None) else SidesRange(parts[0], parts[1])
  }

  // ------------------------------------------------------------ the resolver

  /** `parse_time_range(progress_text, crawl_time_dt)`, instants in minutes. */
  function ParseTimeRange(text: string, crawl: int): Window
  {
    if Contains(text, Remaining) && SearchRemaining(text).Some? then
      var span := SearchRemaining(text).value;
      Window(None, Some(TruncHour(crawl + (span.days * 24 + span.hours) * MinutesPerHour)))
    else if Contains(text, "-") then AbsoluteRange(text)
    else Window(None, None)
  }

  // -------------------------------------------------------- relative results

  /**
   * A relative match gives no start and an end a whole number of hours after
   * the crawl instant truncated to the hour, so never before it.
   */
  lemma RelativeEnd(text: string, crawl: int)
    requires SearchRemaining(text).Some?
    ensures var span := SearchRemaining(text).value;
      ParseTimeRange(text, crawl)
        == Window(None, Some(TruncHour(crawl) + (span.days * 24 + span.hours) * MinutesPerHour))
    ensures ParseTimeRange(text, crawl).end.value >= TruncHour(crawl)
  {
    var span := SearchRemaining(text).value;
    SearchFindsMarker(text);
    TruncHourShift(crawl, span.days * 24 + span.hours);
  }

  /** After the marker, "N天M小时" splits into its two digit runs and units. */
  lemma DaysHoursFields(u: string, dn: string, hn: string, rest: string)
    requires dn != [] && hn != [] && AllDigits(dn) && AllDigits(hn)
    requires u == dn + "天" + hn + "小时" + rest
    ensures LeadingDigits(u) == |dn| < |u| && u[|dn|] == '天' && u[..|dn|] == dn
    ensures var v := u[|dn| + 1..];
      LeadingDigits(v) == |hn| && v[..|hn|] == hn && IsPrefix("小时", v[|hn|..])
  {
    assert u == dn + ("天" + hn + "小时" + rest);
    LeadingDigitsOf(dn, "天" + hn + "小时" + rest);
    var v := u[|dn| + 1..];
    assert v == hn + ("小时" + rest);
    LeadingDigitsOf(hn, "小时" + rest);
    assert v[|hn|..][..2] == "小时";
  }

  /** The anchored grammar reads "还剩下N天M小时" as the values of its two digit runs. */
  lemma MatchDaysHours(u: string, dn: string, hn: string, rest: string)
    requires dn != [] && hn != [] && AllDigits(dn) && AllDigits(hn)
    requires u == dn + "天" + hn + "小时" + rest
    ensures MatchRemaining(Remaining + u) == Some(Span(DigitsValue(dn), DigitsValue(hn)))
  {
    var t := Remaining + u;
    assert t[..|Remaining|] == Remaining;
    assert t[|Remaining|..] == u;
    DaysHoursFields(u, dn, hn, rest);
  }

  /** "还剩下N天M小时", written with `str`, is read back as N days and M hours. */
  lemma RemainingRoundTrip(days: nat, hours: nat, rest: string)
    ensures SearchRemaining(Remaining + (ShowNat(days) + "天" + ShowNat(hours) + "小时" + rest))
         == Some(Span(days, hours))
  {
    MatchDaysHours(ShowNat(days) + "天" + ShowNat(hours) + "小时" + rest, ShowNat(days), ShowNat(hours), rest);
    ShowNatRoundTrip(days);
    ShowNatRoundTrip(hours);
  }

  /**
   * The progress text "还剩下3天5小时" (written as its parts, so that the solver
   * does not unfold the scanners on a literal) ends 3 days and 5 hours after
   * the crawl's hour.
   */
  lemma ThreeDaysFiveHoursLeft(progress: string, crawl: int)
    requires progress == Remaining + (ShowNat(3) + "天" + ShowNat(5) + "小时" + "")
    ensures ParseTimeRange(progress, crawl) == Window(None, Some(TruncHour(crawl) + (3 * 24 + 5) * MinutesPerHour))
  {
    RemainingRoundTrip(3, 5, "");
    assert SearchRemaining(progress) == Some(Span(3, 5));
    RelativeEnd(progress, crawl);
  }

  /** The worked example: 3 days 5 hours left at 2024-05-01 10:00 ends at 2024-05-04 15:00. */
  lemma MayFirstToFourth()
    ensures Valid(DateTime(2024, 5, 1, 10, 0)) && Valid(DateTime(2024, 5, 4, 15, 0))
    ensures TruncHour(ToMinutes(DateTime(2024, 5, 1, 10, 0))) + (3 * 24 + 5) * MinutesPerHour
         == ToMinutes(DateTime(2024, 5, 4, 15, 0))
  {
    TruncHourOf(DateTime(2024, 5, 1, 10, 0));
  }

  // -------------------------------------------------------- absolute results

  /** "YYYY/MM/DD", the date form the page shows. */
  function ShowDate(t: DateTime): string
    requires Valid(t)
  {
    Pad4(t.year) + "/" + Pad2(t.month) + "/" + Pad2(t.day)
  }

  /** "YYYY/MM/DD HH:MM" */
  function ShowDateTime(t: DateTime): string
    requires Valid(t)
  {
    ShowDate(t) + " " + Pad2(t.hour) + ":" + Pad2(t.minute)
  }

  /** The date form after `replace("/", "-")`. */
  function DashDate(t: DateTime): string
    requires Valid(t)
  {
    Pad4(t.year) + "-" + Pad2(t.month) + "-" + Pad2(t.day)
  }

  /** Which characters the page's date forms can hold. */
  lemma ShowDateChars(t: DateTime, ch: char)
    requires Valid(t) && !IsDigit(ch)
    ensures NoSpace(ShowDate(t))
    ensures ch != '/' ==> ch !in ShowDate(t)
    ensures ch != '/' && ch != ' ' && ch != ':' ==> ch !in ShowDateTime(t)
  {
    DigitsExclude(Pad4(t.year), ch);
    DigitsExclude(Pad2(t.month), ch);
    DigitsExclude(Pad2(t.day), ch);
    DigitsExclude(Pad2(t.hour), ch);
    DigitsExclude(Pad2(t.minute), ch);
  }

  lemma DashDateChars(t: DateTime)
    requires Valid(t)
    ensures NoSpace(DashDate(t)) && ':' !in DashDate(t)
  {
    DigitsExclude(Pad4(t.year), ':');
    DigitsExclude(Pad2(t.month), ':');
    DigitsExclude(Pad2(t.day), ':');
  }

  lemma ReplaceShowDate(t: DateTime)
    requires Valid(t)
    ensures ReplaceChar(ShowDate(t), '/', '-') == DashDate(t)
  {
    var y, m, d := Pad4(t.year), Pad2(t.month), Pad2(t.day);
    DigitsExclude(y, '/');
    DigitsExclude(m, '/');
    DigitsExclude(d, '/');
    ReplaceConcat(y + "/" + m + "/", d, '/', '-');
    ReplaceConcat(y + "/" + m, "/", '/', '-');
    ReplaceConcat(y + "/", m, '/', '-');
    ReplaceConcat(y, "/", '/', '-');
    ReplaceAbsent(y, '/', '-');
    ReplaceAbsent(m, '/', '-');
    ReplaceAbsent(d, '/', '-');
  }

  lemma NormalizeShowDate(t: DateTime)
    requires Valid(t)
    ensures Normalize(ShowDate(t)) == DashDate(t)
  {
    ShowDateChars(t, ':');
    StripWithoutSpace(ShowDate(t));
    ReplaceShowDate(t);
  }

  lemma StripShowDateTime(t: DateTime)
    requires Valid(t)
    ensures Strip(ShowDateTime(t)) == ShowDateTime(t)
  {
    var s := ShowDateTime(t);
    var y, mi := Pad4(t.year), Pad2(t.minute);
    assert s[0] == y[0] && y[0] in y;
    assert s[|s| - 1] == mi[1] && mi[1] in mi;
    DigitsExclude(y, ' ');
    DigitsExclude(mi, ' ');
  }

  lemma ReplaceShowDateTime(t: DateTime)
    requires Valid(t)
    ensures ReplaceChar(ShowDateTime(t), '/', '-') == DashDate(t) + " " + Pad2(t.hour) + ":" + Pad2(t.minute)
  {
    var h, mi := Pad2(t.hour), Pad2(t.minute);
    DigitsExclude(h, '/');
    DigitsExclude(mi, '/');
    ReplaceConcat(ShowDate(t) + " " + h + ":", mi, '/', '-');
    ReplaceConcat(ShowDate(t) + " " + h, ":", '/', '-');
    ReplaceConcat(ShowDate(t) + " ", h, '/', '-');
    ReplaceConcat(ShowDate(t), " ", '/', '-');
    ReplaceAbsent(h, '/', '-');
    ReplaceAbsent(mi, '/', '-');
    ReplaceShowDate(t);
  }

  lemma NormalizeShowDateTime(t: DateTime)
    requires Valid(t)
    ensures Normalize(ShowDateTime(t)) == DashDate(t) + " " + Pad2(t.hour) + ":" + Pad2(t.minute)
  {
    StripShowDateTime(t);
    ReplaceShowDateTime(t);
  }

  /** `strptime` reads back the date `DashDate` writes. */
  lemma ParseDashDate(t: DateTime)
    requires Valid(t)
    ensures ParseDate(DashDate(t)) == Some(t.(hour := 0, minute := 0))
  {
    var y, m, d := Pad4(t.year), Pad2(t.month), Pad2(t.day);
    DigitsExclude(y, '-');
    DigitsExclude(m, '-');
    DigitsExclude(d, '-');
    assert DashDate(t) == y + ['-'] + (m + ['-'] + d);
    SplitConcat(y, m + ['-'] + d, '-');
    SplitConcat(m, d, '-');
    SplitWithout(y, '-');
    SplitWithout(m, '-');
    SplitWithout(d, '-');
    assert Split(DashDate(t), '-') == [y, m, d];
  }

  /** The first whitespace of `a + " " + b` is the separator when `a` has none. */
  lemma {:induction false} FirstSpaceAfter(a: string, b: string)
    requires NoSpace(a)
    ensures FirstSpace(a + " " + b) == |a|
    decreases |a|
  {
    if a != [] {
      assert a[0] in a;
      assert (a + " " + b)[1..] == a[1..] + " " + b;
      assert NoSpace(a[1..]) by {
        forall ch | ch in a[1..] ensures !IsSpace(ch) { assert ch in a; }
      }
      FirstSpaceAfter(a[1..], b);
    }
  }

  /** `strptime`'s `\s+` consumes the single space before "HH:MM". */
  lemma ClockAfterSpace(date: string, h: nat, mi: nat)
    requires NoSpace(date) && h < 24 && mi < 60
    ensures var s := date + " " + Pad2(h) + ":" + Pad2(mi);
      FirstSpace(s) == |date| && s[..|date|] == date
      && TrimStart(s[|date|..]) == Pad2(h) + ":" + Pad2(mi)
  {
    var clock := Pad2(h) + ":" + Pad2(mi);
    var s := date + " " + Pad2(h) + ":" + Pad2(mi);
    assert s == date + " " + clock;
    FirstSpaceAfter(date, clock);
    assert s[|date|..] == " " + clock;
    assert clock[0] == Pad2(h)[0];
    TrimOneSpace(clock);
  }

  lemma TrimOneSpace(s: string)
    requires s != [] && IsDigit(s[0])
    ensures TrimStart(" " + s) == s
  {
    assert (" " + s)[1..] == s;
  }

  /** "HH:MM" splits at its colon into the two fields. */
  lemma SplitClock(h: nat, mi: nat)
    requires h < 24 && mi < 60
    ensures Split(Pad2(h) + ":" + Pad2(mi), ':') == [Pad2(h), Pad2(mi)]
  {
    DigitsExclude(Pad2(h), ':');
    DigitsExclude(Pad2(mi), ':');
    SplitConcat(Pad2(h), Pad2(mi), ':');
    SplitWithout(Pad2(h), ':');
    SplitWithout(Pad2(mi), ':');
  }

  /** `strptime` reads back "HH:MM" after a date and a single space. */
  lemma ParseDashClock(date: string, d: DateTime, h: nat, mi: nat)
    requires NoSpace(date) && ParseDate(date) == Some(d)
    requires h < 24 && mi < 60
    ensures ParseDateTime(date + " " + Pad2(h) + ":" + Pad2(mi)) == Some(d.(hour := h, minute := mi))
  {
    ClockAfterSpace(date, h, mi);
    SplitClock(h, mi);
  }

  /** `strptime` reads back the date and time `DashDate` and `Pad2` write. */
  lemma ParseDashDateTime(t: DateTime)
    requires Valid(t)
    ensures ParseDateTime(DashDate(t) + " " + Pad2(t.hour) + ":" + Pad2(t.minute)) == Some(t)
  {
    DashDateChars(t);
    ParseDashDate(t);
    ParseDashClock(DashDate(t), t.(hour := 0, minute := 0), t.hour, t.minute);
  }

  /** The two sides of a range joined by '-' come back from `split("-")`. */
  lemma SplitRange(sa: string, sb: string)
    requires '-' !in sa && '-' !in sb
    ensures Split(sa + "-" + sb, '-') == [sa, sb]
    ensures Contains(sa + "-" + sb, "-")
  {
    SplitConcat(sa, sb, '-');
    SplitWithout(sa, '-');
    SplitWithout(sb, '-');
    var text := sa + "-" + sb;
    assert text[|sa|] == '-';
    ContainsChar(text, '-');
  }

  /** Text without the relative marker's first character goes to the absolute branch. */
  lemma AbsoluteBranch(text: string, crawl: int)
    requires '还' !in text && '-' in text
    ensures ParseTimeRange(text, crawl) == AbsoluteRange(text)
  {
    NotContainsWithout(text, Remaining, '还');
    ContainsChar(text, '-');
  }

  /** Two sides free of '-' and of the relative marker are read side by side. */
  lemma SidesOfRange(sa: string, sb: string, crawl: int)
    requires '-' !in sa && '-' !in sb && '还' !in sa && '还' !in sb
    ensures ParseTimeRange(sa + "-" + sb, crawl) == SidesRange(sa, sb)
  {
    SplitRange(sa, sb);
    AbsoluteBranch(sa + "-" + sb, crawl);
  }

  /** A range of two dates in the page's form is read back as those two midnights. */
  lemma DateRangeRoundTrip(a: DateTime, b: DateTime, crawl: int)
    requires Valid(a) && a.hour == 0 && a.minute == 0
    requires Valid(b) && b.hour == 0 && b.minute == 0
    ensures ParseTimeRange(ShowDate(a) + "-" + ShowDate(b), crawl)
         == Window(Some(ToMinutes(a)), Some(ToMinutes(b)))
  {
    ShowDateChars(a, '-');
    ShowDateChars(b, '-');
    ShowDateChars(a, '还');
    ShowDateChars(b, '还');
    SidesOfRange(ShowDate(a), ShowDate(b), crawl);
    NormalizeShowDate(a);
    NormalizeShowDate(b);
    DashDateChars(a);
    ParseDashDate(a);
    ParseDashDate(b);
    assert a.(hour := 0, minute := 0) == a && b.(hour := 0, minute := 0) == b;
    TruncHourOf(a);
    TruncHourOf(b);
    assert a.(minute := 0) == a && b.(minute := 0) == b;
  }

  /** Both sides in the date-and-time form are read with their hours. */
  lemma DateTimeSides(a: DateTime, b: DateTime)
    requires Valid(a) && Valid(b)
    ensures SidesRange(ShowDateTime(a), ShowDateTime(b))
         == Window(Some(TruncHour(ToMinutes(a))), Some(TruncHour(ToMinutes(b))))
  {
    NormalizeShowDateTime(a);
    NormalizeShowDateTime(b);
    var na := DashDate(a) + " " + Pad2(a.hour) + ":" + Pad2(a.minute);
    assert na[13] == ':';
    ParseDashDateTime(a);
    ParseDashDateTime(b);
  }

  /** A range of two date-times in the page's form is read back, minutes zeroed. */
  lemma DateTimeRangeRoundTrip(a: DateTime, b: DateTime, crawl: int)
    requires Valid(a) && Valid(b)
    ensures ParseTimeRange(ShowDateTime(a) + "-" + ShowDateTime(b), crawl)
         == Window(Some(ToMinutes(a.(minute := 0))), Some(ToMinutes(b.(minute := 0))))
  {
    ShowDateChars(a, '-');
    ShowDateChars(b, '-');
    ShowDateChars(a, '还');
    ShowDateChars(b, '还');
    SidesOfRange(ShowDateTime(a), ShowDateTime(b), crawl);
    DateTimeSides(a, b);
    TruncHourOf(a);
    TruncHourOf(b);
  }

  lemma MayDates()
    ensures Valid(DateTime(2024, 5, 1, 0, 0)) && Valid(DateTime(2024, 5, 10, 0, 0))
    ensures ShowDate(DateTime(2024, 5, 1, 0, 0)) == "2024/05/01"
    ensures ShowDate(DateTime(2024, 5, 10, 0, 0)) == "2024/05/10"
  {
    var a, b := DateTime(2024, 5, 1, 0, 0), DateTime(2024, 5, 10, 0, 0);
    assert Valid(a) && Valid(b);
    var year := Pad4(2024);
    assert year == "2024" by { assert Pad2(20) == "20" && Pad2(24) == "24"; }
    var may := Pad2(5);
    assert may == "05";
    assert ShowDate(a) == year + "/" + may + "/" + Pad2(1) && Pad2(1) == "01";
    assert ShowDate(b) == year + "/" + may + "/" + Pad2(10) && Pad2(10) == "10";
  }

  /** The worked example: "2024/05/01-2024/05/10" is the two midnights. */
  lemma FirstToTenthOfMay(text: string, crawl: int)
    requires text == "2024/05/01-2024/05/10"
    ensures Valid(DateTime(2024, 5, 1, 0, 0)) && Valid(DateTime(2024, 5, 10, 0, 0))
    ensures ParseTimeRange(text, crawl)
         == Window(Some(ToMinutes(DateTime(2024, 5, 1, 0, 0))), Some(ToMinutes(DateTime(2024, 5, 10, 0, 0))))
  {
    var a, b := DateTime(2024, 5, 1, 0, 0), DateTime(2024, 5, 10, 0, 0);
    MayDates();
    var shown := ShowDate(a) + "-" + ShowDate(b);
    assert shown == text;
    DateRangeRoundTrip(a, b, crawl);
  }

  /** The order of the two sides is not checked: a range may end before it starts. */
  lemma ReversedRangeKept(a: DateTime, b: DateTime, crawl: int)
    requires Valid(a) && a.hour == 0 && a.minute == 0
    requires Valid(b) && b.hour == 0 && b.minute == 0
    requires Before(b, a)
    ensures var w := ParseTimeRange(ShowDate(a) + "-" + ShowDate(b), crawl);
      w.start.Some? && w.end.Some? && w.end.value < w.start.value
  {
    DateRangeRoundTrip(a, b, crawl);
    ToMinutesOrder(b, a);
  }

  // ------------------------------------------------------ malformed and mixed

  /** The characters the two absolute forms are written in. */
  predicate StampChar(ch: char)
  {
    IsDigit(ch) || ch == '-' || ch == ':' || IsSpace(ch)
  }

  /** A date `strptime` accepts holds only digits and '-'. */
  lemma DateChars(s: string)
    requires ParseDate(s).Some?
    ensures forall ch :: ch in s ==> IsDigit(ch) || ch == '-'
  {
    var f := Split(s, '-');
    assert AllDigits(f[0]) && AllDigits(f[1]) && AllDigits(f[2]);
    JoinSplit(s, '-');
    JoinDigits(f, '-');
  }

  /** A clock that splits on ':' into digit runs holds only digits and ':'. */
  lemma ClockChars(clock: string)
    requires var t := Split(clock, ':'); |t| == 2 && AllDigits(t[0]) && AllDigits(t[1])
    ensures forall ch :: ch in clock ==> IsDigit(ch) || ch == ':'
  {
    var t := Split(clock, ':');
    JoinSplit(clock, ':');
    JoinDigits(t, ':');
  }

  /** What leading whitespace hides is whitespace. */
  lemma TrimStartChars(s: string, ch: char)
    requires ch in s
    ensures IsSpace(ch) || ch in TrimStart(s)
  {
    var t := TrimStart(s);
    var i :| 0 <= i < |s| && s[i] == ch;
    if |s| - |t| <= i {
      assert t[i - (|s| - |t|)] == ch;
    }
  }

  /** A date and time `strptime` accepts holds only digits, '-', ':' and whitespace. */
  lemma DateTimeChars(s: string)
    requires ParseDateTime(s).Some?
    ensures forall ch :: ch in s ==> StampChar(ch)
  {
    var k := FirstSpace(s);
    var clock := TrimStart(s[k..]);
    assert s == s[..k] + s[k..];
    DateChars(s[..k]);
    ClockChars(clock);
    forall ch | ch in s[k..] ensures StampChar(ch)
    {
      TrimStartChars(s[k..], ch);
    }
  }

  lemma SideChars(side: string, withTime: bool)
    requires ParseSide(side, withTime).Some?
    ensures forall ch :: ch in side ==> StampChar(ch)
  {
    if withTime { DateTimeChars(side); } else { DateChars(side); }
  }

  /** A side holding a non-stamp character is no date, whichever the form. */
  lemma MarkedSideFails(side: string, withTime: bool)
    requires '还' in side
    ensures ParseSide(Normalize(side), withTime).None?
  {
    StripKeeps(side, '还');
    ReplaceKeeps(Strip(side), '/', '-', '还');
    if ParseSide(Normalize(side), withTime).Some? {
      SideChars(Normalize(side), withTime);
      assert false;
    }
  }

  /**
   * Text holding "还剩下" whose counts do not match falls through to the
   * absolute branch, and that branch cannot accept it: the marker survives
   * `strip` and `replace` into one side, which then is no date.
   */
  lemma MalformedRelative(text: string, crawl: int)
    requires Contains(text, Remaining) && SearchRemaining(text).None?
    ensures ParseTimeRange(text, crawl) == Window(None, None)
  {
    ContainsHead(text, Remaining);
    var parts := Split(text, '-');
    if |parts| == 2 {
      JoinSplit(text, '-');
      JoinMember(parts, '-', '还');
      var withTime := ':' in Normalize(parts[0]);
      if '还' in parts[0] {
        MarkedSideFails(parts[0], withTime);
      } else {
        MarkedSideFails(parts[1], withTime);
      }
    }
  }

  /** A date-and-time start with a bare-date end fails: the start decides the form. */
  lemma TimedStartBareEnd(a: DateTime, b: DateTime, crawl: int)
    requires Valid(a) && Valid(b)
    ensures ParseTimeRange(ShowDateTime(a) + "-" + ShowDate(b), crawl) == Window(None, None)
  {
    ShowDateChars(a, '-');
    ShowDateChars(b, '-');
    ShowDateChars(a, '还');
    ShowDateChars(b, '还');
    SidesOfRange(ShowDateTime(a), ShowDate(b), crawl);
    NormalizeShowDateTime(a);
    NormalizeShowDate(b);
    TimedIsNoBareDate(a);
    BareDateIsNotTimed(b);
  }

  /** A bare-date start with a date-and-time end fails the same way. */
  lemma BareStartTimedEnd(a: DateTime, b: DateTime, crawl: int)
    requires Valid(a) && Valid(b)
    ensures ParseTimeRange(ShowDate(a) + "-" + ShowDateTime(b), crawl) == Window(None, None)
  {
    ShowDateChars(a, '-');
    ShowDateChars(b, '-');
    ShowDateChars(a, '还');
    ShowDateChars(b, '还');
    SidesOfRange(ShowDate(a), ShowDateTime(b), crawl);
    NormalizeShowDate(a);
    NormalizeShowDateTime(b);
    DashDateChars(a);
    TimedIsNoBareDate(b);
  }

  /** A normalised date-and-time holds ':' and so does not parse as a bare date. */
  lemma TimedIsNoBareDate(t: DateTime)
    requires Valid(t)
    ensures var e := DashDate(t) + " " + Pad2(t.hour) + ":" + Pad2(t.minute);
      ':' in e && ParseDate(e).None?
  {
    var e := DashDate(t) + " " + Pad2(t.hour) + ":" + Pad2(t.minute);
    assert ':' in e by { assert e[13] == ':'; }
    if ParseDate(e).Some? {
      DateChars(e);
      assert false;
    }
  }

  /** A normalised bare date has no space and so does not parse as a date-and-time. */
  lemma BareDateIsNotTimed(t: DateTime)
    requires Valid(t)
    ensures ParseDateTime(DashDate(t)).None?
  {
    DashDateChars(t);
    assert FirstSpace(DashDate(t)) == |DashDate(t)|;
  }

  // ------------------------------------------------------------ all results

  /**
   * Every result is one of three shapes: nothing; an end alone, from the
   * relative grammar; or a start and an end, from exactly two '-'-separated
   * sides. Every instant is on the hour.
   */
  lemma WindowShape(text: string, crawl: int)
    ensures var w := ParseTimeRange(text, crawl);
      && (SearchRemaining(text).Some? ==> w.start.None? && w.end.Some?)
      && (w.start.Some? ==> w.end.Some? && SearchRemaining(text).None? && |Split(text, '-')| == 2)
      && (w.end.Some? ==> SearchRemaining(text).Some? || |Split(text, '-')| == 2)
      && (w.start.Some? ==> w.start.value % MinutesPerHour == 0)
      && (w.end.Some? ==> w.end.value % MinutesPerHour == 0)
  {
    if SearchRemaining(text).Some? {
      RelativeEnd(text, crawl);
    }
  }
}
