/**
 * The Python string operations the scrapers use, on `string` (a sequence of
 * Unicode scalar values): `in`, `split`, `strip`, `replace`, ASCII decimal
 * digits as `\d` and `int()` read them, and decimal rendering of numbers.
 */
module Text {

  // ---------------------------------------------------------------- substrings

  /** `s.startswith(p)` */
  predicate IsPrefix(p: string, s: string)
  {
    |p| <= |s| && s[..|p|] == p
  }

  /** `sub` occurs in `s` starting at index `i`. */
  predicate OccursAt(s: string, sub: string, i: int)
  {
    0 <= i && i + |sub| <= |s| && s[i..i + |sub|] == sub
  }

  /** `sub in s`: `sub` occurs at some position of `s`. */
  predicate Contains(s: string, sub: string)
  {
    exists i | 0 <= i <= |s| - |sub| :: OccursAt(s, sub, i)
  }

  /** For a one-character needle, `in` is plain membership. */
  lemma ContainsChar(s: string, ch: char)
    ensures Contains(s, [ch]) <==> ch in s
  {
    if ch in s {
      var i :| 0 <= i < |s| && s[i] == ch;
      assert OccursAt(s, [ch], i);
    }
    if Contains(s, [ch]) {
      var i :| 0 <= i <= |s| - 1 && OccursAt(s, [ch], i);
      assert s[i] == s[i..i + 1][0];
    }
  }

  /** A needle holding a character that `s` lacks does not occur in `s`. */
  lemma NotContainsWithout(s: string, sub: string, ch: char)
    requires ch in sub && ch !in s
    ensures !Contains(s, sub)
  {
    var j :| 0 <= j < |sub| && sub[j] == ch;
    forall i | 0 <= i <= |s| - |sub|
      ensures !OccursAt(s, sub, i)
    {
      assert s[i..i + |sub|][j] == s[i + j] != sub[j];
    }
  }

  /** A non-empty needle that occurs brings its first character along. */
  lemma ContainsHead(s: string, sub: string)
    requires sub != [] && Contains(s, sub)
    ensures sub[0] in s
  {
    var i :| 0 <= i <= |s| - |sub| && OccursAt(s, sub, i);
    assert s[i] == s[i..i + |sub|][0];
  }

  /** Text in front of a match does not hide it. */
  lemma ContainsAfter(a: string, s: string, sub: string)
    requires Contains(s, sub)
    ensures Contains(a + s, sub)
  {
    var i :| 0 <= i <= |s| - |sub| && OccursAt(s, sub, i);
    assert (a + s)[|a| + i..|a| + i + |sub|] == s[i..i + |sub|];
    assert OccursAt(a + s, sub, |a| + i);
  }

  // ------------------------------------------------------------------- split

  /**
   * `s.split(c)` for a one-character separator: the pieces between the
   * separators, always at least one, none holding the separator.
   */
  function Split(s: string, c: char): (parts: seq<string>)
    ensures |parts| >= 1
    ensures forall i :: 0 <= i < |parts| ==> c !in parts[i]
    decreases |s|
  {
    if s == [] then [[]]
    else
      var rest := Split(s[1..], c);
      if s[0] == c then [[]] + rest
      else [[s[0]] + rest[0]] + rest[1..]
  }

  /** `c.join(parts)`, the inverse of `Split`. */
  function Join(parts: seq<string>, c: char): string
    requires |parts| >= 1
    decreases |parts|
  {
    if |parts| == 1 then parts[0] else parts[0] + [c] + Join(parts[1..], c)
  }

  /** Splitting and joining again gives back the text. */
  lemma {:induction false} JoinSplit(s: string, c: char)
    ensures Join(Split(s, c), c) == s
    decreases |s|
  {
    if s != [] {
      JoinSplit(s[1..], c);
      var rest := Split(s[1..], c);
      if s[0] != c {
        var p := Split(s, c);
        assert p[0] == [s[0]] + rest[0] && p[1..] == rest[1..];
        if |rest| > 1 {
          assert Join(rest, c) == rest[0] + [c] + Join(rest[1..], c);
        }
      }
    }
  }

  /** Every character of a join other than the separator comes from a part. */
  lemma {:induction false} JoinMember(parts: seq<string>, c: char, ch: char)
    requires |parts| >= 1 && ch in Join(parts, c) && ch != c
    ensures exists i :: 0 <= i < |parts| && ch in parts[i]
    decreases |parts|
  {
    if |parts| > 1 && ch !in parts[0] {
      JoinMember(parts[1..], c, ch);
      var i :| 0 <= i < |parts[1..]| && ch in parts[1..][i];
      assert ch in parts[i + 1];
    }
  }

  /** A join of digit runs holds only digits and the separator. */
  lemma {:induction false} JoinDigits(parts: seq<string>, c: char)
    requires |parts| >= 1 && forall i :: 0 <= i < |parts| ==> AllDigits(parts[i])
    ensures forall ch :: ch in Join(parts, c) ==> IsDigit(ch) || ch == c
    decreases |parts|
  {
    if |parts| > 1 {
      JoinDigits(parts[1..], c);
    }
  }

  /** There is one piece more than there are separators. */
  lemma {:induction false} SplitCount(s: string, c: char)
    ensures |Split(s, c)| == multiset(s)[c] + 1
    decreases |s|
  {
    if s != [] {
      SplitCount(s[1..], c);
      assert s == [s[0]] + s[1..];
    }
  }

  /** Text without the separator is one piece. */
  lemma {:induction false} SplitWithout(s: string, c: char)
    requires c !in s
    ensures Split(s, c) == [s]
    decreases |s|
  {
    if s != [] {
      SplitWithout(s[1..], c);
      assert [s[0]] + s[1..] == s;
    }
  }

  /** Splitting at a separator splits each side on its own. */
  lemma {:induction false} SplitConcat(a: string, b: string, c: char)
    ensures Split(a + [c] + b, c) == Split(a, c) + Split(b, c)
    decreases |a|
  {
    var s := a + [c] + b;
    if a == [] {
      assert s[1..] == b;
    } else {
      assert s[1..] == a[1..] + [c] + b;
      SplitConcat(a[1..], b, c);
    }
  }

  // --------------------------------------------------------------- whitespace

  /** `ch.isspace()`, which is also what `\s` and `strip()` use. */
  predicate IsSpace(ch: char)
  {
    || '\t' <= ch <= '\r'
    || '\U{1C}' <= ch <= '\U{20}' 
    || ch == '\U{85}' || ch == '\U{A0}' || ch == '\U{1680}'
    || '\U{2000}' <= ch <= '\U{200A}'
    || ch == '\U{2028}' || ch == '\U{2029}' || ch == '\U{202F}' || ch == '\U{205F}'
    || ch == '\U{3000}'
  }

  /** `s.lstrip()`: drops leading whitespace and nothing else. */
  function TrimStart(s: string): (r: string)
    ensures |r| <= |s| && r == s[|s| - |r|..]
    ensures forall i :: 0 <= i < |s| - |r| ==> IsSpace(s[i])
    ensures r == [] || !IsSpace(r[0])
    decreases |s|
  {
    if s != [] && IsSpace(s[0]) then TrimStart(s[1..]) else s
  }

  /** `s.rstrip()`: drops trailing whitespace and nothing else. */
  function TrimEnd(s: string): (r: string)
    ensures |r| <= |s| && r == s[..|r|]
    ensures forall i :: |r| <= i < |s| ==> IsSpace(s[i])
    ensures r == [] || !IsSpace(r[|r| - 1])
    decreases |s|
  {
    if s != [] && IsSpace(s[|s| - 1]) then TrimEnd(s[..|s| - 1]) else s
  }

  /** `s.strip()` */
  function Strip(s: string): string
  {
    TrimEnd(TrimStart(s))
  }

  /** No character of `s` is whitespace. */
  predicate NoSpace(s: string)
  {
    forall ch :: ch in s ==> !IsSpace(ch)
  }

  /** Stripping text without whitespace changes nothing. */
  lemma StripWithoutSpace(s: string)
    requires NoSpace(s)
    ensures Strip(s) == s
  {
    if s != [] {
      assert s[0] in s && s[|s| - 1] in s;
    }
  }

  /** Dropping leading whitespace keeps every other character. */
  lemma TrimStartKeeps(s: string, ch: char)
    requires ch in s && !IsSpace(ch)
    ensures ch in TrimStart(s)
  {
    var t := TrimStart(s);
    var d := |s| - |t|;
    var i :| 0 <= i < |s| && s[i] == ch;
    assert d <= i;
    assert t == s[d..];
    assert t[i - d] == s[i];
  }

  /** Dropping trailing whitespace keeps every other character. */
  lemma TrimEndKeeps(s: string, ch: char)
    requires ch in s && !IsSpace(ch)
    ensures ch in TrimEnd(s)
  {
    var t := TrimEnd(s);
    var i :| 0 <= i < |s| && s[i] == ch;
    assert t[i] == ch;
  }

  /** Stripping removes whitespace only: every other character stays. */
  lemma StripKeeps(s: string, ch: char)
    requires ch in s && !IsSpace(ch)
    ensures ch in Strip(s)
  {
    TrimStartKeeps(s, ch);
    TrimEndKeeps(TrimStart(s), ch);
  }

  // ------------------------------------------------------------------ replace

  /** `s.replace(a, b)` for one-character `a` and `b`. */
  function ReplaceChar(s: string, a: char, b: char): string
  {
    seq(|s|, i requires 0 <= i < |s| => if s[i] == a then b else s[i])
  }

  /** Replacing distributes over concatenation. */
  lemma ReplaceConcat(s: string, t: string, a: char, b: char)
    ensures ReplaceChar(s + t, a, b) == ReplaceChar(s, a, b) + ReplaceChar(t, a, b)
  {
  }

  /** Replacing keeps every other character. */
  lemma ReplaceKeeps(s: string, a: char, b: char, ch: char)
    requires ch in s && ch != a
    ensures ch in ReplaceChar(s, a, b)
  {
    var i :| 0 <= i < |s| && s[i] == ch;
    assert ReplaceChar(s, a, b)[i] == ch;
  }

  /** Replacing a character that does not occur changes nothing. */
  lemma ReplaceAbsent(s: string, a: char, b: char)
    requires a !in s
    ensures ReplaceChar(s, a, b) == s
  {
  }

  // ------------------------------------------------------------------- digits

  /** ASCII decimal digit. */
  predicate IsDigit(ch: char)
  {
    '0' <= ch <= '9'
  }

  predicate AllDigits(s: string)
  {
    forall i :: 0 <= i < |s| ==> IsDigit(s[i])
  }

  function DigitValue(ch: char): nat
    requires IsDigit(ch)
  {
    ch as int - '0' as int
  }

  function DigitChar(d: nat): char
    requires d < 10
  {
    (d + '0' as int) as char
  }

  /** `int(s)` for a run of ASCII digits (leading zeros allowed). */
  function DigitsValue(s: string): nat
    requires AllDigits(s)
    decreases |s|
  {
    if s == [] then 0 else 10 * DigitsValue(s[..|s| - 1]) + DigitValue(s[|s| - 1])
  }

  /** The length of the longest run of digits at the start of `s` (what a greedy `\d+` takes). */
  function LeadingDigits(s: string): (n: nat)
    ensures n <= |s| && AllDigits(s[..n])
    ensures n < |s| ==> !IsDigit(s[n])
    decreases |s|
  {
    if s != [] && IsDigit(s[0]) then 1 + LeadingDigits(s[1..]) else 0
  }

  /** Digits are neither whitespace nor any non-digit character. */
  lemma DigitsExclude(s: string, ch: char)
    requires AllDigits(s) && !IsDigit(ch)
    ensures ch !in s && NoSpace(s)
  {
  }

  /** A digit run followed by a non-digit is taken whole. */
  lemma {:induction false} LeadingDigitsOf(d: string, t: string)
    requires AllDigits(d)
    requires t == [] || !IsDigit(t[0])
    ensures LeadingDigits(d + t) == |d|
    decreases |d|
  {
    if d != [] {
      assert (d + t)[1..] == d[1..] + t;
      LeadingDigitsOf(d[1..], t);
    } else {
      assert d + t == t;
    }
  }

  /** `str(n)`: decimal digits without leading zeros. */
  function ShowNat(n: nat): (s: string)
    ensures s != [] && AllDigits(s)
  {
    if n < 10 then [DigitChar(n)] else ShowNat(n / 10) + [DigitChar(n % 10)]
  }

  /** `int(str(n)) == n` */
  lemma {:induction false} ShowNatRoundTrip(n: nat)
    ensures DigitsValue(ShowNat(n)) == n
  {
    if n >= 10 {
      ShowNatRoundTrip(n / 10);
      var s := ShowNat(n);
      assert s[..|s| - 1] == ShowNat(n / 10);
    }
  }

  /** `f"{n:02d}"` */
  function Pad2(n: nat): (s: string)
    requires n < 100
    ensures |s| == 2 && AllDigits(s) && DigitsValue(s) == n
  {
    var s := [DigitChar(n / 10), DigitChar(n % 10)];
    assert s[..1][..0] == [];
    assert DigitsValue(s[..1]) == n / 10;
    s
  }

  /** `f"{n:04d}"` */
  function Pad4(n: nat): (s: string)
    requires n < 10000
    ensures |s| == 4 && AllDigits(s) && DigitsValue(s) == n
  {
    var hi, lo := Pad2(n / 100), Pad2(n % 100);
    DigitsValueTwoMore(hi, lo);
    hi + lo
  }

  /** Two more digits on the right multiply the value by a hundred. */
  lemma DigitsValueTwoMore(a: string, b: string)
    requires AllDigits(a) && AllDigits(b) && |b| == 2
    ensures AllDigits(a + b) && DigitsValue(a + b) == 100 * DigitsValue(a) + DigitsValue(b)
  {
    var s := a + b;
    assert s[..|s| - 1] == a + b[..1];
    assert (a + b[..1])[..|a|] == a;
    assert b[..1][..0] == [];
    assert DigitsValue(b[..1]) == DigitValue(b[0]);
  }

}
