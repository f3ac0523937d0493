/**
 * The pieces of Python's string library and regular-expression engine that the
 * scripts lean on, written out over `seq<char>`: whitespace (`\s`, `str.strip`),
 * ASCII digits (`\d`, `int`), upper-casing, substring search (`str.find`,
 * `re.search` for a literal), `str.split`, `str.join` and `str(int)`.
 */
module Text {
  import opened Wrappers

  /** Python's `str.isspace()`, the class that both `\s` and `str.strip()` use. */
  predicate IsSpace(c: char)
  {
    || ('\t' <= c <= '\r')
    || ('\U{1c}' <= c <= '\U{1f}')
    || c == ' '
    || c == '\U{85}'
    || c == '\U{a0}'
    || c == '\U{1680}'
    || ('\U{2000}' <= c <= '\U{200a}')
    || c == '\U{2028}'
    || c == '\U{2029}'
    || c == '\U{202f}'
    || c == '\U{205f}'
    || c == '\U{3000}'
  }

  predicate IsDigit(c: char)
  {
    '0' <= c <= '9'
  }

  predicate AllDigits(s: string)
  {
    forall i :: 0 <= i < |s| ==> IsDigit(s[i])
  }

  function DigitValue(c: char): (d: nat)
    requires IsDigit(c)
    ensures d < 10
  {
    c as int - '0' as int
  }

  function DigitChar(d: nat): (c: char)
    requires d < 10
    ensures IsDigit(c) && DigitValue(c) == d
  {
    ('0' as int + d) as char
  }

  /** `int(ds)` for a run of decimal digits. */
  function DigitsValue(ds: string): nat
    requires AllDigits(ds)
  {
    if ds == [] then 0
    else DigitsValue(ds[..|ds| - 1]) * 10 + DigitValue(ds[|ds| - 1])
  }

  /** `str(n)` for a non-negative integer. */
  function NatToString(n: nat): (s: string)
    ensures s != [] && AllDigits(s)
  {
    if n < 10 then [DigitChar(n)] else NatToString(n / 10) + [DigitChar(n % 10)]
  }

  /** `str(i)` (and an f-string field `{i}`) for any integer. */
  function IntToString(i: int): (s: string)
    ensures s != []
    ensures i >= 0 ==> AllDigits(s)
    ensures i < 0 ==> s[0] == '-'
  {
    if i < 0 then "-" + NatToString(-i) else NatToString(i)
  }

  /** Reading back the digits `str(n)` prints gives `n` again. */
  lemma {:induction false} NatToStringRoundTrip(n: nat)
    ensures DigitsValue(NatToString(n)) == n
  {
    var s := NatToString(n);
    if n >= 10 {
      NatToStringRoundTrip(n / 10);
      assert s[..|s| - 1] == NatToString(n / 10);
    }
  }

  function UpperChar(c: char): (u: char)
    ensures 'a' <= c <= 'z' ==> 'A' <= u <= 'Z'
    ensures !('a' <= c <= 'z') ==> u == c
  {
    if 'a' <= c <= 'z' then (c as int - 32) as char else c
  }

  /** `str.upper()` on the ASCII letters. */
  function Upper(s: string): (u: string)
    ensures |u| == |s|
    ensures forall i :: 0 <= i < |s| ==> u[i] == UpperChar(s[i])
  {
    seq(|s|, i requires 0 <= i < |s| => UpperChar(s[i]))
  }

  lemma UpperOfUpper(s: string)
    requires forall i :: 0 <= i < |s| ==> !('a' <= s[i] <= 'z')
    ensures Upper(s) == s
  {
  }

  predicate StartsWith(s: string, p: string)
  {
    |p| <= |s| && s[..|p|] == p
  }

  lemma SliceOfSlice(s: string, a: nat, b: nat, c: nat, d: nat)
    requires a <= b <= |s| && c <= d <= b - a
    ensures s[a..b][c..d] == s[a + c..a + d]
  {
    assert forall k :: 0 <= k < d - c ==> s[a..b][c..d][k] == s[a + c + k];
  }

  /** The literal `p` occurs in `s` at index `i`. */
  predicate OccursAt(s: string, p: string, i: int)
  {
    0 <= i && i + |p| <= |s| && s[i..i + |p|] == p
  }

  /** The literal `p` occurs in `s` at index `i` when ASCII case is ignored (`re.IGNORECASE`). */
  predicate OccursAtIgnoreCase(s: string, p: string, i: int)
  {
    0 <= i && i + |p| <= |s| && Upper(s[i..i + |p|]) == Upper(p)
  }

  /** The first index at or after `from` where `p` occurs. */
  function IndexOfFrom(s: string, p: string, from: nat): (r: Option<nat>)
    ensures r.Some? ==> from <= r.value && OccursAt(s, p, r.value)
    ensures r.Some? ==> forall j :: from <= j < r.value ==> !OccursAt(s, p, j)
    ensures r.None? ==> forall j :: from <= j ==> !OccursAt(s, p, j)
    decreases |s| - from
  {
    if from + |p| > |s| then None
    else if s[from..from + |p|] == p then Some(from)
    else IndexOfFrom(s, p, from + 1)
  }

  /** `s.find(p)`, with `None` for -1. */
  function IndexOf(s: string, p: string): (r: Option<nat>)
    ensures r.Some? ==> OccursAt(s, p, r.value)
    ensures r.Some? ==> forall j :: 0 <= j < r.value ==> !OccursAt(s, p, j)
    ensures r.None? ==> forall j :: 0 <= j ==> !OccursAt(s, p, j)
  {
    IndexOfFrom(s, p, 0)
  }

  /** `s.find(c)` for one character, with `None` for -1. */
  function IndexOfChar(s: string, c: char): (r: Option<nat>)
    ensures r.Some? ==> r.value < |s| && s[r.value] == c
    ensures r.Some? ==> forall j :: 0 <= j < r.value ==> s[j] != c
    ensures r.None? ==> forall j :: 0 <= j < |s| ==> s[j] != c
  {
    if s == [] then None
    else if s[0] == c then Some(0)
    else match IndexOfChar(s[1..], c)
      case None => None
      case Some(k) => Some(k + 1)
  }

  /** `s.rfind(c)` for one character, with `None` for -1. */
  function LastIndexOf(s: string, c: char): (r: Option<nat>)
    ensures r.Some? ==> r.value < |s| && s[r.value] == c
    ensures r.Some? ==> forall j :: r.value < j < |s| ==> s[j] != c
    ensures r.None? ==> forall j :: 0 <= j < |s| ==> s[j] != c
  {
    if s == [] then None
    else if s[|s| - 1] == c then Some(|s| - 1)
    else LastIndexOf(s[..|s| - 1], c)
  }

  /** `s.split(sep)`: the pieces between the non-overlapping occurrences of `sep`, left to right. */
  function Split(s: string, sep: string): (r: seq<string>)
    requires sep != []
    ensures |r| >= 1
    ensures forall k :: 0 <= k < |r| ==> IndexOf(r[k], sep).None?
    decreases |s|
  {
    match IndexOf(s, sep)
    case None => [s]
    case Some(i) =>
      var head := s[..i];
      assert forall j :: 0 <= j ==> !OccursAt(head, sep, j) by {
        forall j | 0 <= j && OccursAt(head, sep, j) ensures false {
          assert s[j..j + |sep|] == head[j..j + |sep|];
          assert OccursAt(s, sep, j) && j < i;
        }
      }
      [head] + Split(s[i + |sep|..], sep)
  }

  /** `sep.join(xs)`. */
  function Join(sep: string, xs: seq<string>): string
  {
    if xs == [] then ""
    else if |xs| == 1 then xs[0]
    else xs[0] + sep + Join(sep, xs[1..])
  }

  /** Splitting at the first occurrence of the separator. */
  lemma SplitAt(t: string, sep: string, i: nat)
    requires sep != [] && IndexOf(t, sep) == Some(i)
    ensures Split(t, sep) == [t[..i]] + Split(t[i + |sep|..], sep)
  {
  }

  lemma JoinCons(sep: string, head: string, tail: seq<string>)
    requires |tail| >= 1
    ensures Join(sep, [head] + tail) == head + sep + Join(sep, tail)
  {
    var xs := [head] + tail;
    assert xs[0] == head && xs[1..] == tail;
  }

  /** Joining the pieces of a split with the same separator gives the text back. */
  lemma {:induction false} JoinSplit(s: string, sep: string)
    requires sep != []
    ensures Join(sep, Split(s, sep)) == s
    decreases |s|
  {
    match IndexOf(s, sep)
    case None =>
    case Some(i) =>
      var rest := s[i + |sep|..];
      SplitAt(s, sep, i);
      JoinSplit(rest, sep);
      JoinCons(sep, s[..i], Split(rest, sep));
      assert s == s[..i] + sep + rest by {
        assert s[i..i + |sep|] == sep;
      }
  }

  function StripStart(s: string): (r: string)
    ensures |r| <= |s| && r == s[|s| - |r|..]
    ensures forall i :: 0 <= i < |s| - |r| ==> IsSpace(s[i])
    ensures r == [] || !IsSpace(r[0])
  {
    if s != [] && IsSpace(s[0]) then StripStart(s[1..]) else s
  }

  function StripEnd(s: string): (r: string)
    ensures |r| <= |s| && r == s[..|r|]
    ensures forall i :: |r| <= i < |s| ==> IsSpace(s[i])
    ensures r == [] || !IsSpace(r[|r| - 1])
  {
    if s != [] && IsSpace(s[|s| - 1]) then StripEnd(s[..|s| - 1]) else s
  }

  /** `s.strip()`. */
  function Strip(s: string): string
  {
    StripEnd(StripStart(s))
  }

  /** Trailing whitespace is stripped from the last part only, when that part holds a non-space. */
  lemma {:induction false} StripEndAppend(a: string, b: string, k: nat)
    requires k < |b| && !IsSpace(b[k])
    ensures StripEnd(a + b) == a + StripEnd(b)
    decreases |b|
  {
    if IsSpace(b[|b| - 1]) {
      assert (a + b)[..|a + b| - 1] == a + b[..|b| - 1];
      StripEndAppend(a, b[..|b| - 1], k);
    }
  }

  /** The end of the whitespace run that starts at `i` (what a greedy `\s*` consumes). */
  function SkipSpaces(s: string, i: nat): (j: nat)
    requires i <= |s|
    ensures i <= j <= |s|
    ensures forall k :: i <= k < j ==> IsSpace(s[k])
    ensures j == |s| || !IsSpace(s[j])
    decreases |s| - i
  {
    if i < |s| && IsSpace(s[i]) then SkipSpaces(s, i + 1) else i
  }

  /** The end of the digit run that starts at `i` (what a greedy `\d+` consumes). */
  function SkipDigits(s: string, i: nat): (j: nat)
    requires i <= |s|
    ensures i <= j <= |s|
    ensures AllDigits(s[i..j])
    ensures j == |s| || !IsDigit(s[j])
    decreases |s| - i
  {
    if i < |s| && IsDigit(s[i]) then SkipDigits(s, i + 1) else i
  }

  /**
   * The value matched by `tag\s*(\d+)/50` AT index `i`, if the pattern matches there.
   * Neither `\s*` nor `\d+` can give characters back to the next item (white space, digits
   * and '/' are disjoint), so the match at one index is unique.
   */
  function ScoreMarkerAt(s: string, tag: string, i: nat): Option<nat>
  {
    if !OccursAt(s, tag, i) then None
    else
      var j := SkipSpaces(s, i + |tag|);
      var k := SkipDigits(s, j);
      if j < k && OccursAt(s, "/50", k) then Some(DigitsValue(s[j..k])) else None
  }

  /** The leftmost index at or after `from` where `tag\s*(\d+)/50` matches. */
  function ScoreMarkerIndexFrom(s: string, tag: string, from: nat): (r: Option<nat>)
    ensures r.Some? ==> from <= r.value && ScoreMarkerAt(s, tag, r.value).Some?
    ensures r.Some? ==> forall j :: from <= j < r.value ==> ScoreMarkerAt(s, tag, j).None?
    ensures r.None? ==> forall j :: from <= j ==> ScoreMarkerAt(s, tag, j).None?
    decreases |s| - from
  {
    if from >= |s| then None
    else if ScoreMarkerAt(s, tag, from).Some? then Some(from)
    else ScoreMarkerIndexFrom(s, tag, from + 1)
  }

  /** `re.search(tag + r"\s*(\d+)/50", s)`, converted with `int`. */
  function SearchScoreMarker(s: string, tag: string): (r: Option<nat>)
    requires tag != []
    ensures r.Some? ==> exists i: nat :: ScoreMarkerAt(s, tag, i) == r &&
                                    forall j :: 0 <= j < i ==> ScoreMarkerAt(s, tag, j).None?
    ensures r.None? ==> forall i :: 0 <= i ==> ScoreMarkerAt(s, tag, i).None?
  {
    match ScoreMarkerIndexFrom(s, tag, 0)
    case None => None
    case Some(i) => ScoreMarkerAt(s, tag, i)
  }

  // ---- reading a file in text mode ----

  /**
   * The universal-newline translation of `Path.read_text`: "\r\n" and a lone '\r' each
   * become "\n"; every other character is kept.
   */
  function UniversalNewlines(s: string): string
    decreases |s|
  {
    if s == [] then []
    else if s[0] == '\r' then
      "\n" + UniversalNewlines(if |s| >= 2 && s[1] == '\n' then s[2..] else s[1..])
    else [s[0]] + UniversalNewlines(s[1..])
  }

  /** The translated text holds no carriage return. */
  lemma {:induction false} NewlinesRemoveReturns(s: string)
    ensures '\r' !in UniversalNewlines(s)
    decreases |s|
  {
    if s != [] {
      var rest := if s[0] == '\r' && |s| >= 2 && s[1] == '\n' then s[2..] else s[1..];
      NewlinesRemoveReturns(rest);
    }
  }

  /** A text without a carriage return reads back unchanged. */
  lemma {:induction false} NewlinesKeepPlainText(s: string)
    requires '\r' !in s
    ensures UniversalNewlines(s) == s
    decreases |s|
  {
    if s != [] {
      assert s[0] in s;
      assert forall c :: c in s[1..] ==> c in s;
      NewlinesKeepPlainText(s[1..]);
    }
  }

  /** Text appended after a part that does not end in '\r' is translated on its own. */
  lemma {:induction false} NewlinesAppend(a: string, b: string)
    requires a == [] || a[|a| - 1] != '\r'
    ensures UniversalNewlines(a + b) == UniversalNewlines(a) + UniversalNewlines(b)
    decreases |a|
  {
    if a != [] {
      var ab := a + b;
      assert ab[0] == a[0];
      if a[0] == '\r' {
        assert |a| >= 2 && ab[1] == a[1];
        var k := if a[1] == '\n' then 2 else 1;
        assert ab[k..] == a[k..] + b;
        NewlinesAppend(a[k..], b);
        assert UniversalNewlines(ab) == "\n" + UniversalNewlines(ab[k..]);
        assert UniversalNewlines(a) == "\n" + UniversalNewlines(a[k..]);
      } else {
        assert ab[1..] == a[1..] + b;
        NewlinesAppend(a[1..], b);
        assert UniversalNewlines(ab) == [a[0]] + UniversalNewlines(ab[1..]);
        assert UniversalNewlines(a) == [a[0]] + UniversalNewlines(a[1..]);
      }
    } else {
      assert a + b == b;
    }
  }

  /** "a\r\nb\rc" reads back as "a\nb\nc". */
  lemma NewlinesExample()
    ensures UniversalNewlines("a\r\nb\rc") == "a\nb\nc"
  {
    var s := "a\r\nb\rc";
    assert UniversalNewlines("") == "";
    assert UniversalNewlines("c") == "c";
    assert UniversalNewlines("\rc") == "\nc" by { assert "\rc"[1..] == "c"; }
    assert UniversalNewlines("b\rc") == "b\nc" by { assert "b\rc"[1..] == "\rc"; }
    assert UniversalNewlines("\r\nb\rc") == "\nb\nc" by { assert "\r\nb\rc"[2..] == "b\rc"; }
    assert s[1..] == "\r\nb\rc";
  }
}
