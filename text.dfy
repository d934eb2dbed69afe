/**
 * The pieces of Python's string behaviour that the job-search funnel relies on:
 * the character classes of `re` (`\s`, `\w`, `\d`, `\b`), `str.lower`, `in`,
 * slicing, `replace`, `strip`, `join`, `str(int)` and the `{:,}` format.
 */
module Text {

  /** `str.isspace` (the class `\s` of a `re` pattern on a `str`): the full list. */
  predicate IsSpace(c: char) {
    c == ' ' || c == '\t' || c == '\n' || c == '\r' || c == '\U{0B}' || c == '\U{0C}'
    || ('\U{1C}' <= c <= '\U{1F}') || c == '\U{85}' || c == '\U{A0}' || c == '\U{1680}'
    || ('\U{2000}' <= c <= '\U{200A}') || c == '\U{2028}' || c == '\U{2029}'
    || c == '\U{202F}' || c == '\U{205F}' || c == '\U{3000}'
  }

  predicate IsDigit(c: char) { '0' <= c <= '9' }

  predicate IsLetter(c: char) { 'a' <= c <= 'z' || 'A' <= c <= 'Z' }

  /** A character of the class `\w`, restricted to ASCII. */
  predicate IsWordChar(c: char) { IsLetter(c) || IsDigit(c) || c == '_' }

  function LowerChar(c: char): (r: char)
    ensures 'A' <= c <= 'Z' ==> 'a' <= r <= 'z'
    ensures !('A' <= c <= 'Z') ==> r == c
    ensures IsWordChar(r) == IsWordChar(c) && IsSpace(r) == IsSpace(c)
  {
    if 'A' <= c <= 'Z' then (c as int - 'A' as int + 'a' as int) as char else c
  }

  /** `s.lower()` on the ASCII letters. */
  function Lower(s: string): (r: string)
    ensures |r| == |s|
    ensures forall i :: 0 <= i < |s| ==> r[i] == LowerChar(s[i])
  {
    if s == [] then [] else [LowerChar(s[0])] + Lower(s[1..])
  }

  lemma {:induction false} LowerIdempotent(s: string)
    ensures Lower(Lower(s)) == Lower(s)
  {
    if s != [] {
      LowerIdempotent(s[1..]);
      assert Lower(s)[1..] == Lower(s[1..]);
    }
  }

  /** Text without upper-case ASCII letters is its own lower-case form. */
  lemma LowerNoUpper(s: string)
    requires forall k :: 0 <= k < |s| ==> !('A' <= s[k] <= 'Z')
    ensures Lower(s) == s
  {
    assert forall k :: 0 <= k < |s| ==> Lower(s)[k] == s[k];
  }

  /** `w` occurs in `s` starting at index `i`. */
  predicate StartsAt(s: string, w: string, i: int) {
    0 <= i && i + |w| <= |s| && s[i..i + |w|] == w
  }

  /** Python's `w in s`. */
  predicate Contains(s: string, w: string) {
    exists i :: 0 <= i <= |s| - |w| && StartsAt(s, w, i)
  }

  /** A piece of either half occurs in the concatenation. */
  lemma ContainsInConcat(a: string, b: string, w: string)
    ensures Contains(a, w) ==> Contains(a + b, w)
    ensures Contains(b, w) ==> Contains(a + b, w)
  {
    if Contains(a, w) {
      var i :| 0 <= i <= |a| - |w| && StartsAt(a, w, i);
      assert (a + b)[i..i + |w|] == a[i..i + |w|];
      assert StartsAt(a + b, w, i);
    }
    if Contains(b, w) {
      var i :| 0 <= i <= |b| - |w| && StartsAt(b, w, i);
      assert (a + b)[|a| + i..|a| + i + |w|] == b[i..i + |w|];
      assert StartsAt(a + b, w, |a| + i);
    }
  }

  /** A piece placed between two others occurs in the whole. */
  lemma ContainsMiddle(a: string, w: string, b: string)
    ensures Contains(a + w + b, w)
  {
    assert (a + w + b)[|a|..|a| + |w|] == w;
    assert StartsAt(a + w + b, w, |a|);
  }

  /** What occurs in a piece of `s` occurs in `s`. */
  lemma ContainsTransitive(s: string, m: string, w: string)
    requires Contains(s, m) && Contains(m, w)
    ensures Contains(s, w)
  {
    var i :| 0 <= i <= |s| - |m| && StartsAt(s, m, i);
    var j :| 0 <= j <= |m| - |w| && StartsAt(m, w, j);
    forall t | 0 <= t < |w| ensures s[i + j + t] == w[t] {
      assert s[i..i + |m|][j + t] == s[i + j + t];
      assert m[j..j + |w|][t] == m[j + t];
    }
    assert s[i + j..i + j + |w|] == w;
    assert StartsAt(s, w, i + j);
  }

  /** `\b` at index `i` of `s` (0 <= i <= |s|): a word character on exactly one side. */
  predicate Boundary(s: string, i: int)
    requires 0 <= i <= |s|
  {
    (i > 0 && IsWordChar(s[i - 1])) != (i < |s| && IsWordChar(s[i]))
  }

  /** The end of the run of whitespace starting at `i` (what a greedy `\s*` consumes). */
  function SpaceEnd(s: string, i: nat): (r: nat)
    requires i <= |s|
    ensures i <= r <= |s|
    ensures forall k :: i <= k < r ==> IsSpace(s[k])
    ensures r == |s| || !IsSpace(s[r])
    decreases |s| - i
  {
    if i < |s| && IsSpace(s[i]) then SpaceEnd(s, i + 1) else i
  }

  /** The end of the run of digits starting at `i` (what a greedy `\d+` consumes). */
  function DigitEnd(s: string, i: nat): (r: nat)
    requires i <= |s|
    ensures i <= r <= |s|
    ensures forall k :: i <= k < r ==> IsDigit(s[k])
    ensures r == |s| || !IsDigit(s[r])
    decreases |s| - i
  {
    if i < |s| && IsDigit(s[i]) then DigitEnd(s, i + 1) else i
  }

  function DigitValue(c: char): nat requires IsDigit(c) { c as int - '0' as int }

  /** `int(d)` for a string of decimal digits (leading zeros allowed). */
  function ParseDigits(d: string): nat
    requires forall k :: 0 <= k < |d| ==> IsDigit(d[k])
  {
    if d == [] then 0 else ParseDigits(d[..|d| - 1]) * 10 + DigitValue(d[|d| - 1])
  }

  /** Python's slice `s[:n]`, where a negative `n` counts from the end. */
  function Prefix<T>(s: seq<T>, n: int): (r: seq<T>)
    ensures r <= s
    ensures 0 <= n <= |s| ==> |r| == n
    ensures n > |s| ==> r == s
    ensures n < 0 ==> |r| == if |s| + n > 0 then |s| + n else 0
  {
    if n >= 0 then (if n <= |s| then s[..n] else s)
    else if |s| + n > 0 then s[..|s| + n] else []
  }

  /** Python's `s.replace(pat, rep)` for a non-empty `pat`: leftmost, non-overlapping. */
  function ReplaceAll(s: string, pat: string, rep: string): (r: string)
    requires |pat| > 0
    ensures rep == [] ==> |r| <= |s|
    decreases |s|
  {
    if |s| < |pat| then s
    else if s[..|pat|] == pat then rep + ReplaceAll(s[|pat|..], pat, rep)
    else [s[0]] + ReplaceAll(s[1..], pat, rep)
  }

  /** Text that never holds the first character of `pat` comes back unchanged. */
  lemma {:induction false} ReplaceAllMissingChar(s: string, pat: string, rep: string)
    requires |pat| > 0
    requires forall k :: 0 <= k < |s| ==> s[k] != pat[0]
    ensures ReplaceAll(s, pat, rep) == s
    decreases |s|
  {
    if |s| >= |pat| {
      assert s[..|pat|][0] == s[0];
      ReplaceAllMissingChar(s[1..], pat, rep);
      assert [s[0]] + s[1..] == s;
    }
  }

  /** A stretch free of the first character of `pat` passes through the replacement unchanged. */
  lemma {:induction false} ReplaceAllSkipsFree(a: string, t: string, pat: string, rep: string)
    requires |pat| > 0
    requires forall k :: 0 <= k < |a| ==> a[k] != pat[0]
    ensures ReplaceAll(a + t, pat, rep) == a + ReplaceAll(t, pat, rep)
    decreases |a|
  {
    if a == [] {
      assert a + t == t;
    } else {
      var s := a + t;
      if |s| >= |pat| {
        assert s[..|pat|][0] == a[0];
        assert s[1..] == a[1..] + t;
        ReplaceAllSkipsFree(a[1..], t, pat, rep);
        assert [a[0]] + a[1..] == a;
      } else {
        assert ReplaceAll(t, pat, rep) == t;
      }
    }
  }

  /** An occurrence of `pat` at the front is replaced, and the scan resumes after it. */
  lemma ReplaceAllAtPattern(t: string, pat: string, rep: string)
    requires |pat| > 0
    ensures ReplaceAll(pat + t, pat, rep) == rep + ReplaceAll(t, pat, rep)
  {
    var s := pat + t;
    assert s[..|pat|] == pat;
    assert s[|pat|..] == t;
  }

  /** Replacing one character by another acts position by position and keeps the length. */
  lemma {:induction false} ReplaceCharPointwise(s: string, c: char, d: char)
    ensures |ReplaceAll(s, [c], [d])| == |s|
    ensures forall k :: 0 <= k < |s| ==> ReplaceAll(s, [c], [d])[k] == if s[k] == c then d else s[k]
    decreases |s|
  {
    if |s| > 0 {
      ReplaceCharPointwise(s[1..], c, d);
      var r := ReplaceAll(s, [c], [d]);
      assert s[..1] == [s[0]];
      assert r == (if s[0] == c then [d] else [s[0]]) + ReplaceAll(s[1..], [c], [d]);
    }
  }

  /** The start of the trailing run of whitespace of `s[..j]`, not going below `lo`. */
  function TrailStart(s: string, lo: nat, j: nat): (r: nat)
    requires lo <= j <= |s|
    ensures lo <= r <= j
    ensures forall k :: r <= k < j ==> IsSpace(s[k])
    ensures r == lo || !IsSpace(s[r - 1])
    decreases j
  {
    if j > lo && IsSpace(s[j - 1]) then TrailStart(s, lo, j - 1) else j
  }

  /**
   * Python's `s.strip()`: the result is a slice of `s` that neither starts nor
   * ends with whitespace, and only whitespace was cut away.
   */
  function Strip(s: string): (r: string)
    ensures r == [] || (!IsSpace(r[0]) && !IsSpace(r[|r| - 1]))
    ensures exists a, b ::
      && 0 <= a <= b <= |s| && r == s[a..b]
      && (forall j :: 0 <= j < a ==> IsSpace(s[j]))
      && (forall j :: b <= j < |s| ==> IsSpace(s[j]))
  {
    var a := SpaceEnd(s, 0);
    var b := TrailStart(s, a, |s|);
    s[a..b]
  }

  /** Text that neither starts nor ends with whitespace is its own `strip()`. */
  lemma StripUnpadded(s: string)
    requires s != [] && !IsSpace(s[0]) && !IsSpace(s[|s| - 1])
    ensures Strip(s) == s
  {
    assert SpaceEnd(s, 0) == 0;
    assert TrailStart(s, 0, |s|) == |s|;
    assert s[0..|s|] == s;
  }

  /** Python's `sep.join(items)`. */
  function Join(sep: string, items: seq<string>): (r: string)
    ensures |items| == 1 ==> r == items[0]
    ensures |items| > 1 ==> r == Join(sep, items[..|items| - 1]) + sep + items[|items| - 1]
  {
    if items == [] then ""
    else if |items| == 1 then items[0]
    else Join(sep, items[..|items| - 1]) + sep + items[|items| - 1]
  }

  /** Every item occurs in the joined text. */
  lemma {:induction false} JoinContainsItems(sep: string, items: seq<string>, k: nat)
    requires k < |items|
    ensures Contains(Join(sep, items), items[k])
    decreases |items|
  {
    var n := |items|;
    if n == 1 {
      ContainsMiddle("", items[0], "");
      assert "" + items[0] + "" == items[0];
    } else if k == n - 1 {
      ContainsMiddle(Join(sep, items[..n - 1]) + sep, items[k], "");
      assert Join(sep, items[..n - 1]) + sep + items[k] + "" == Join(sep, items);
    } else {
      JoinContainsItems(sep, items[..n - 1], k);
      ContainsInConcat(Join(sep, items[..n - 1]), sep + items[n - 1], items[k]);
      assert Join(sep, items[..n - 1]) + (sep + items[n - 1]) == Join(sep, items);
    }
  }

  function DigitChar(d: nat): (c: char)
    requires d < 10
    ensures IsDigit(c) && DigitValue(c) == d
  {
    ('0' as int + d) as char
  }

  /** Python's `str(n)` for a natural number. */
  function NatString(n: nat): (r: string)
    ensures |r| > 0 && forall k :: 0 <= k < |r| ==> IsDigit(r[k])
    ensures ParseDigits(r) == n
    ensures |r| > 1 ==> r[0] != '0'
  {
    if n < 10 then [DigitChar(n)]
    else
      var r := NatString(n / 10) + [DigitChar(n % 10)];
      assert r[..|r| - 1] == NatString(n / 10);
      r
  }

  /** Python's `str(n)` for an integer. */
  function IntString(n: int): (r: string)
    ensures n >= 0 ==> r == NatString(n)
    ensures n < 0 ==> r == "-" + NatString(-n)
  {
    if n >= 0 then NatString(n) else "-" + NatString(-n)
  }

  /** Groups a digit string in threes from the right, with `,` between groups. */
  function GroupDigits(d: string): (r: string)
    decreases |d|
  {
    if |d| <= 3 then d else GroupDigits(d[..|d| - 3]) + "," + d[|d| - 3..]
  }

  /** Python's `f"{n:,}"` for an integer. */
  function ThousandsString(n: int): string {
    (if n < 0 then "-" else "") + GroupDigits(NatString(if n < 0 then -n else n))
  }

  /** `s` with every `,` removed. */
  function WithoutCommas(s: string): (r: string)
    ensures |r| <= |s|
  {
    if s == [] then [] else (if s[0] == ',' then [] else [s[0]]) + WithoutCommas(s[1..])
  }

  lemma {:induction false} WithoutCommasAppend(a: string, b: string)
    ensures WithoutCommas(a + b) == WithoutCommas(a) + WithoutCommas(b)
  {
    if a != [] {
      var head := if a[0] == ',' then [] else [a[0]];
      assert (a + b)[0] == a[0] && (a + b)[1..] == a[1..] + b;
      calc {
        WithoutCommas(a + b);
        head + WithoutCommas(a[1..] + b);
        { WithoutCommasAppend(a[1..], b); }
        head + (WithoutCommas(a[1..]) + WithoutCommas(b));
        (head + WithoutCommas(a[1..])) + WithoutCommas(b);
      }
    } else {
      assert a + b == b;
    }
  }

  lemma {:induction false} WithoutCommasNoComma(s: string)
    requires forall k :: 0 <= k < |s| ==> s[k] != ','
    ensures WithoutCommas(s) == s
  {
    if s != [] { WithoutCommasNoComma(s[1..]); }
  }

  lemma WithoutCommasAroundComma(h: string, t: string)
    ensures WithoutCommas(h + "," + t) == WithoutCommas(h) + WithoutCommas(t)
  {
    var c := ",";
    assert WithoutCommas(c) == [] by {
      assert c[0] == ',' && c[1..] == [];
    }
    WithoutCommasAppend(h + c, t);
    WithoutCommasAppend(h, c);
  }

  lemma DigitsHaveNoComma(d: string)
    requires forall k :: 0 <= k < |d| ==> IsDigit(d[k])
    ensures WithoutCommas(d) == d
  {
    WithoutCommasNoComma(d);
  }

  /** The grouped digits read back as the digits themselves once the separators are dropped. */
  lemma {:induction false} GroupDigitsDropsToDigits(d: string)
    requires forall k :: 0 <= k < |d| ==> IsDigit(d[k])
    ensures WithoutCommas(GroupDigits(d)) == d
  {
    if |d| <= 3 {
      DigitsHaveNoComma(d);
    } else {
      var front := d[..|d| - 3];
      var t := d[|d| - 3..];
      assert forall k :: 0 <= k < |front| ==> IsDigit(front[k]);
      assert forall k :: 0 <= k < |t| ==> IsDigit(t[k]);
      GroupDigitsDropsToDigits(front);
      DigitsHaveNoComma(t);
      WithoutCommasAroundComma(GroupDigits(front), t);
      assert front + t == d;
    }
  }

  lemma NatStringAppendsDigit(n: nat)
    requires n >= 10
    ensures NatString(n) == NatString(n / 10) + [DigitChar(n % 10)]
  {
  }

  lemma NatStringOf800000()
    ensures NatString(800000) == "800000"
  {
    assert NatString(8) == "8";
    NatStringAppendsDigit(80);
    NatStringAppendsDigit(800);
    NatStringAppendsDigit(8000);
    NatStringAppendsDigit(80000);
    NatStringAppendsDigit(800000);
  }

  lemma ThousandsExample()
    ensures ThousandsString(800000) == "800,000"
  {
    NatStringOf800000();
    var d := "800000";
    assert d[..|d| - 3] == "800" && d[|d| - 3..] == "000";
    assert GroupDigits(d) == "800" + "," + "000";
  }

  /** The `,` grouping never changes the number: drop the commas and `str(n)` is left. */
  lemma ThousandsStringReadsBack(n: int)
    ensures WithoutCommas(ThousandsString(n)) == IntString(n)
  {
    var m := if n < 0 then -n else n;
    GroupDigitsDropsToDigits(NatString(m));
    if n < 0 {
      WithoutCommasAppend("-", GroupDigits(NatString(m)));
    } else {
      assert ThousandsString(n) == GroupDigits(NatString(m));
    }
  }
}
