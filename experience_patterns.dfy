/**
 * `extract_experience_from_text` (keyword_filter.py:169-194): the four regular
 * expressions it scans for, written out as recognisers over lower-cased text,
 * Python's `re.findall` scan, and the figure it returns.
 *
 * Each recogniser follows the regex engine's greedy path. Every backtracking
 * alternative of these four patterns fails wherever the greedy path fails (a
 * shorter `\d+` or `\s*` leaves a digit or a space where a letter is needed,
 * dropping the optional `s`, `+` or `of` leaves a letter no later item accepts),
 * so a pattern matches at a position exactly when its recogniser does, and
 * over the same span.
 */
module ExperiencePatterns {
  import opened Options
  import opened Text

  /** The four entries of `experience_phrases`, in the order the loop scans them. */
  datatype Pattern =
    | YearsOfExperience       // \b(\d+)\+?\s*years?\s*(of\s*)?(experience|exp)\b
    | RangeYearsOfExperience  // \b(\d+)-(\d+)\s*years?\s*(of\s*)?(experience|exp)\b
    | MinimumYears            // \bminimum\s*(\d+)\s*years?\b
    | AtLeastYears            // \bat least\s*(\d+)\s*years?\b

  const ExperiencePhrases: seq<Pattern> :=
    [YearsOfExperience, RangeYearsOfExperience, MinimumYears, AtLeastYears]

  /** One match: where it ends and the numbers of its digit groups, left to right. */
  datatype Match = Match(end: nat, numbers: seq<nat>)

  /** `years?` at `k`: the literal `year` and, greedily, an `s`. */
  function YearsEnd(s: string, k: nat): (r: Option<nat>)
    requires k <= |s|
    ensures r.Some? ==> k + 4 <= r.value <= |s|
  {
    if StartsAt(s, "year", k) then Some(if k + 4 < |s| && s[k + 4] == 's' then k + 5 else k + 4)
    else None
  }

  /** `years?\b` at `k`; when the `s` is followed by a word character, dropping it cannot help. */
  function BoundedYearsEnd(s: string, k: nat): (r: Option<nat>)
    requires k <= |s|
    ensures r.Some? ==> k + 4 <= r.value <= |s| && Boundary(s, r.value)
  {
    match YearsEnd(s, k)
    case None => None
    case Some(e) => if Boundary(s, e) then Some(e) else None
  }

  /** `(experience|exp)\b` at `k`: the first alternative is tried first. */
  function ExpWordEnd(s: string, k: nat): (r: Option<nat>)
    requires k <= |s|
    ensures r.Some? ==> k + 3 <= r.value <= |s| && Boundary(s, r.value)
  {
    if StartsAt(s, "experience", k) && Boundary(s, k + 10) then Some(k + 10)
    else if StartsAt(s, "exp", k) && Boundary(s, k + 3) then Some(k + 3)
    else None
  }

  /** `\s*years?\s*(of\s*)?(experience|exp)\b` at `k`, the common tail of the first two patterns. */
  function ExperienceTail(s: string, k: nat): (r: Option<nat>)
    requires k <= |s|
    ensures r.Some? ==> k + 7 <= r.value <= |s|
  {
    var a := SpaceEnd(s, k);
    match YearsEnd(s, a)
    case None => None
    case Some(c) =>
      var d := SpaceEnd(s, c);
      var e := if StartsAt(s, "of", d) then SpaceEnd(s, d + 2) else d;
      ExpWordEnd(s, e)
  }

  /** `\b(\d+)` at `i`: the digit run and its value. */
  function NumberAt(s: string, i: nat): (r: Option<(nat, nat)>)
    requires i <= |s|
    ensures r.Some? ==> i < r.value.0 <= |s|
  {
    if i < |s| && IsDigit(s[i]) then
      var j := DigitEnd(s, i);
      Some((j, ParseDigits(s[i..j])))
    else None
  }

  /** `keyword\s*(\d+)\s*years?\b` at `i`, for the last two patterns. */
  function KeywordYearsAt(s: string, i: nat, keyword: string): (r: Option<Match>)
    requires i <= |s| && |keyword| > 0
    ensures r.Some? ==> i < r.value.end <= |s| && |r.value.numbers| == 1
  {
    if !(Boundary(s, i) && StartsAt(s, keyword, i)) then None
    else
      match NumberAt(s, SpaceEnd(s, i + |keyword|))
      case None => None
      case Some((j, n)) =>
        match BoundedYearsEnd(s, SpaceEnd(s, j))
        case None => None
        case Some(e) => Some(Match(e, [n]))
  }

  /** `\b(\d+)\+?` followed by the common tail, at `i`. */
  function YearsOfExperienceAt(s: string, i: nat): (r: Option<Match>)
    requires i <= |s|
    ensures r.Some? ==> i < r.value.end <= |s| && |r.value.numbers| == 1
  {
    if !Boundary(s, i) then None
    else
      match NumberAt(s, i)
      case None => None
      case Some((j, n)) =>
        var k := if j < |s| && s[j] == '+' then j + 1 else j;
        match ExperienceTail(s, k)
        case None => None
        case Some(e) => Some(Match(e, [n]))
  }

  /** `\b(\d+)-(\d+)` followed by the common tail, at `i`. */
  function RangeYearsOfExperienceAt(s: string, i: nat): (r: Option<Match>)
    requires i <= |s|
    ensures r.Some? ==> i < r.value.end <= |s| && |r.value.numbers| == 2
  {
    if !Boundary(s, i) then None
    else
      match NumberAt(s, i)
      case None => None
      case Some((j, n1)) =>
        if !(j < |s| && s[j] == '-') then None
        else
          match NumberAt(s, j + 1)
          case None => None
          case Some((k, n2)) =>
            match ExperienceTail(s, k)
            case None => None
            case Some(e) => Some(Match(e, [n1, n2]))
  }

  /** Whether, and how, `p` matches `s` starting exactly at index `i`. */
  function MatchAt(p: Pattern, s: string, i: nat): (r: Option<Match>)
    requires i <= |s|
    ensures r.Some? ==> i < r.value.end <= |s| && |r.value.numbers| > 0
  {
    match p
    case YearsOfExperience => YearsOfExperienceAt(s, i)
    case RangeYearsOfExperience => RangeYearsOfExperienceAt(s, i)
    case MinimumYears => KeywordYearsAt(s, i, "minimum")
    case AtLeastYears => KeywordYearsAt(s, i, "at least")
  }

  /** `re.findall` from index `i` on: leftmost matches, each search resuming where the last match ended. */
  function ScanFrom(p: Pattern, s: string, i: nat): (r: seq<seq<nat>>)
    requires i <= |s|
    ensures forall k :: 0 <= k < |r| ==> |r[k]| > 0
    decreases |s| - i
  {
    match MatchAt(p, s, i)
    case Some(m) => [m.numbers] + ScanFrom(p, s, m.end)
    case None => if i == |s| then [] else ScanFrom(p, s, i + 1)
  }

  /** `re.findall(p, s)`: the digit groups of every match, in text order. */
  function FindAll(p: Pattern, s: string): (r: seq<seq<nat>>)
    ensures forall k :: 0 <= k < |r| ==> |r[k]| > 0
  {
    ScanFrom(p, s, 0)
  }

  /** Python's `min(numbers)`. */
  function MinOf(ns: seq<nat>): (r: nat)
    requires |ns| > 0
    ensures r in ns
    ensures forall k :: 0 <= k < |ns| ==> r <= ns[k]
  {
    if |ns| == 1 then ns[0]
    else
      var m := MinOf(ns[1..]);
      assert forall k :: 1 <= k < |ns| ==> ns[1..][k - 1] == ns[k];
      if ns[0] <= m then ns[0] else m
  }

  /** The largest of `xs`, or 0 when there is none: the running `max(min_exp, ...)` started at 0. */
  function MaxOrZero(xs: seq<nat>): (r: nat)
    ensures forall k :: 0 <= k < |xs| ==> xs[k] <= r
    ensures r == 0 || r in xs
  {
    if xs == [] then 0
    else
      var m := MaxOrZero(xs[..|xs| - 1]);
      assert forall k :: 0 <= k < |xs| - 1 ==> xs[..|xs| - 1][k] == xs[k];
      if xs[|xs| - 1] > m then xs[|xs| - 1] else m
  }

  /** The smallest number of each match, in scan order. */
  function Minima(ms: seq<seq<nat>>): (r: seq<nat>)
    requires forall k :: 0 <= k < |ms| ==> |ms[k]| > 0
    ensures |r| == |ms|
  {
    if ms == [] then [] else Minima(ms[..|ms| - 1]) + [MinOf(ms[|ms| - 1])]
  }

  /** Every match of the patterns `ps` over `s`: pattern after pattern, each in text order. */
  function MatchesOf(ps: seq<Pattern>, s: string): (r: seq<seq<nat>>)
    ensures forall k :: 0 <= k < |r| ==> |r[k]| > 0
  {
    if ps == [] then [] else MatchesOf(ps[..|ps| - 1], s) + FindAll(ps[|ps| - 1], s)
  }

  /**
   * The figure `extract_experience_from_text` returns: 0 for an empty or
   * missing text, otherwise the largest of the per-match minima over all four
   * patterns (0 when nothing matches).
   */
  function ExperienceFigure(text: Option<string>): nat {
    if text.None? || text.value == "" then 0
    else MaxOrZero(Minima(MatchesOf(ExperiencePhrases, Lower(text.value))))
  }

  lemma {:induction false} MaxOrZeroSnoc(xs: seq<nat>, x: nat)
    ensures MaxOrZero(xs + [x]) == if x > MaxOrZero(xs) then x else MaxOrZero(xs)
  {
    assert (xs + [x])[..|xs|] == xs;
  }

  lemma {:induction false} MinimaSnoc(ms: seq<seq<nat>>, m: seq<nat>)
    requires |m| > 0 && forall k :: 0 <= k < |ms| ==> |ms[k]| > 0
    ensures Minima(ms + [m]) == Minima(ms) + [MinOf(m)]
  {
    assert (ms + [m])[..|ms|] == ms;
  }

  lemma {:induction false} MatchesOfSnoc(ps: seq<Pattern>, i: nat, s: string)
    requires i < |ps|
    ensures MatchesOf(ps[..i + 1], s) == MatchesOf(ps[..i], s) + FindAll(ps[i], s)
  {
    assert ps[..i + 1][..i] == ps[..i];
  }

  /** One turn of the inner loop: the next match's minimum joins the running maximum. */
  lemma RunningMaximumStep(before: seq<seq<nat>>, matches: seq<seq<nat>>, j: nat)
    requires j < |matches|
    requires forall k :: 0 <= k < |before| ==> |before[k]| > 0
    requires forall k :: 0 <= k < |matches| ==> |matches[k]| > 0
    ensures MaxOrZero(Minima(before + matches[..j + 1]))
      == var m := MaxOrZero(Minima(before + matches[..j])); if MinOf(matches[j]) > m then MinOf(matches[j]) else m
  {
    assert before + matches[..j + 1] == (before + matches[..j]) + [matches[j]];
    MinimaSnoc(before + matches[..j], matches[j]);
    MaxOrZeroSnoc(Minima(before + matches[..j]), MinOf(matches[j]));
  }

  /**
   * `extract_experience_from_text` (keyword_filter.py:169-194): the nested loop
   * over patterns and their `findall` matches keeps the running maximum of each
   * match's smallest digit group.
   */
  method ExtractExperienceFromText(text: Option<string>) returns (minExp: nat)
    ensures minExp == ExperienceFigure(text)
  {
    if text.None? || text.value == "" {
      return 0;
    }
    var textLower := Lower(text.value);
    minExp := 0;
    for i := 0 to |ExperiencePhrases|
      invariant minExp == MaxOrZero(Minima(MatchesOf(ExperiencePhrases[..i], textLower)))
    {
      var matches := FindAll(ExperiencePhrases[i], textLower);
      ghost var before := MatchesOf(ExperiencePhrases[..i], textLower);
      assert before + matches[..0] == before;
      for j := 0 to |matches|
        invariant minExp == MaxOrZero(Minima(before + matches[..j]))
      {
        var numbers := matches[j];
        RunningMaximumStep(before, matches, j);
        if |numbers| > 0 {
          var least := MinOf(numbers);
          minExp := if least > minExp then least else minExp;
        }
      }
      assert matches[..|matches|] == matches;
      MatchesOfSnoc(ExperiencePhrases, i, textLower);
    }
    assert ExperiencePhrases[..|ExperiencePhrases|] == ExperiencePhrases;
  }

  /** `numbers` are the digit groups of a match of `experience_phrases` in the lower-cased `text`. */
  ghost predicate IsPhraseMatch(text: string, numbers: seq<nat>) {
    numbers in MatchesOf(ExperiencePhrases, Lower(text))
  }

  lemma {:induction false} MinimaMembership(ms: seq<seq<nat>>, x: nat)
    requires forall k :: 0 <= k < |ms| ==> |ms[k]| > 0
    ensures x in Minima(ms) <==> exists m :: m in ms && x == MinOf(m)
  {
    if ms != [] {
      var init := ms[..|ms| - 1];
      MinimaMembership(init, x);
      assert ms == init + [ms[|ms| - 1]];
      if x in Minima(ms) && x !in Minima(init) {
        assert x == MinOf(ms[|ms| - 1]);
      }
    }
  }

  /** A match of some pattern is a match of the list, and nothing else is. */
  lemma {:induction false} MatchesOfMembership(ps: seq<Pattern>, s: string, m: seq<nat>)
    ensures m in MatchesOf(ps, s) <==> exists p :: p in ps && m in FindAll(p, s)
  {
    if ps != [] {
      var init := ps[..|ps| - 1];
      var last := ps[|ps| - 1];
      MatchesOfMembership(init, s, m);
      assert MatchesOf(ps, s) == MatchesOf(init, s) + FindAll(last, s);
      assert forall p :: p in ps <==> p in init || p == last by {
        assert ps == init + [last];
      }
      if m in MatchesOf(ps, s) {
        if m in FindAll(last, s) {
          assert last in ps;
        } else {
          assert m in MatchesOf(init, s);
        }
      }
    }
  }

  /**
   * The figure is the largest, over every match of every pattern, of the
   * smallest number in the match: no match has a smaller minimum than the
   * figure, and a non-zero figure is the minimum of some match.
   */
  lemma ExperienceFigureIsLargestMinimum(text: string)
    ensures forall m :: IsPhraseMatch(text, m) ==> MinOf(m) <= ExperienceFigure(Some(text))
    ensures ExperienceFigure(Some(text)) == 0
      || exists m :: IsPhraseMatch(text, m) && MinOf(m) == ExperienceFigure(Some(text))
  {
    var ms := MatchesOf(ExperiencePhrases, Lower(text));
    var fig := ExperienceFigure(Some(text));
    if text == "" {
      EmptyTextHasNoMatches(ExperiencePhrases);
      assert Lower(text) == "";
    } else {
      forall m | IsPhraseMatch(text, m) ensures MinOf(m) <= fig {
        MinimaMembership(ms, MinOf(m));
      }
      if fig != 0 {
        MinimaMembership(ms, fig);
      }
    }
  }

  /** No pattern matches the empty text. */
  lemma {:induction false} EmptyTextHasNoMatches(ps: seq<Pattern>)
    ensures MatchesOf(ps, "") == []
  {
    if ps != [] {
      EmptyTextHasNoMatches(ps[..|ps| - 1]);
      var p := ps[|ps| - 1];
      assert MatchAt(p, "", 0).None? by {
        assert NumberAt("", 0).None?;
        assert !StartsAt("", "minimum", 0) && !StartsAt("", "at least", 0);
      }
    }
  }

  /** A match of any one of the four patterns counts towards the figure. */
  lemma PatternMatchIsPhraseMatch(text: string, p: Pattern, m: seq<nat>)
    requires m in FindAll(p, Lower(text))
    ensures IsPhraseMatch(text, m)
  {
    assert p in ExperiencePhrases by { assert p == ExperiencePhrases[if p.YearsOfExperience? then 0 else if p.RangeYearsOfExperience? then 1 else if p.MinimumYears? then 2 else 3]; }
    MatchesOfMembership(ExperiencePhrases, Lower(text), m);
  }
}
