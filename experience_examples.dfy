/**
 * Worked inputs for `extract_experience_from_text`: a range such as
 * "1-3 years exp" counts as its upper figure, because the plain pattern
 * also matches its second number and the maximum is taken over all matches.
 */
module ExperienceExamples {
  import opened Options
  import opened Text
  import opened ExperiencePatterns

  lemma {:induction false} ScanFindsNothing(p: Pattern, s: string, i: nat)
    requires i <= |s|
    requires forall j :: i <= j <= |s| ==> MatchAt(p, s, j).None?
    ensures ScanFrom(p, s, i) == []
    decreases |s| - i
  {
    if i < |s| { ScanFindsNothing(p, s, i + 1); }
  }

  /** A keyword pattern cannot match a text lacking one of the keyword's characters. */
  lemma KeywordAbsent(s: string, kw: string, q: nat, i: nat)
    requires i <= |s| && q < |kw|
    requires forall j :: 0 <= j < |s| ==> s[j] != kw[q]
    ensures KeywordYearsAt(s, i, kw).None?
  {
    assert !StartsAt(s, kw, i) by {
      if i + |kw| <= |s| { assert s[i..i + |kw|][q] == s[i + q]; }
    }
  }

  const Range := "1-3 years exp"

  // The lemmas below take the text as a parameter equal to `Range`, which keeps
  // the verifier from unfolding every function applied to the literal.

  lemma RangeIsLowerCase(s: string)
    requires s == Range
    ensures Lower(s) == s
  {
    LowerNoUpper(s);
  }

  lemma FirstNumber(s: string)
    requires s == Range
    ensures NumberAt(s, 0) == Some((1, 1))
  {
    assert DigitEnd(s, 1) == 1;
    assert s[0..1] == "1";
    assert ParseDigits("1") == 1 by { assert "1"[..0] == []; }
  }

  lemma SecondNumber(s: string)
    requires s == Range
    ensures NumberAt(s, 2) == Some((3, 3))
  {
    assert DigitEnd(s, 3) == 3;
    assert s[2..3] == "3";
    assert ParseDigits("3") == 3 by { assert "3"[..0] == []; }
  }

  lemma TailAfterRange(s: string)
    requires s == Range
    ensures ExperienceTail(s, 3) == Some(13)
  {
    assert SpaceEnd(s, 4) == 4;
    assert s[4..8] == "year";
    assert YearsEnd(s, 4) == Some(9);
    assert SpaceEnd(s, 10) == 10;
    assert !StartsAt(s, "of", 10);
    assert s[10..13] == "exp";
    assert ExpWordEnd(s, 10) == Some(13);
  }

  lemma RangeAtStart(s: string)
    requires s == Range
    ensures RangeYearsOfExperienceAt(s, 0) == Some(Match(13, [1, 3]))
  {
    assert s[0] == '1' && s[1] == '-';
    assert Boundary(s, 0);
    FirstNumber(s); SecondNumber(s); TailAfterRange(s);
  }

  lemma NothingAtEnd(p: Pattern, s: string)
    requires s == Range
    ensures ScanFrom(p, s, 13) == []
  {
    assert !Boundary(s, 13) || !StartsAt(s, "minimum", 13);
    assert NumberAt(s, 13) == None;
    assert MatchAt(p, s, 13) == None;
  }

  lemma RangePatternOnRange(s: string)
    requires s == Range
    ensures FindAll(RangeYearsOfExperience, s) == [[1, 3]]
  {
    RangeAtStart(s);
    assert MatchAt(RangeYearsOfExperience, s, 0) == Some(Match(13, [1, 3]));
    NothingAtEnd(RangeYearsOfExperience, s);
  }

  lemma PlainAtStart(s: string)
    requires s == Range
    ensures YearsOfExperienceAt(s, 0) == None
  {
    FirstNumber(s);
    assert s[1..5] != "year";
    assert SpaceEnd(s, 1) == 1;
  }

  lemma PlainAtSecondNumber(s: string)
    requires s == Range
    ensures YearsOfExperienceAt(s, 2) == Some(Match(13, [3]))
  {
    assert s[1] == '-' && s[2] == '3' && s[3] == ' ';
    assert Boundary(s, 2);
    SecondNumber(s); TailAfterRange(s);
  }

  lemma PlainNotAtDash(s: string)
    requires s == Range
    ensures YearsOfExperienceAt(s, 1) == None
  {
    assert Boundary(s, 1);
    assert !IsDigit(s[1]);
  }

  lemma PlainPatternOnRange(s: string)
    requires s == Range
    ensures FindAll(YearsOfExperience, s) == [[3]]
  {
    PlainAtStart(s); PlainNotAtDash(s); PlainAtSecondNumber(s);
    assert MatchAt(YearsOfExperience, s, 0) == None;
    assert MatchAt(YearsOfExperience, s, 1) == None;
    assert MatchAt(YearsOfExperience, s, 2) == Some(Match(13, [3]));
    NothingAtEnd(YearsOfExperience, s);
  }

  lemma KeywordPatternsOnRange(s: string)
    requires s == Range
    ensures FindAll(MinimumYears, s) == [] && FindAll(AtLeastYears, s) == []
  {
    forall j | 0 <= j <= |s|
      ensures MatchAt(MinimumYears, s, j).None? && MatchAt(AtLeastYears, s, j).None?
    {
      KeywordAbsent(s, "minimum", 0, j);
      KeywordAbsent(s, "at least", 1, j);
    }
    ScanFindsNothing(MinimumYears, s, 0);
    ScanFindsNothing(AtLeastYears, s, 0);
  }

  lemma MatchesOfFour(ps: seq<Pattern>, s: string)
    requires |ps| == 4
    ensures MatchesOf(ps, s) == FindAll(ps[0], s) + FindAll(ps[1], s) + FindAll(ps[2], s) + FindAll(ps[3], s)
  {
    var f0, f1, f2, f3 := FindAll(ps[0], s), FindAll(ps[1], s), FindAll(ps[2], s), FindAll(ps[3], s);
    MatchesOfSnoc(ps, 0, s);
    assert ps[..0] == [];
    assert MatchesOf(ps[..1], s) == f0;
    MatchesOfSnoc(ps, 1, s);
    MatchesOfSnoc(ps, 2, s);
    MatchesOfSnoc(ps, 3, s);
    assert ps[..4] == ps;
    assert MatchesOf(ps, s) == f0 + f1 + f2 + f3;
  }

  lemma MatchesOnRange(s: string)
    requires s == Range
    ensures MatchesOf(ExperiencePhrases, s) == [[3], [1, 3]]
  {
    MatchesOfFour(ExperiencePhrases, s);
    PlainPatternOnRange(s);
    RangePatternOnRange(s);
    KeywordPatternsOnRange(s);
    assert [[3]] + [[1, 3]] + [] + [] == [[3], [1, 3]];
  }

  lemma MinimaOnRange() ensures Minima([[3], [1, 3]]) == [3, 1] {
    MinimaSnoc([[3]], [1, 3]);
    assert Minima([[3]]) == [3] by { assert [[3]][..0] == []; }
    assert [[3]] + [[1, 3]] == [[3], [1, 3]];
  }

  lemma MaximumOnRange() ensures MaxOrZero([3, 1]) == 3 {
    MaxOrZeroSnoc([3], 1);
    assert MaxOrZero([3]) == 3 by { assert [3][..0] == []; }
    assert [3] + [1] == [3, 1];
  }

  /** "1-3 years exp" yields 3: the range's lower bound 1 loses to the plain match of 3. */
  lemma RangeCountsAsUpperFigure() ensures ExperienceFigure(Some(Range)) == 3 {
    RangeIsLowerCase(Range);
    MatchesOnRange(Range);
    MinimaOnRange();
    MaximumOnRange();
  }
}
