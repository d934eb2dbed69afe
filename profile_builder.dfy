/**
 * `create_ideal_candidate_profile` (modules/profile_builder.py): the English
 * list phrasing of the search terms and locations, and the profile text that
 * the similarity stage compares job postings against. The locations, search
 * terms, experience band and salary floor are parameters.
 */
module ProfileBuilder {
  import opened Options
  import opened Text

  /**
   * The list phrasing (modules/profile_builder.py:9-12, 16-19): one item alone,
   * several as "a, b, or c"; `None` for the `IndexError` an empty list raises.
   */
  function JoinOr(items: seq<string>): (r: Option<string>)
    ensures r.None? <==> items == []
    ensures |items| == 1 ==> r == Some(items[0])
    ensures r.Some? ==> forall k :: 0 <= k < |items| ==> Contains(r.value, items[k])
  {
    if |items| > 1 then
      var n := |items|;
      var front := Join(", ", items[..n - 1]);
      forall k | 0 <= k < n ensures Contains(front + ", or " + items[n - 1], items[k]) {
        if k == n - 1 {
          ContainsMiddle(front + ", or ", items[k], "");
          assert front + ", or " + items[k] + "" == front + ", or " + items[n - 1];
        } else {
          JoinContainsItems(", ", items[..n - 1], k);
          ContainsInConcat(front, ", or " + items[n - 1], items[k]);
          assert front + (", or " + items[n - 1]) == front + ", or " + items[n - 1];
        }
      }
      Some(front + ", or " + items[n - 1])
    else if |items| == 1 then
      ContainsMiddle("", items[0], "");
      assert "" + items[0] + "" == items[0];
      Some(items[0])
    else None
  }

  /** Two items are joined by ", or " alone. */
  lemma JoinOrTwo(a: string, b: string)
    ensures JoinOr([a, b]) == Some(a + ", or " + b)
  {
    assert [a, b][..1] == [a];
  }

  /** Three items read "a, b, or c". */
  lemma JoinOrThree(a: string, b: string, c: string)
    ensures JoinOr([a, b, c]) == Some(a + ", " + b + ", or " + c)
  {
    assert [a, b, c][..2] == [a, b];
    assert [a, b][..1] == [a];
  }

  const Opening := "\nAn ideal candidate profile for a job search.\nThe candidate is seeking a position as a "
  const BeforeMin := ".\nThey are looking for roles with an experience requirement between "
  const BeforeMax := " and "
  const BeforeLocations := " years.\nThe preferred locations are "
  const BeforeSalary := ".\nThe target minimum annual salary is "
  const BeforeResume := " INR.\n\nThe candidate's skills and background are summarized below:\n---\n"

  /** The pieces of the f-string up to the salary figure, in order. */
  function PreferencePieces(titles: string, minExp: int, maxExp: int, locations: string, minSalary: int): seq<string>
  {
    [Opening, titles, BeforeMin, IntString(minExp), BeforeMax, IntString(maxExp), BeforeLocations, locations,
     BeforeSalary, ThousandsString(minSalary)]
  }

  function ProfileText(titles: string, minExp: int, maxExp: int, locations: string, minSalary: int,
                       resumeText: string): string
  {
    Join("", PreferencePieces(titles, minExp, maxExp, locations, minSalary)) + BeforeResume + resumeText + "\n"
  }

  /**
   * `create_ideal_candidate_profile` (modules/profile_builder.py:9-31): `None`
   * when either list is empty, otherwise the profile text.
   */
  function CreateIdealCandidateProfile(resumeText: string, targetLocations: seq<string>, searchTerms: seq<string>,
                                       minExperienceYears: int, maxExperienceYears: int, minSalaryInr: int): (r: Option<string>)
    ensures r.None? <==> targetLocations == [] || searchTerms == []
    ensures r.Some? ==> |r.value| >= |resumeText| + 5
    ensures r.Some? ==> r.value[|r.value| - |resumeText| - 5..] == "---\n" + resumeText + "\n"
  {
    match (JoinOr(targetLocations), JoinOr(searchTerms))
    case (Some(locs), Some(titles)) =>
      var p := ProfileText(titles, minExperienceYears, maxExperienceYears, locs, minSalaryInr, resumeText);
      ResumeClosesProfile(titles, minExperienceYears, maxExperienceYears, locs, minSalaryInr, resumeText);
      Some(p)
    case _ => None
  }

  lemma ResumeClosesProfile(titles: string, minExp: int, maxExp: int, locations: string, minSalary: int,
                            resumeText: string)
    ensures var p := ProfileText(titles, minExp, maxExp, locations, minSalary, resumeText);
      |p| >= |resumeText| + 5 && p[|p| - |resumeText| - 5..] == "---\n" + resumeText + "\n"
  {
    var head := Join("", PreferencePieces(titles, minExp, maxExp, locations, minSalary));
    var b := BeforeResume;
    DashesCloseBeforeResume(b);
    var p := head + b + resumeText + "\n";
    assert p[|p| - |resumeText| - 5..] == b[|b| - 4..] + resumeText + "\n";
  }

  lemma DashesCloseBeforeResume(b: string)
    requires b == BeforeResume
    ensures |b| >= 4 && b[|b| - 4..] == "---\n"
  {
  }

  /**
   * The profile mentions every location and search term, both ends of the
   * experience band as `str(n)`, and the salary floor with thousands separators
   * (modules/profile_builder.py:24-26).
   */
  lemma ProfileStatesPreferences(resumeText: string, targetLocations: seq<string>, searchTerms: seq<string>,
                                 minExperienceYears: int, maxExperienceYears: int, minSalaryInr: int)
    requires targetLocations != [] && searchTerms != []
    ensures var p := CreateIdealCandidateProfile(resumeText, targetLocations, searchTerms, minExperienceYears,
                                                 maxExperienceYears, minSalaryInr).value;
      && Contains(p, IntString(minExperienceYears))
      && Contains(p, IntString(maxExperienceYears))
      && Contains(p, ThousandsString(minSalaryInr))
      && (forall k :: 0 <= k < |targetLocations| ==> Contains(p, targetLocations[k]))
      && (forall k :: 0 <= k < |searchTerms| ==> Contains(p, searchTerms[k]))
  {
    var locs := JoinOr(targetLocations).value;
    var titles := JoinOr(searchTerms).value;
    var p := ProfileText(titles, minExperienceYears, maxExperienceYears, locs, minSalaryInr, resumeText);
    ProfileTextStates(titles, minExperienceYears, maxExperienceYears, locs, minSalaryInr, resumeText);
    forall k | 0 <= k < |targetLocations| ensures Contains(p, targetLocations[k]) {
      ContainsTransitive(p, locs, targetLocations[k]);
    }
    forall k | 0 <= k < |searchTerms| ensures Contains(p, searchTerms[k]) {
      ContainsTransitive(p, titles, searchTerms[k]);
    }
  }

  lemma ProfileTextStates(titles: string, minExp: int, maxExp: int, locations: string, minSalary: int,
                          resumeText: string)
    ensures var p := ProfileText(titles, minExp, maxExp, locations, minSalary, resumeText);
      && Contains(p, titles) && Contains(p, IntString(minExp)) && Contains(p, IntString(maxExp))
      && Contains(p, locations) && Contains(p, ThousandsString(minSalary))
  {
    var ps := PreferencePieces(titles, minExp, maxExp, locations, minSalary);
    PiecesOccur(ps, BeforeResume, resumeText);
    assert ps[1] == titles && ps[3] == IntString(minExp) && ps[5] == IntString(maxExp);
    assert ps[7] == locations && ps[9] == ThousandsString(minSalary);
  }

  lemma PiecesOccur(ps: seq<string>, b: string, resumeText: string)
    ensures forall k :: 0 <= k < |ps| ==> Contains(Join("", ps) + b + resumeText + "\n", ps[k])
  {
    var tail := b + resumeText + "\n";
    assert Join("", ps) + b + resumeText + "\n" == Join("", ps) + tail;
    forall k | 0 <= k < |ps| ensures Contains(Join("", ps) + tail, ps[k]) {
      JoinContainsItems("", ps, k);
      ContainsInConcat(Join("", ps), tail, ps[k]);
    }
  }

  /** The default floor of 800000 reads "800,000" in the profile. */
  lemma ProfileShowsGroupedSalary(resumeText: string, targetLocations: seq<string>, searchTerms: seq<string>,
                                  minExperienceYears: int, maxExperienceYears: int)
    requires targetLocations != [] && searchTerms != []
    ensures Contains(CreateIdealCandidateProfile(resumeText, targetLocations, searchTerms, minExperienceYears,
                                                 maxExperienceYears, 800000).value, "800,000")
  {
    ProfileStatesPreferences(resumeText, targetLocations, searchTerms, minExperienceYears, maxExperienceYears, 800000);
    ThousandsExample();
  }
}
