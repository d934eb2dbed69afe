/**
 * The structured job filters of keyword_filter.py: the seniority and experience
 * filter, the location filter and the stricter entry-level filter. Each filter
 * walks the job list once, appending what it keeps; each is proved equal to a
 * list comprehension over a keep test, and the keep tests carry the rules.
 */
module KeywordFilter {
  import opened Options
  import opened Text
  import opened Seqs
  import opened Jobs
  import opened ExperiencePatterns

  /** `senior_keywords`, searched for in job titles. */
  const SeniorKeywords: seq<string> := [
    "senior", "sr.", "sr ", "lead", "principal", "staff", "architect",
    "manager", "head of", "director", "vp", "vice president", "chief",
    "level 3", "level 4", "level 5", "l3", "l4", "l5", "iii", "iv", "v"]

  /** The words that mark a structured `job_level` as senior. */
  const SeniorLevels: seq<string> := ["senior", "lead", "director", "manager", "principal"]

  // ---------------------------------------------------------------------------
  // has_senior_keywords

  /** `\b` + `re.escape(kw)` + `\b` matches `t` at index `i`. */
  predicate BoundedAt(t: string, kw: string, i: int) {
    StartsAt(t, kw, i) && Boundary(t, i) && Boundary(t, i + |kw|)
  }

  /** `re.search(r'\b' + re.escape(kw) + r'\b', t)` finds a match. */
  predicate SearchBounded(t: string, kw: string) {
    exists i :: 0 <= i <= |t| && BoundedAt(t, kw, i)
  }

  /** `has_senior_keywords(title)` as written: some keyword, fenced by `\b` on both sides, in the lower-cased title. */
  predicate SeniorTitleAsWritten(title: string) {
    exists kw :: kw in SeniorKeywords && SearchBounded(Lower(title), kw)
  }

  /**
   * `kw` occurs in `t` at `i` as a word: a `\b` is demanded only on a side
   * where the keyword itself ends in a word character, so that `sr.` and `sr `
   * match before a space as they were meant to.
   */
  predicate WordAt(t: string, kw: string, i: int) {
    && |kw| > 0 && StartsAt(t, kw, i)
    && (IsWordChar(kw[0]) ==> Boundary(t, i))
    && (IsWordChar(kw[|kw| - 1]) ==> Boundary(t, i + |kw|))
  }

  predicate SearchWord(t: string, kw: string) {
    exists i :: 0 <= i <= |t| && WordAt(t, kw, i)
  }

  /** The title test the filter uses: some senior keyword occurs in the lower-cased title as a word. */
  predicate SeniorTitle(title: string) {
    exists kw :: kw in SeniorKeywords && SearchWord(Lower(title), kw)
  }

  /** `has_senior_keywords` (keyword_filter.py:12-18): an early-return loop over the keywords. */
  method HasSeniorKeywords(title: string) returns (found: bool)
    ensures found == SeniorTitleAsWritten(title)
  {
    var textToCheck := Lower(title);
    for k := 0 to |SeniorKeywords|
      invariant forall j :: 0 <= j < k ==> !SearchBounded(textToCheck, SeniorKeywords[j])
    {
      if SearchBounded(textToCheck, SeniorKeywords[k]) {
        return true;
      }
    }
    return false;
  }

  lemma SeniorKeywordsAreNonEmpty()
    ensures forall kw :: kw in SeniorKeywords ==> |kw| > 0
  {
  }

  /** Every title the keyword test as written flags is still flagged: the correction only adds `sr.` / `sr ` before a non-word. */
  lemma SeniorTitleAsWrittenImpliesSeniorTitle(title: string)
    ensures SeniorTitleAsWritten(title) ==> SeniorTitle(title)
  {
    if SeniorTitleAsWritten(title) {
      var t := Lower(title);
      var kw :| kw in SeniorKeywords && SearchBounded(t, kw);
      var i :| 0 <= i <= |t| && BoundedAt(t, kw, i);
      SeniorKeywordsAreNonEmpty();
      assert |kw| > 0;
      assert WordAt(t, kw, i);
      assert SearchWord(t, kw);
    }
  }

  /** A keyword with a character that `t` lacks never matches `t`. */
  lemma AbsentCharRulesOut(t: string, kw: string, q: nat)
    requires q < |kw|
    requires forall j :: 0 <= j < |t| ==> t[j] != kw[q]
    ensures !SearchBounded(t, kw)
  {
    forall i | 0 <= i <= |t| - |kw| ensures !StartsAt(t, kw, i) {
      assert t[i..i + |kw|][q] == t[i + q];
    }
  }

  /** When the first character of `kw` appears in `t` only at `i0`, `kw` can start nowhere else. */
  lemma FirstCharOnlyAt(t: string, kw: string, i0: nat)
    requires |kw| > 0
    requires forall j :: 0 <= j < |t| && t[j] == kw[0] ==> j == i0
    ensures forall i :: StartsAt(t, kw, i) ==> i == i0
  {
    forall i | StartsAt(t, kw, i) ensures i == i0 {
      assert t[i..i + |kw|][0] == t[i];
    }
  }

  const SrDotTitle := "sr. engineer"

  lemma SrDotTitleIsLowerCase(t: string)
    requires t == SrDotTitle
    ensures Lower(t) == t
  {
    assert forall k :: 0 <= k < |t| ==> !('A' <= t[k] <= 'Z');
    LowerNoUpper(t);
  }

  lemma SrKeywordsMissSrDotTitle(t: string)
    requires t == SrDotTitle
    ensures !SearchBounded(t, "sr.") && !SearchBounded(t, "sr ") && !SearchBounded(t, "iii")
  {
    FirstCharOnlyAt(t, "sr.", 0);
    FirstCharOnlyAt(t, "sr ", 0);
    FirstCharOnlyAt(t, "iii", 7);
    assert !Boundary(t, 3);
    assert t[2] != ' ' && t[9] != 'i';
    assert !StartsAt(t, "sr ", 0) by { assert t[0..3][2] == t[2]; }
    assert !StartsAt(t, "iii", 7) by { assert t[7..10][2] == t[9]; }
  }

  lemma OtherKeywordsMissSrDotTitle(t: string)
    requires t == SrDotTitle
    ensures forall kw :: kw in SeniorKeywords && kw !in ["sr.", "sr ", "iii"] ==> !SearchBounded(t, kw)
  {
    assert forall j :: 0 <= j < |t| ==> t[j] !in "olptamhdvc";
    AbsentCharRulesOut(t, "senior", 4);
    AbsentCharRulesOut(t, "lead", 0);
    AbsentCharRulesOut(t, "principal", 0);
    AbsentCharRulesOut(t, "staff", 1);
    AbsentCharRulesOut(t, "architect", 0);
    AbsentCharRulesOut(t, "manager", 0);
    AbsentCharRulesOut(t, "head of", 0);
    AbsentCharRulesOut(t, "director", 0);
    AbsentCharRulesOut(t, "vp", 0);
    AbsentCharRulesOut(t, "vice president", 0);
    AbsentCharRulesOut(t, "chief", 0);
    AbsentCharRulesOut(t, "level 3", 0);
    AbsentCharRulesOut(t, "level 4", 0);
    AbsentCharRulesOut(t, "level 5", 0);
    AbsentCharRulesOut(t, "l3", 0);
    AbsentCharRulesOut(t, "l4", 0);
    AbsentCharRulesOut(t, "l5", 0);
    AbsentCharRulesOut(t, "iv", 1);
    AbsentCharRulesOut(t, "v", 0);
  }

  lemma NoBoundedKeywordInSrDotTitle(t: string)
    requires t == SrDotTitle
    ensures forall kw :: kw in SeniorKeywords ==> !SearchBounded(t, kw)
  {
    SrKeywordsMissSrDotTitle(t);
    OtherKeywordsMissSrDotTitle(t);
  }

  /**
   * The title "sr. engineer" passes the keyword test as written: `\bsr\.\b`
   * needs a word character right after the dot, and no other keyword occurs.
   */
  lemma SrDotTitleMissedAsWritten(t: string)
    requires t == SrDotTitle
    ensures !SeniorTitleAsWritten(t)
  {
    SrDotTitleIsLowerCase(t);
    NoBoundedKeywordInSrDotTitle(t);
  }

  lemma SrDotStartsSrDotTitle(t: string)
    requires t == SrDotTitle
    ensures SearchWord(t, "sr.")
  {
    assert t[0..3] == "sr.";
    assert WordAt(t, "sr.", 0);
  }

  /** A title whose lower-cased form holds `sr.` as a word is flagged. */
  lemma SrDotWordFlagsTitle(title: string, lowered: string)
    requires lowered == Lower(title) && SearchWord(lowered, "sr.")
    ensures SeniorTitle(title)
  {
    assert SeniorKeywords[1] == "sr.";
  }

  /** The corrected test flags "sr. engineer" through the keyword `sr.`. */
  lemma SrDotTitleCaughtWhenCorrected(t: string)
    requires t == SrDotTitle
    ensures SeniorTitle(t)
  {
    SrDotTitleIsLowerCase(t);
    SrDotStartsSrDotTitle(t);
    SrDotWordFlagsTitle(t, t);
  }

  // ---------------------------------------------------------------------------
  // filter_jobs_by_experience

  function TitleOf<Id>(job: Job<Id>): string { job.title.GetOr("") }

  /** `job_type == 'internship' or job_level == 'entry level'`, both lower-cased, a missing one read as "". */
  predicate IsEntryOrIntern<Id>(job: Job<Id>) {
    Lower(job.jobType.GetOr("")) == "internship" || Lower(job.jobLevel.GetOr("")) == "entry level"
  }

  /** A non-empty lower-cased `job_level` containing one of the senior level words. */
  predicate SeniorLevel<Id>(job: Job<Id>) {
    var level := Lower(job.jobLevel.GetOr(""));
    level != "" && exists w :: w in SeniorLevels && Contains(level, w)
  }

  /** A two-element `experience_range` tuple whose lower end exceeds the limit. */
  predicate RangeTooHigh<Id>(job: Job<Id>, maxYears: int) {
    job.experienceRange.Some? && |job.experienceRange.value| == 2 && job.experienceRange.value[0] > maxYears
  }

  /** Whether `filter_jobs_by_experience` keeps `job`, checking the rules in the loop's order. */
  predicate KeepForExperience<Id>(job: Job<Id>, maxYears: int) {
    if IsEntryOrIntern(job) then true
    else if SeniorLevel(job) then false
    else if RangeTooHigh(job, maxYears) then false
    else if SeniorTitleAsWritten(TitleOf(job)) then false
    else ExperienceFigure(job.description) <= maxYears
  }

  function ExperienceTest<Id>(maxYears: int): Job<Id> -> bool {
    (job: Job<Id>) => KeepForExperience(job, maxYears)
  }

  /**
   * `filter_jobs_by_experience` (keyword_filter.py:20-61): the jobs kept, in
   * input order, and the number skipped.
   */
  method FilterJobsByExperience<Id>(jobsList: seq<Job<Id>>, maxExperienceYears: int)
    returns (filteredJobs: seq<Job<Id>>, skippedCount: nat)
    ensures filteredJobs == Filter(jobsList, ExperienceTest(maxExperienceYears))
    ensures |filteredJobs| + skippedCount == |jobsList|
  {
    ghost var keep := ExperienceTest<Id>(maxExperienceYears);
    filteredJobs := [];
    skippedCount := 0;
    for i := 0 to |jobsList|
      invariant filteredJobs == Filter(jobsList[..i], keep)
      invariant |filteredJobs| + skippedCount == i
    {
      FilterStep(jobsList, i, keep);
      var job := jobsList[i];
      var title := job.title.GetOr("");
      var jobLevel := Lower(job.jobLevel.GetOr(""));
      var jobType := Lower(job.jobType.GetOr(""));
      if jobType == "internship" || jobLevel == "entry level" {
        filteredJobs := filteredJobs + [job];
        continue;
      }
      if jobLevel != "" && exists w :: w in SeniorLevels && Contains(jobLevel, w) {
        skippedCount := skippedCount + 1;
        continue;
      }
      if job.experienceRange.Some? && |job.experienceRange.value| == 2 {
        var minReq := job.experienceRange.value[0];
        if minReq > maxExperienceYears {
          skippedCount := skippedCount + 1;
          continue;
        }
      }
      var senior := HasSeniorKeywords(title);
      if senior {
        skippedCount := skippedCount + 1;
        continue;
      }
      var descMinExp := ExtractExperienceFromText(job.description);
      if descMinExp > maxExperienceYears {
        skippedCount := skippedCount + 1;
        continue;
      }
      filteredJobs := filteredJobs + [job];
    }
    assert jobsList[..|jobsList|] == jobsList;
  }

  /** The experience filter keeps an order-preserving subsequence, and filtering again changes nothing. */
  lemma ExperienceFilterKeepsOrder<Id>(jobs: seq<Job<Id>>, maxYears: int)
    ensures IsSubsequence(Filter(jobs, ExperienceTest(maxYears)), jobs)
    ensures Filter(Filter(jobs, ExperienceTest(maxYears)), ExperienceTest(maxYears)) == Filter(jobs, ExperienceTest(maxYears))
  {
    FilterIsSubsequence(jobs, ExperienceTest(maxYears));
    FilterIdempotent(jobs, ExperienceTest(maxYears));
  }

  /** Internships and `entry level` postings survive whatever their title, range or description say. */
  lemma EntryOrInternAlwaysKept<Id>(jobs: seq<Job<Id>>, maxYears: int, job: Job<Id>)
    requires job in jobs && IsEntryOrIntern(job)
    ensures job in Filter(jobs, ExperienceTest(maxYears))
  {
    FilterMembership(jobs, ExperienceTest(maxYears), job);
  }

  /**
   * Outside internships and entry-level postings, each of the four rules on
   * its own removes a job: a senior level, a range starting above the limit,
   * a senior keyword in the title, a description asking for more years.
   */
  lemma RejectionRulesRemove<Id>(jobs: seq<Job<Id>>, maxYears: int, job: Job<Id>)
    requires !IsEntryOrIntern(job)
    requires SeniorLevel(job) || RangeTooHigh(job, maxYears) || SeniorTitleAsWritten(TitleOf(job))
      || ExperienceFigure(job.description) > maxYears
    ensures job !in Filter(jobs, ExperienceTest(maxYears))
  {
    FilterMembership(jobs, ExperienceTest(maxYears), job);
  }

  /**
   * As written, a posting titled "sr. engineer" with no level, type, range or
   * description survives the experience filter.
   */
  lemma SrDotJobKeptAsWritten<Id>(jobs: seq<Job<Id>>, maxYears: nat, job: Job<Id>)
    requires job in jobs && job.title == Some(SrDotTitle)
    requires job.jobLevel.None? && job.jobType.None? && job.experienceRange.None? && job.description.None?
    ensures job in Filter(jobs, ExperienceTest(maxYears))
  {
    assert Lower("") == "";
    SrDotTitleMissedAsWritten(TitleOf(job));
    FilterMembership(jobs, ExperienceTest(maxYears), job);
  }

  /**
   * A job the filter keeps on its description has no phrase in it (`N years
   * experience`, `N-M years of exp`, `minimum N years`, `at least N years`)
   * whose smallest number exceeds the limit.
   */
  lemma KeptDescriptionWithinLimit<Id>(jobs: seq<Job<Id>>, maxYears: int, job: Job<Id>, m: seq<nat>)
    requires job in Filter(jobs, ExperienceTest(maxYears)) && !IsEntryOrIntern(job)
    requires job.description.Some? && IsPhraseMatch(job.description.value, m)
    ensures MinOf(m) <= maxYears
  {
    FilterMembership(jobs, ExperienceTest(maxYears), job);
    ExperienceFigureIsLargestMinimum(job.description.value);
  }

  // ---------------------------------------------------------------------------
  // should_use_gemini_classification

  /** `should_use_gemini_classification` (keyword_filter.py:63-73): both branches answer True. */
  function ShouldUseGeminiClassification(jobsCount: int, threshold: int): (r: bool)
    ensures r
  {
    if jobsCount <= threshold then true else true
  }

  // ---------------------------------------------------------------------------
  // filter_jobs_by_location

  /** `[loc.lower() for loc in allowed_locations]`. */
  function AllowedLower(allowed: seq<string>): (r: seq<string>)
    ensures |r| == |allowed|
    ensures forall k :: 0 <= k < |allowed| ==> r[k] == Lower(allowed[k])
  {
    seq(|allowed|, k requires 0 <= k < |allowed| => Lower(allowed[k]))
  }

  /** `(part or "").lower()`. */
  function PartLower(part: Option<string>): string { Lower(part.GetOr("")) }

  /**
   * The location test, given the lower-cased allowed list: a dict location
   * needs an allowed entry equal to its city, state or country; a string
   * location needs an allowed entry inside it; anything else fails.
   */
  predicate LocationMatches(loc: Location, allowedLower: seq<string>) {
    match loc
    case Structured(city, state, country) =>
      exists a :: a in allowedLower && a in [PartLower(city), PartLower(state), PartLower(country)]
    case TextLocation(text) =>
      exists a :: a in allowedLower && Contains(Lower(text), a)
    case NoLocation => false
  }

  function LocationTest<Id>(allowedLower: seq<string>): Job<Id> -> bool {
    (job: Job<Id>) => LocationMatches(job.location, allowedLower)
  }

  /** The loop at keyword_filter.py:96-100: stop at the first allowed entry among the parts. */
  method AnyAllowedAmong(allowedLower: seq<string>, parts: seq<string>) returns (isMatch: bool)
    ensures isMatch <==> exists a :: a in allowedLower && a in parts
  {
    isMatch := false;
    var k := 0;
    while k < |allowedLower|
      invariant 0 <= k <= |allowedLower|
      invariant forall j :: 0 <= j < k ==> allowedLower[j] !in parts
    {
      if allowedLower[k] in parts {
        isMatch := true;
        break;
      }
      k := k + 1;
    }
  }

  /**
   * `filter_jobs_by_location` (keyword_filter.py:83-118): the jobs whose
   * location matches, in input order, and the number removed.
   */
  method FilterJobsByLocation<Id>(jobsList: seq<Job<Id>>, allowedLocations: seq<string>)
    returns (filteredJobs: seq<Job<Id>>, skippedCount: nat)
    ensures filteredJobs == Filter(jobsList, LocationTest(AllowedLower(allowedLocations)))
    ensures |filteredJobs| + skippedCount == |jobsList|
  {
    var allowedLower := AllowedLower(allowedLocations);
    ghost var keep := LocationTest<Id>(allowedLower);
    filteredJobs := [];
    skippedCount := 0;
    for i := 0 to |jobsList|
      invariant filteredJobs == Filter(jobsList[..i], keep)
      invariant |filteredJobs| + skippedCount == i
    {
      FilterStep(jobsList, i, keep);
      var job := jobsList[i];
      match job.location
      case Structured(c, s, co) =>
        var isMatch := AnyAllowedAmong(allowedLower, [PartLower(c), PartLower(s), PartLower(co)]);
        if isMatch {
          filteredJobs := filteredJobs + [job];
        } else {
          skippedCount := skippedCount + 1;
        }
      case TextLocation(text) =>
        if exists a :: a in allowedLower && Contains(Lower(text), a) {
          filteredJobs := filteredJobs + [job];
        } else {
          skippedCount := skippedCount + 1;
        }
      case NoLocation =>
        skippedCount := skippedCount + 1;
    }
    assert jobsList[..|jobsList|] == jobsList;
  }

  /**
   * What the location filter keeps, job by job: a dict location iff an allowed
   * entry equals its lower-cased city, state or country (a missing part is ""),
   * a string location iff an allowed entry occurs in it ignoring case, and no
   * job without a location.
   */
  lemma LocationFilterMembership<Id>(jobs: seq<Job<Id>>, allowed: seq<string>, job: Job<Id>)
    requires job in jobs
    ensures job.location.Structured? ==>
      (job in Filter(jobs, LocationTest(AllowedLower(allowed))) <==>
        exists k :: 0 <= k < |allowed| && Lower(allowed[k]) in
          [PartLower(job.location.city), PartLower(job.location.state), PartLower(job.location.country)])
    ensures job.location.TextLocation? ==>
      (job in Filter(jobs, LocationTest(AllowedLower(allowed))) <==>
        exists k :: 0 <= k < |allowed| && Contains(Lower(job.location.text), Lower(allowed[k])))
    ensures job.location.NoLocation? ==> job !in Filter(jobs, LocationTest(AllowedLower(allowed)))
  {
    var lowered := AllowedLower(allowed);
    FilterMembership(jobs, LocationTest(lowered), job);
    if job.location.Structured? || job.location.TextLocation? {
      if LocationMatches(job.location, lowered) {
        var a :| a in lowered && (if job.location.Structured? then
          a in [PartLower(job.location.city), PartLower(job.location.state), PartLower(job.location.country)]
          else Contains(Lower(job.location.text), a));
        var k :| 0 <= k < |lowered| && lowered[k] == a;
        assert Lower(allowed[k]) == a;
      }
    }
  }

  // ---------------------------------------------------------------------------
  // filter_for_entry_level_jobs

  /** `entry_level_keywords`, looked for as plain substrings. */
  const EntryLevelKeywords: seq<string> := [
    "junior", "jr.", "jr ", "entry level", "entry-level", "graduate",
    "intern", "trainee", "fresher", "new grad", "associate",
    "level 1", "level 2", "level i", "level ii", "l1", "l2",
    "starting", "beginner", "recent graduate"]

  /** `senior_terms`, looked for as plain substrings. */
  const SeniorTerms: seq<string> := ["senior", "sr.", "lead", "principal", "manager", "architect"]

  /** The six entries of `acceptable_experience_patterns`. */
  datatype AcceptablePattern =
    | ZeroToTwoYears   // \b0-2\s*years?\b
    | OneToTwoYears    // \b1-2\s*years?\b
    | ZeroToOneYears   // \b0-1\s*years?\b
    | Fresh            // \bfresh(er)?\b
    | NoExperience     // \bno experience\b
    | EntryDotLevel    // \bentry.?level\b

  const AcceptablePatterns: seq<AcceptablePattern> :=
    [ZeroToTwoYears, OneToTwoYears, ZeroToOneYears, Fresh, NoExperience, EntryDotLevel]

  /** `\b<range>\s*years?\b` at `i`. */
  predicate RangeYearsAt(t: string, i: nat, range: string)
    requires i <= |t|
  {
    Boundary(t, i) && StartsAt(t, range, i) && BoundedYearsEnd(t, SpaceEnd(t, i + |range|)).Some?
  }

  /**
   * Pattern `p` matches `t` at `i`. The optional `er` and the optional `s` are
   * tried greedily, and dropping them leaves a word character before the
   * closing `\b`, so the greedy attempt decides; `.?` is tried with one
   * character (not a newline) and then with none.
   */
  predicate AcceptableAt(p: AcceptablePattern, t: string, i: nat)
    requires i <= |t|
  {
    match p
    case ZeroToTwoYears => RangeYearsAt(t, i, "0-2")
    case OneToTwoYears => RangeYearsAt(t, i, "1-2")
    case ZeroToOneYears => RangeYearsAt(t, i, "0-1")
    case Fresh =>
      Boundary(t, i) && StartsAt(t, "fresh", i)
      && (if StartsAt(t, "er", i + 5) then Boundary(t, i + 7) else Boundary(t, i + 5))
    case NoExperience => Boundary(t, i) && StartsAt(t, "no experience", i) && Boundary(t, i + 13)
    case EntryDotLevel =>
      Boundary(t, i) && StartsAt(t, "entry", i)
      && ((i + 5 < |t| && t[i + 5] != '\n' && StartsAt(t, "level", i + 6) && Boundary(t, i + 11))
          || (StartsAt(t, "level", i + 5) && Boundary(t, i + 10)))
  }

  /** `re.search(p, t)` finds a match. */
  predicate SearchAcceptable(p: AcceptablePattern, t: string) {
    exists i :: 0 <= i <= |t| && AcceptableAt(p, t, i)
  }

  predicate HasEntryKeyword(text: string) {
    exists kw :: kw in EntryLevelKeywords && Contains(text, kw)
  }

  predicate HasAcceptableExperience(text: string) {
    exists p :: p in AcceptablePatterns && SearchAcceptable(p, text)
  }

  predicate HasSeniorTerm(text: string) {
    exists term :: term in SeniorTerms && Contains(text, term)
  }

  /** The text the entry-level filter inspects: `f"{title} {description}"`, both lower-cased. */
  function EntryText<Id>(job: Job<Id>): string {
    Lower(job.title.GetOr("")) + " " + Lower(job.description.GetOr(""))
  }

  /**
   * Whether `filter_for_entry_level_jobs` keeps `job`: an entry keyword or an
   * acceptable experience phrase, no senior term, and at most 2 years asked
   * for in the description.
   */
  predicate IsEntryLevel<Id>(job: Job<Id>) {
    var text := EntryText(job);
    && (HasEntryKeyword(text) || HasAcceptableExperience(text))
    && !HasSeniorTerm(text)
    && ExperienceFigure(Some(Lower(job.description.GetOr("")))) <= 2
  }

  function EntryLevelTest<Id>(): Job<Id> -> bool {
    (job: Job<Id>) => IsEntryLevel(job)
  }

  /** `filter_for_entry_level_jobs` (keyword_filter.py:141-167): the entry-level jobs, in input order. */
  method FilterForEntryLevelJobs<Id>(jobsList: seq<Job<Id>>) returns (entryLevelJobs: seq<Job<Id>>)
    ensures entryLevelJobs == Filter(jobsList, EntryLevelTest())
  {
    ghost var keep := EntryLevelTest<Id>();
    entryLevelJobs := [];
    for i := 0 to |jobsList|
      invariant entryLevelJobs == Filter(jobsList[..i], keep)
    {
      FilterStep(jobsList, i, keep);
      var job := jobsList[i];
      var title := Lower(job.title.GetOr(""));
      var description := Lower(job.description.GetOr(""));
      var textToCheck := title + " " + description;
      var hasEntryKeywords := HasEntryKeyword(textToCheck);
      var hasAcceptableExp := HasAcceptableExperience(textToCheck);
      var hasSeniorTerms := HasSeniorTerm(textToCheck);
      var descMinExp := ExtractExperienceFromText(Some(description));
      if (hasEntryKeywords || hasAcceptableExp) && !hasSeniorTerms && descMinExp <= 2 {
        entryLevelJobs := entryLevelJobs + [job];
      }
    }
    assert jobsList[..|jobsList|] == jobsList;
  }

  /**
   * A job the entry-level filter keeps mentions no senior term in its title or
   * its description, and no experience phrase in its description asks for
   * more than 2 years.
   */
  lemma EntryLevelKeptIsJunior<Id>(jobs: seq<Job<Id>>, job: Job<Id>)
    requires job in Filter(jobs, EntryLevelTest())
    ensures forall term :: term in SeniorTerms ==>
      !Contains(Lower(job.title.GetOr("")), term) && !Contains(Lower(job.description.GetOr("")), term)
    ensures forall m :: IsPhraseMatch(Lower(job.description.GetOr("")), m) ==> MinOf(m) <= 2
  {
    FilterMembership(jobs, EntryLevelTest(), job);
    var title := Lower(job.title.GetOr(""));
    var description := Lower(job.description.GetOr(""));
    forall term | term in SeniorTerms
      ensures !Contains(title, term) && !Contains(description, term)
    {
      ContainsInConcat(title, " " + description, term);
      ContainsInConcat(" ", description, term);
      assert title + (" " + description) == EntryText(job);
    }
    ExperienceFigureIsLargestMinimum(description);
  }

  /**
   * The entry-level filter keeps a job iff the lower-cased title and
   * description, joined by a space, hold an entry keyword or an acceptable
   * experience phrase and no senior term, and no experience phrase in the
   * description asks for more than 2 years (keyword_filter.py:143-161).
   */
  lemma EntryLevelMembership<Id>(jobs: seq<Job<Id>>, job: Job<Id>)
    ensures var title := Lower(job.title.GetOr(""));
      var description := Lower(job.description.GetOr(""));
      var text := title + " " + description;
      job in Filter(jobs, EntryLevelTest()) <==>
        && job in jobs
        && (HasEntryKeyword(text) || HasAcceptableExperience(text))
        && !HasSeniorTerm(text)
        && (forall m :: IsPhraseMatch(description, m) ==> MinOf(m) <= 2)
  {
    var description := Lower(job.description.GetOr(""));
    FilterMembership(jobs, EntryLevelTest(), job);
    ExperienceFigureIsLargestMinimum(description);
  }
}
