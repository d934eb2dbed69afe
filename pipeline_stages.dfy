/**
 * The early stages of `main()` (main.py:55-115): dropping already processed
 * postings, the salary floor, and the experience classification that gates the
 * run. The classifier's reply is a parameter.
 */
module PipelineStages {
  import opened Options
  import opened Seqs
  import opened Jobs

  // ---------------------------------------------------------------------------
  // Step 4: `[job for job in scraped_jobs if job.get('job_url') not in processed_job_urls]`

  predicate IsNew<Id>(processedJobUrls: set<string>, job: Job<Id>) {
    job.jobUrl.None? || job.jobUrl.value !in processedJobUrls
  }

  function NewTest<Id>(processedJobUrls: set<string>): Job<Id> -> bool {
    (job: Job<Id>) => IsNew(processedJobUrls, job)
  }

  function NewJobs<Id>(scrapedJobs: seq<Job<Id>>, processedJobUrls: set<string>): seq<Job<Id>> {
    Filter(scrapedJobs, NewTest(processedJobUrls))
  }

  /**
   * The new jobs are exactly the scraped jobs whose url was not processed
   * before (a job without a url is new), in scraped order.
   */
  lemma NewJobsAreUnprocessed<Id>(scrapedJobs: seq<Job<Id>>, processedJobUrls: set<string>)
    ensures IsSubsequence(NewJobs(scrapedJobs, processedJobUrls), scrapedJobs)
    ensures forall job :: job in NewJobs(scrapedJobs, processedJobUrls) <==>
      job in scrapedJobs && (job.jobUrl.None? || job.jobUrl.value !in processedJobUrls)
  {
    FilterIsSubsequence(scrapedJobs, NewTest(processedJobUrls));
    forall job ensures job in NewJobs(scrapedJobs, processedJobUrls) <==> job in scrapedJobs && IsNew(processedJobUrls, job) {
      FilterMembership(scrapedJobs, NewTest(processedJobUrls), job);
    }
  }

  // ---------------------------------------------------------------------------
  // Step 5a: `is_salary_match` (main.py:67-79)

  /** A Python float: a real number, or NaN. */
  datatype FloatValue = Finite(x: real) | NotANumber

  /**
   * `float(job.get(key) or 0)` as written: `None` stands for the
   * `ValueError`/`TypeError` of a value `float()` refuses; NaN is truthy, so it
   * survives the `or 0` and comes out as NaN.
   */
  function FloatOfAsWritten(a: Amount): Option<FloatValue> {
    match a
    case Absent => Some(Finite(0.0))
    case Num(v) => Some(Finite(v))
    case NaN => Some(NotANumber)
    case NonNumeric => None
  }

  /** The same conversion with pandas' NaN read as "no amount", like a missing key. */
  function FloatOf(a: Amount): (r: Option<FloatValue>)
    ensures r.Some? ==> r.value.Finite?
  {
    match a
    case Absent => Some(Finite(0.0))
    case Num(v) => Some(Finite(v))
    case NaN => Some(Finite(0.0))
    case NonNumeric => None
  }

  /** The two comparisons after the conversion; every comparison with NaN is false. */
  predicate SalaryComparisons(minSalary: FloatValue, maxSalary: FloatValue, floor: int) {
    || (minSalary == Finite(0.0) && maxSalary == Finite(0.0))
    || (maxSalary.Finite? && maxSalary.x >= floor as real)
    || (minSalary.Finite? && minSalary.x >= floor as real)
  }

  predicate IsSalaryMatchAsWritten<Id>(job: Job<Id>, minSalaryInr: int) {
    var lo := FloatOfAsWritten(job.minAmount);
    var hi := FloatOfAsWritten(job.maxAmount);
    lo.None? || hi.None? || SalaryComparisons(lo.value, hi.value, minSalaryInr)
  }

  predicate IsSalaryMatch<Id>(job: Job<Id>, minSalaryInr: int) {
    var lo := FloatOf(job.minAmount);
    var hi := FloatOf(job.maxAmount);
    lo.None? || hi.None? || SalaryComparisons(lo.value, hi.value, minSalaryInr)
  }

  /** No amount stated: missing, zero, or (in pandas records) NaN. */
  predicate NoAmount(a: Amount) { a.Absent? || a == Num(0.0) || a.NaN? }

  /**
   * As written, a posting whose two amounts are pandas' NaN (what a scraped
   * posting without a salary carries) is rejected, while the same posting with
   * the keys missing is kept.
   */
  lemma NaNSalaryRejectedAsWritten<Id>(job: Job<Id>, minSalaryInr: int)
    requires job.minAmount.NaN? && job.maxAmount.NaN?
    ensures !IsSalaryMatchAsWritten(job, minSalaryInr)
    ensures IsSalaryMatchAsWritten(job.(minAmount := Absent, maxAmount := Absent), minSalaryInr)
  {
  }

  /**
   * The salary test (with NaN read as "no amount"): a posting that states no
   * amount is kept, one with an amount `float()` refuses is kept, and otherwise
   * it passes iff one of its amounts reaches the floor.
   */
  lemma SalaryMatchCases<Id>(job: Job<Id>, minSalaryInr: int)
    ensures NoAmount(job.minAmount) && NoAmount(job.maxAmount) ==> IsSalaryMatch(job, minSalaryInr)
    ensures job.minAmount.NonNumeric? || job.maxAmount.NonNumeric? ==> IsSalaryMatch(job, minSalaryInr)
    ensures job.minAmount.Num? && job.maxAmount.Num? && !(job.minAmount.value == 0.0 && job.maxAmount.value == 0.0) ==>
      (IsSalaryMatch(job, minSalaryInr) <==>
         job.maxAmount.value >= minSalaryInr as real || job.minAmount.value >= minSalaryInr as real)
  {
  }

  /** The correction changes nothing for a posting without NaN amounts. */
  lemma SalaryMatchAgreesWithoutNaN<Id>(job: Job<Id>, minSalaryInr: int)
    requires !job.minAmount.NaN? && !job.maxAmount.NaN?
    ensures IsSalaryMatch(job, minSalaryInr) == IsSalaryMatchAsWritten(job, minSalaryInr)
  {
  }

  /** The test the funnel runs: `is_salary_match` as written. */
  function SalaryTest<Id>(minSalaryInr: int): Job<Id> -> bool {
    (job: Job<Id>) => IsSalaryMatchAsWritten(job, minSalaryInr)
  }

  /** Step 5a (main.py:63-83): the salary filter runs only for a positive floor. */
  function SalaryStage<Id>(newJobs: seq<Job<Id>>, minSalaryInr: int): seq<Job<Id>> {
    if minSalaryInr > 0 then Filter(newJobs, SalaryTest(minSalaryInr)) else newJobs
  }

  lemma SalaryStageKeepsMatches<Id>(newJobs: seq<Job<Id>>, minSalaryInr: int)
    ensures minSalaryInr <= 0 ==> SalaryStage(newJobs, minSalaryInr) == newJobs
    ensures IsSubsequence(SalaryStage(newJobs, minSalaryInr), newJobs)
    ensures minSalaryInr > 0 ==> forall job :: job in SalaryStage(newJobs, minSalaryInr) <==>
      job in newJobs && IsSalaryMatchAsWritten(job, minSalaryInr)
  {
    if minSalaryInr > 0 {
      FilterIsSubsequence(newJobs, SalaryTest(minSalaryInr));
      forall job ensures job in SalaryStage(newJobs, minSalaryInr) <==> job in newJobs && IsSalaryMatchAsWritten(job, minSalaryInr) {
        FilterMembership(newJobs, SalaryTest(minSalaryInr), job);
      }
    } else {
      SubsequenceOfItself(newJobs);
    }
  }

  lemma {:induction false} SubsequenceOfItself<T>(s: seq<T>)
    ensures IsSubsequence(s, s)
  {
    if s != [] {
      SubsequenceOfItself(s[..|s| - 1]);
    }
  }

  // ---------------------------------------------------------------------------
  // Step 5b: the experience classification loop (main.py:89-115)

  /**
   * The decoded classifier reply: `min_years` and `max_years` when present, and
   * whether the dict holds any other key (an empty dict is falsy).
   */
  datatype ExperienceData = ExperienceData(minYears: Option<int>, maxYears: Option<int>, otherKeys: bool)

  predicate Truthy(e: ExperienceData) { e.minYears.Some? || e.maxYears.Some? || e.otherKeys }

  function JobMin(e: ExperienceData): int { e.minYears.GetOr(99) }
  function JobMax(e: ExperienceData): int { e.maxYears.GetOr(99) }

  function Max(a: int, b: int): int { if a >= b then a else b }
  function Min(a: int, b: int): int { if a <= b then a else b }

  /** `max(MIN_EXPERIENCE_YEARS, job_min) <= min(MAX_EXPERIENCE_YEARS, job_max)` (main.py:98). */
  predicate Overlaps(bandMin: int, bandMax: int, jobMin: int, jobMax: int) {
    Max(bandMin, jobMin) <= Min(bandMax, jobMax)
  }

  predicate InBoth(y: int, bandMin: int, bandMax: int, jobMin: int, jobMax: int) {
    bandMin <= y <= bandMax && jobMin <= y <= jobMax
  }

  /** The test holds exactly when some year count lies in both ranges. */
  lemma OverlapMeansSharedYear(bandMin: int, bandMax: int, jobMin: int, jobMax: int)
    ensures Overlaps(bandMin, bandMax, jobMin, jobMax) <==> exists y :: InBoth(y, bandMin, bandMax, jobMin, jobMax)
  {
    if Overlaps(bandMin, bandMax, jobMin, jobMax) {
      assert InBoth(Max(bandMin, jobMin), bandMin, bandMax, jobMin, jobMax);
    }
  }

  /** With the band [0, 2], an estimate of 1-3 years matches and one of 3-5 does not; an inverted estimate never matches. */
  lemma OverlapExamples(bandMin: int, bandMax: int, jobMin: int, jobMax: int)
    ensures Overlaps(0, 2, 1, 3) && !Overlaps(0, 2, 3, 5)
    ensures jobMin > jobMax ==> !Overlaps(bandMin, bandMax, jobMin, jobMax)
  {
  }

  /** `if experience_data:` and the overlap test, for the classifier's reply on `job`. */
  predicate Matched<Id>(classify: Job<Id> -> Option<ExperienceData>, bandMin: int, bandMax: int, job: Job<Id>) {
    var e := classify(job);
    e.Some? && Truthy(e.value) && Overlaps(bandMin, bandMax, JobMin(e.value), JobMax(e.value))
  }

  /** `job['min_years'] = job_min; job['max_years'] = job_max` on a matched job, nothing otherwise. */
  function Annotated<Id>(classify: Job<Id> -> Option<ExperienceData>, bandMin: int, bandMax: int, job: Job<Id>): Job<Id> {
    if Matched(classify, bandMin, bandMax, job) then
      var e := classify(job).value;
      job.(minYears := Some(JobMin(e)), maxYears := Some(JobMax(e)))
    else job
  }

  /** `classified_and_filtered_jobs`: the matched jobs, annotated, in order. */
  function Classified<Id>(jobs: seq<Job<Id>>, classify: Job<Id> -> Option<ExperienceData>, bandMin: int, bandMax: int): seq<Job<Id>> {
    if jobs == [] then []
    else
      var last := jobs[|jobs| - 1];
      Classified(jobs[..|jobs| - 1], classify, bandMin, bandMax)
        + (if Matched(classify, bandMin, bandMax, last) then [Annotated(classify, bandMin, bandMax, last)] else [])
  }

  /** `new_jobs` after the loop: the same jobs, the matched ones carrying the estimate. */
  function AnnotatedAll<Id>(jobs: seq<Job<Id>>, classify: Job<Id> -> Option<ExperienceData>, bandMin: int, bandMax: int): (r: seq<Job<Id>>)
    ensures |r| == |jobs|
  {
    seq(|jobs|, i requires 0 <= i < |jobs| => Annotated(classify, bandMin, bandMax, jobs[i]))
  }

  /**
   * The classification loop. The dicts are shared between `new_jobs` and the
   * list being built, so the annotation shows in both: the method returns the
   * classified list and `new_jobs` as the loop leaves it.
   */
  method ClassifyAndFilter<Id>(newJobs: seq<Job<Id>>, classify: Job<Id> -> Option<ExperienceData>,
                               minExperienceYears: int, maxExperienceYears: int)
    returns (classifiedAndFilteredJobs: seq<Job<Id>>, annotatedNewJobs: seq<Job<Id>>)
    ensures classifiedAndFilteredJobs == Classified(newJobs, classify, minExperienceYears, maxExperienceYears)
    ensures annotatedNewJobs == AnnotatedAll(newJobs, classify, minExperienceYears, maxExperienceYears)
  {
    classifiedAndFilteredJobs := [];
    annotatedNewJobs := [];
    for i := 0 to |newJobs|
      invariant classifiedAndFilteredJobs == Classified(newJobs[..i], classify, minExperienceYears, maxExperienceYears)
      invariant |annotatedNewJobs| == i
      invariant forall k :: 0 <= k < i ==> annotatedNewJobs[k] == Annotated(classify, minExperienceYears, maxExperienceYears, newJobs[k])
    {
      var job := newJobs[i];
      assert newJobs[..i + 1][..i] == newJobs[..i];
      var experienceData := classify(job);
      if experienceData.Some? && Truthy(experienceData.value) {
        var jobMin := JobMin(experienceData.value);
        var jobMax := JobMax(experienceData.value);
        var isMatch := Max(minExperienceYears, jobMin) <= Min(maxExperienceYears, jobMax);
        if isMatch {
          job := job.(minYears := Some(jobMin), maxYears := Some(jobMax));
          classifiedAndFilteredJobs := classifiedAndFilteredJobs + [job];
        }
      }
      annotatedNewJobs := annotatedNewJobs + [job];
    }
    assert newJobs[..|newJobs|] == newJobs;
  }

  /**
   * The classified list holds exactly the annotated versions of the matched
   * jobs; a job whose classification failed (`None`) or came back empty is not
   * among them.
   */
  lemma {:induction false} ClassifiedAreMatched<Id>(jobs: seq<Job<Id>>, classify: Job<Id> -> Option<ExperienceData>,
                                                     bandMin: int, bandMax: int)
    ensures |Classified(jobs, classify, bandMin, bandMax)| <= |jobs|
    ensures forall x :: x in Classified(jobs, classify, bandMin, bandMax) <==>
      exists i :: 0 <= i < |jobs| && Matched(classify, bandMin, bandMax, jobs[i]) && x == Annotated(classify, bandMin, bandMax, jobs[i])
  {
    if jobs != [] {
      var n := |jobs|;
      var init := jobs[..n - 1];
      ClassifiedAreMatched(init, classify, bandMin, bandMax);
      forall x ensures x in Classified(jobs, classify, bandMin, bandMax) <==>
        exists i :: 0 <= i < n && Matched(classify, bandMin, bandMax, jobs[i]) && x == Annotated(classify, bandMin, bandMax, jobs[i])
      {
        if exists i :: 0 <= i < n && Matched(classify, bandMin, bandMax, jobs[i]) && x == Annotated(classify, bandMin, bandMax, jobs[i]) {
          var i :| 0 <= i < n && Matched(classify, bandMin, bandMax, jobs[i]) && x == Annotated(classify, bandMin, bandMax, jobs[i]);
          if i < n - 1 {
            assert init[i] == jobs[i];
          }
        }
        if x in Classified(init, classify, bandMin, bandMax) {
          var i :| 0 <= i < n - 1 && Matched(classify, bandMin, bandMax, init[i]) && x == Annotated(classify, bandMin, bandMax, init[i]);
          assert jobs[i] == init[i];
        }
      }
    }
  }

  /** A matched job carries the classifier's years, 99 standing in for a missing one. */
  lemma MatchedJobCarriesEstimate<Id>(classify: Job<Id> -> Option<ExperienceData>, bandMin: int, bandMax: int, job: Job<Id>)
    requires Matched(classify, bandMin, bandMax, job)
    ensures var a := Annotated(classify, bandMin, bandMax, job);
      && a.minYears == Some(if classify(job).value.minYears.Some? then classify(job).value.minYears.value else 99)
      && a.maxYears == Some(if classify(job).value.maxYears.Some? then classify(job).value.maxYears.value else 99)
      && a == job.(minYears := a.minYears, maxYears := a.maxYears)
  {
  }

  /**
   * What the similarity stage receives (main.py:118) is every salary survivor,
   * the ones the classifier rejected included, unchanged, and the matched ones
   * annotated: the classification only decides whether the run goes on.
   */
  lemma SimilarityInputKeepsRejected<Id>(jobs: seq<Job<Id>>, classify: Job<Id> -> Option<ExperienceData>,
                                         bandMin: int, bandMax: int, i: nat)
    requires i < |jobs|
    ensures !Matched(classify, bandMin, bandMax, jobs[i]) ==> AnnotatedAll(jobs, classify, bandMin, bandMax)[i] == jobs[i]
    ensures AnnotatedAll(jobs, classify, bandMin, bandMax)[i].id == jobs[i].id
    ensures AnnotatedAll(jobs, classify, bandMin, bandMax)[i].jobUrl == jobs[i].jobUrl
  {
  }
}
