/**
 * The decision rules of `main()` (main.py:38-171) from the ranking onwards,
 * and the funnel as a whole: every stage's early exit, the join of the ranking
 * reply with the jobs it ranks, the fallback to the untailored resume, and what
 * is handed to the tracker. The scraper, the similarity filter, the model calls
 * and pdflatex are parameters.
 */
module Pipeline {
  import opened Options
  import opened Text
  import opened Seqs
  import opened Jobs
  import opened GeminiClient
  import opened ResumeGenerator
  import opened PipelineStages

  /** The constants of config.py that the funnel reads. */
  datatype Config = Config(minSalaryInr: int, minExperienceYears: int, maxExperienceYears: int,
                           geminiTopN: int, outputDir: string)

  /** One entry of `ranked_jobs`; `matchReason` is `None` when the key is missing. */
  datatype RankInfo<Id> = RankInfo(id: Id, matchReason: Option<string>)

  /** The decoded ranking reply; `rankedJobs` is `None` when it has no key 'ranked_jobs'. */
  datatype Rankings<Id> = Rankings(rankedJobs: Option<seq<RankInfo<Id>>>)

  /** What the funnel's collaborators return for what they are given. */
  datatype Services<!Id> = Services(
    classifyCall: (string, string) -> Option<string>,
    classifyDecode: string -> Option<ExperienceData>,
    similarity: (seq<Job<Id>>, string) -> seq<Job<Id>>,
    rankCall: (seq<PromptJob<Id>>, string) -> Option<string>,
    rankDecode: string -> Option<Rankings<Id>>,
    tailorCall: (string, string, string, string) -> Option<string>,
    compile: (string, string) -> CompileOutcome)

  function Classifier<Id>(svc: Services<Id>): Job<Id> -> Option<ExperienceData> {
    (job: Job<Id>) => ClassifyExperienceLevel(job, svc.classifyCall, svc.classifyDecode)
  }

  // ---------------------------------------------------------------------------
  // `original_jobs_map = {job['id']: job for job in filtered_jobs}`

  function JobsMap<Id(==)>(jobs: seq<Job<Id>>): map<Id, Job<Id>> {
    if jobs == [] then map[]
    else JobsMap(jobs[..|jobs| - 1])[jobs[|jobs| - 1].id := jobs[|jobs| - 1]]
  }

  /** The map's keys are exactly the jobs' ids. */
  lemma {:induction false} JobsMapKeys<Id>(jobs: seq<Job<Id>>)
    ensures forall id :: id in JobsMap(jobs) <==> exists k :: 0 <= k < |jobs| && jobs[k].id == id
  {
    if jobs != [] {
      var n := |jobs|;
      var init := jobs[..n - 1];
      JobsMapKeys(init);
      forall id ensures id in JobsMap(jobs) <==> exists k :: 0 <= k < n && jobs[k].id == id {
        if id in JobsMap(init) {
          var k :| 0 <= k < n - 1 && init[k].id == id;
          assert jobs[k] == init[k];
        }
        if exists k :: 0 <= k < n && jobs[k].id == id {
          var k :| 0 <= k < n && jobs[k].id == id;
          if k < n - 1 {
            assert init[k] == jobs[k];
          }
        }
      }
    }
  }

  /** Each id maps to one of the jobs, one carrying that id. */
  lemma {:induction false} JobsMapValues<Id>(jobs: seq<Job<Id>>)
    ensures forall id :: id in JobsMap(jobs) ==> JobsMap(jobs)[id] in jobs && JobsMap(jobs)[id].id == id
  {
    if jobs != [] {
      var n := |jobs|;
      var init := jobs[..n - 1];
      JobsMapValues(init);
      forall id | id in JobsMap(jobs) ensures JobsMap(jobs)[id] in jobs && JobsMap(jobs)[id].id == id {
        if id != jobs[n - 1].id {
          assert JobsMap(jobs)[id] == JobsMap(init)[id];
          assert JobsMap(init)[id] in init;
        }
      }
    }
  }

  /** A job whose id no later job repeats is the one its id maps to: the last one wins. */
  lemma JobsMapLastWins<Id>(jobs: seq<Job<Id>>)
    ensures forall k :: 0 <= k < |jobs| ==> jobs[k].id in JobsMap(jobs)
    ensures forall k :: 0 <= k < |jobs| && (forall k' :: k < k' < |jobs| ==> jobs[k'].id != jobs[k].id) ==>
      JobsMap(jobs)[jobs[k].id] == jobs[k]
  {
    JobsMapKeys(jobs);
    forall k | 0 <= k < |jobs| && (forall k' :: k < k' < |jobs| ==> jobs[k'].id != jobs[k].id)
      ensures JobsMap(jobs)[jobs[k].id] == jobs[k]
    {
      JobsMapLastAt(jobs, k);
    }
  }

  lemma {:induction false} JobsMapLastAt<Id>(jobs: seq<Job<Id>>, k: nat)
    requires k < |jobs|
    requires forall k' :: k < k' < |jobs| ==> jobs[k'].id != jobs[k].id
    ensures jobs[k].id in JobsMap(jobs) && JobsMap(jobs)[jobs[k].id] == jobs[k]
  {
    var n := |jobs|;
    if k < n - 1 {
      var init := jobs[..n - 1];
      assert init[k] == jobs[k];
      forall k' | k < k' < n - 1 ensures init[k'].id != init[k].id {
        assert init[k'] == jobs[k'];
      }
      JobsMapLastAt(init, k);
    }
  }

  // ---------------------------------------------------------------------------
  // Step 8: the loop over `jobs_to_process` (main.py:133-163)

  /** One entry of `results_list`; its 'job_details' is the shared map entry, read at the end. */
  datatype ResultEntry<Id> = ResultEntry(id: Id, pdfPath: string, generationFailed: bool)

  datatype JoinState<Id> = JoinState(jobs: map<Id, Job<Id>>, results: seq<ResultEntry<Id>>)

  /** `if not modified_latex:` — no reply, or an empty one. */
  predicate GenerationFailed(modifiedLatex: Option<string>) {
    modifiedLatex.None? || modifiedLatex.value == ""
  }

  function LatexToCompile(sourceLatex: string, modifiedLatex: Option<string>): string {
    if GenerationFailed(modifiedLatex) then sourceLatex else modifiedLatex.value
  }

  /** One iteration of the loop. */
  function JoinStep<Id(==)>(st: JoinState<Id>, rankInfo: RankInfo<Id>, sourceLatex: string,
                            svc: Services<Id>, cfg: Config): JoinState<Id> {
    if rankInfo.id !in st.jobs then st
    else
      var job := st.jobs[rankInfo.id].(matchReason := Some(rankInfo.matchReason.GetOr("N/A")));
      var modifiedLatex := GenerateLatexResume(sourceLatex, job, svc.tailorCall);
      var pdfPath := CreateResumePdf(LatexToCompile(sourceLatex, modifiedLatex), job, cfg.outputDir, svc.compile);
      JoinState(st.jobs[rankInfo.id := job],
                st.results + if pdfPath.Some? then [ResultEntry(rankInfo.id, pdfPath.value, GenerationFailed(modifiedLatex))] else [])
  }

  function JoinFold<Id(==)>(rs: seq<RankInfo<Id>>, jobs0: map<Id, Job<Id>>, sourceLatex: string,
                            svc: Services<Id>, cfg: Config): JoinState<Id> {
    if rs == [] then JoinState(jobs0, [])
    else JoinStep(JoinFold(rs[..|rs| - 1], jobs0, sourceLatex, svc, cfg), rs[|rs| - 1], sourceLatex, svc, cfg)
  }

  /** The loop of Step 8: the job map as the loop leaves it, and `results_list`. */
  method ProcessRankedJobs<Id(==)>(jobsToProcess: seq<RankInfo<Id>>, originalJobsMap: map<Id, Job<Id>>,
                                   sourceLatex: string, svc: Services<Id>, cfg: Config)
    returns (jobsMap: map<Id, Job<Id>>, resultsList: seq<ResultEntry<Id>>)
    ensures JoinState(jobsMap, resultsList) == JoinFold(jobsToProcess, originalJobsMap, sourceLatex, svc, cfg)
  {
    jobsMap := originalJobsMap;
    resultsList := [];
    for i := 0 to |jobsToProcess|
      invariant JoinState(jobsMap, resultsList) == JoinFold(jobsToProcess[..i], originalJobsMap, sourceLatex, svc, cfg)
    {
      assert jobsToProcess[..i + 1][..i] == jobsToProcess[..i];
      var rankInfo := jobsToProcess[i];
      if rankInfo.id !in jobsMap {
        continue;
      }
      var fullJobDetails := jobsMap[rankInfo.id].(matchReason := Some(rankInfo.matchReason.GetOr("N/A")));
      jobsMap := jobsMap[rankInfo.id := fullJobDetails];
      var modifiedLatex := GenerateLatexResume(sourceLatex, fullJobDetails, svc.tailorCall);
      var generationFailed := false;
      var latexToCompile := "";
      if modifiedLatex.None? || modifiedLatex.value == "" {
        generationFailed := true;
        latexToCompile := sourceLatex;
      } else {
        latexToCompile := modifiedLatex.value;
      }
      var pdfPath := CreateResumePdf(latexToCompile, fullJobDetails, cfg.outputDir, svc.compile);
      if pdfPath.Some? {
        resultsList := resultsList + [ResultEntry(rankInfo.id, pdfPath.value, generationFailed)];
      }
    }
    assert jobsToProcess[..|jobsToProcess|] == jobsToProcess;
  }

  /** The match reason takes no part in the prompt, the file names or the compilation. */
  lemma ReasonIrrelevant<Id>(job: Job<Id>, reason: Option<string>, sourceLatex: string, svc: Services<Id>, cfg: Config)
    ensures GenerateLatexResume(sourceLatex, job.(matchReason := reason), svc.tailorCall)
         == GenerateLatexResume(sourceLatex, job, svc.tailorCall)
    ensures BaseFilename(job.(matchReason := reason)) == BaseFilename(job)
    ensures TexPath(cfg.outputDir, job.(matchReason := reason)) == TexPath(cfg.outputDir, job)
    ensures PdfPath(cfg.outputDir, job.(matchReason := reason)) == PdfPath(cfg.outputDir, job)
  {
    var j := job.(matchReason := reason);
    assert DescriptionCut(j, 5000) == DescriptionCut(job, 5000);
    assert CompanyPart(j) == CompanyPart(job) && TitlePart(j) == TitlePart(job);
  }

  /** One iteration changes the map only at the ranked id, and there only the match reason. */
  lemma JoinStepJobs<Id>(st: JoinState<Id>, r: RankInfo<Id>, sourceLatex: string, svc: Services<Id>, cfg: Config)
    ensures JoinStep(st, r, sourceLatex, svc, cfg).jobs ==
      if r.id in st.jobs then st.jobs[r.id := st.jobs[r.id].(matchReason := Some(r.matchReason.GetOr("N/A")))]
      else st.jobs
  {
  }

  /** The job map alone: each ranking entry naming a job overwrites that job's match reason. */
  function Reasoned<Id(==)>(rs: seq<RankInfo<Id>>, jobs0: map<Id, Job<Id>>): map<Id, Job<Id>> {
    if rs == [] then jobs0
    else
      var m := Reasoned(rs[..|rs| - 1], jobs0);
      var r := rs[|rs| - 1];
      if r.id in m then m[r.id := m[r.id].(matchReason := Some(r.matchReason.GetOr("N/A")))] else m
  }

  lemma {:induction false} JoinFoldJobs<Id>(rs: seq<RankInfo<Id>>, jobs0: map<Id, Job<Id>>, sourceLatex: string,
                                            svc: Services<Id>, cfg: Config)
    ensures JoinFold(rs, jobs0, sourceLatex, svc, cfg).jobs == Reasoned(rs, jobs0)
  {
    if rs != [] {
      var init := rs[..|rs| - 1];
      JoinFoldJobs(init, jobs0, sourceLatex, svc, cfg);
      JoinStepJobs(JoinFold(init, jobs0, sourceLatex, svc, cfg), rs[|rs| - 1], sourceLatex, svc, cfg);
    }
  }

  lemma {:induction false} ReasonedShape<Id>(rs: seq<RankInfo<Id>>, jobs0: map<Id, Job<Id>>)
    ensures Reasoned(rs, jobs0).Keys == jobs0.Keys
    ensures forall id :: id in jobs0 ==> Reasoned(rs, jobs0)[id] == jobs0[id].(matchReason := Reasoned(rs, jobs0)[id].matchReason)
    ensures forall id :: id in jobs0 && (forall j :: 0 <= j < |rs| ==> rs[j].id != id) ==> Reasoned(rs, jobs0)[id] == jobs0[id]
  {
    if rs != [] {
      var n := |rs|;
      var init := rs[..n - 1];
      ReasonedShape(init, jobs0);
      forall id | id in jobs0 && (forall j :: 0 <= j < n ==> rs[j].id != id) ensures Reasoned(rs, jobs0)[id] == jobs0[id] {
        assert rs[n - 1].id != id;
        assert forall j :: 0 <= j < n - 1 ==> init[j].id != id by {
          forall j | 0 <= j < n - 1 ensures init[j].id != id {
            assert init[j] == rs[j];
          }
        }
      }
    }
  }

  lemma {:induction false} ReasonedLastWins<Id>(rs: seq<RankInfo<Id>>, jobs0: map<Id, Job<Id>>)
    ensures Reasoned(rs, jobs0).Keys == jobs0.Keys
    ensures forall j :: 0 <= j < |rs| && rs[j].id in jobs0 && (forall j' :: j < j' < |rs| ==> rs[j'].id != rs[j].id) ==>
      Reasoned(rs, jobs0)[rs[j].id].matchReason == Some(rs[j].matchReason.GetOr("N/A"))
  {
    if rs != [] {
      var n := |rs|;
      var init := rs[..n - 1];
      ReasonedLastWins(init, jobs0);
      forall j | 0 <= j < n && rs[j].id in jobs0 && (forall j' :: j < j' < n ==> rs[j'].id != rs[j].id)
        ensures Reasoned(rs, jobs0)[rs[j].id].matchReason == Some(rs[j].matchReason.GetOr("N/A"))
      {
        if j < n - 1 {
          assert init[j] == rs[j];
          assert rs[n - 1].id != rs[j].id;
          assert forall j' :: j < j' < n - 1 ==> init[j'].id != init[j].id by {
            forall j' | j < j' < n - 1 ensures init[j'].id != init[j].id {
              assert init[j'] == rs[j'];
            }
          }
        }
      }
    }
  }

  /**
   * The loop touches only the entries of ranked ids and only their match
   * reason: an unranked job is left as it was, and a ranked one keeps the
   * reason of the last ranking entry naming it ('N/A' when that entry has none).
   */
  lemma JoinFoldUpdatesReasons<Id>(rs: seq<RankInfo<Id>>, jobs0: map<Id, Job<Id>>, sourceLatex: string,
                                   svc: Services<Id>, cfg: Config)
    ensures JoinFold(rs, jobs0, sourceLatex, svc, cfg).jobs.Keys == jobs0.Keys
    ensures forall id :: id in jobs0 ==>
      JoinFold(rs, jobs0, sourceLatex, svc, cfg).jobs[id] == jobs0[id].(matchReason := JoinFold(rs, jobs0, sourceLatex, svc, cfg).jobs[id].matchReason)
    ensures forall id :: id in jobs0 && (forall j :: 0 <= j < |rs| ==> rs[j].id != id) ==>
      JoinFold(rs, jobs0, sourceLatex, svc, cfg).jobs[id] == jobs0[id]
    ensures forall j :: 0 <= j < |rs| && rs[j].id in jobs0 && (forall j' :: j < j' < |rs| ==> rs[j'].id != rs[j].id) ==>
      JoinFold(rs, jobs0, sourceLatex, svc, cfg).jobs[rs[j].id].matchReason == Some(rs[j].matchReason.GetOr("N/A"))
  {
    JoinFoldJobs(rs, jobs0, sourceLatex, svc, cfg);
    ReasonedShape(rs, jobs0);
    ReasonedLastWins(rs, jobs0);
  }

  /** A ranking entry yields a PDF: its id is in the map, and pdflatex succeeds on what is compiled for it. */
  predicate Produces<Id(==)>(jobs0: map<Id, Job<Id>>, sourceLatex: string, svc: Services<Id>, cfg: Config, r: RankInfo<Id>) {
    && r.id in jobs0
    && var modifiedLatex := GenerateLatexResume(sourceLatex, jobs0[r.id], svc.tailorCall);
       svc.compile(LatexToCompile(sourceLatex, modifiedLatex), TexPath(cfg.outputDir, jobs0[r.id])) == Compiled
  }

  function ProducesTest<Id(==)>(jobs0: map<Id, Job<Id>>, sourceLatex: string, svc: Services<Id>, cfg: Config): RankInfo<Id> -> bool {
    (r: RankInfo<Id>) => Produces(jobs0, sourceLatex, svc, cfg, r)
  }

  /** The result a producing entry gives: the PDF path of its job, and whether tailoring failed. */
  function ExpectedEntry<Id(==)>(jobs0: map<Id, Job<Id>>, sourceLatex: string, svc: Services<Id>, cfg: Config,
                                 r: RankInfo<Id>): ResultEntry<Id> {
    if r.id in jobs0 then
      ResultEntry(r.id, PdfPath(cfg.outputDir, jobs0[r.id]),
                  GenerationFailed(GenerateLatexResume(sourceLatex, jobs0[r.id], svc.tailorCall)))
    else ResultEntry(r.id, "", false)
  }

  /** One result per producing entry, in ranking order. */
  function ExpectedResults<Id(==)>(rs: seq<RankInfo<Id>>, jobs0: map<Id, Job<Id>>, sourceLatex: string,
                                   svc: Services<Id>, cfg: Config): seq<ResultEntry<Id>> {
    var kept := Filter(rs, ProducesTest(jobs0, sourceLatex, svc, cfg));
    seq(|kept|, k requires 0 <= k < |kept| => ExpectedEntry(jobs0, sourceLatex, svc, cfg, kept[k]))
  }

  lemma ExpectedResultsStep<Id>(rs: seq<RankInfo<Id>>, jobs0: map<Id, Job<Id>>, sourceLatex: string,
                                    svc: Services<Id>, cfg: Config)
    requires rs != []
    ensures ExpectedResults(rs, jobs0, sourceLatex, svc, cfg)
         == ExpectedResults(rs[..|rs| - 1], jobs0, sourceLatex, svc, cfg)
            + if Produces(jobs0, sourceLatex, svc, cfg, rs[|rs| - 1]) then [ExpectedEntry(jobs0, sourceLatex, svc, cfg, rs[|rs| - 1])] else []
  {
  }

  /** One iteration, on a map that differs from the original only in match reasons. */
  lemma JoinStepResults<Id>(st: JoinState<Id>, r: RankInfo<Id>, jobs0: map<Id, Job<Id>>, sourceLatex: string,
                            svc: Services<Id>, cfg: Config)
    requires st.jobs.Keys == jobs0.Keys
    requires forall id :: id in jobs0 ==> st.jobs[id] == jobs0[id].(matchReason := st.jobs[id].matchReason)
    ensures JoinStep(st, r, sourceLatex, svc, cfg).results
         == st.results + if Produces(jobs0, sourceLatex, svc, cfg, r) then [ExpectedEntry(jobs0, sourceLatex, svc, cfg, r)] else []
  {
    if r.id in jobs0 {
      var reason := Some(r.matchReason.GetOr("N/A"));
      var job := st.jobs[r.id].(matchReason := reason);
      assert job == jobs0[r.id].(matchReason := reason);
      ReasonIrrelevant(jobs0[r.id], reason, sourceLatex, svc, cfg);
    }
  }

  /**
   * `results_list` holds, in ranking order, one entry for each ranking entry
   * whose id names a job and whose PDF compiled: that job's PDF path, and
   * whether the tailoring reply was missing or empty (the original resume was
   * compiled instead).
   */
  lemma {:induction false} JoinFoldResults<Id>(rs: seq<RankInfo<Id>>, jobs0: map<Id, Job<Id>>, sourceLatex: string,
                                              svc: Services<Id>, cfg: Config)
    ensures JoinFold(rs, jobs0, sourceLatex, svc, cfg).results == ExpectedResults(rs, jobs0, sourceLatex, svc, cfg)
  {
    if rs != [] {
      var init := rs[..|rs| - 1];
      JoinFoldResults(init, jobs0, sourceLatex, svc, cfg);
      JoinFoldUpdatesReasons(init, jobs0, sourceLatex, svc, cfg);
      ExpectedResultsStep(rs, jobs0, sourceLatex, svc, cfg);
      JoinStepResults(JoinFold(init, jobs0, sourceLatex, svc, cfg), rs[|rs| - 1], jobs0, sourceLatex, svc, cfg);
    }
  }

  /** Every result belongs to a ranked id that names a job. */
  lemma ResultsNameJobs<Id>(rs: seq<RankInfo<Id>>, jobs0: map<Id, Job<Id>>, sourceLatex: string,
                                svc: Services<Id>, cfg: Config)
    ensures forall k :: 0 <= k < |JoinFold(rs, jobs0, sourceLatex, svc, cfg).results| ==>
      JoinFold(rs, jobs0, sourceLatex, svc, cfg).results[k].id in jobs0 &&
      JoinFold(rs, jobs0, sourceLatex, svc, cfg).results[k].id in JoinFold(rs, jobs0, sourceLatex, svc, cfg).jobs
    ensures |JoinFold(rs, jobs0, sourceLatex, svc, cfg).results| <= |rs|
  {
    JoinFoldResults(rs, jobs0, sourceLatex, svc, cfg);
    JoinFoldUpdatesReasons(rs, jobs0, sourceLatex, svc, cfg);
    var kept := Filter(rs, ProducesTest(jobs0, sourceLatex, svc, cfg));
    forall k | 0 <= k < |kept| ensures kept[k].id in jobs0 {
      FilterMembership(rs, ProducesTest(jobs0, sourceLatex, svc, cfg), kept[k]);
    }
  }

  // ---------------------------------------------------------------------------
  // The tracker write (main.py:166-171)

  /** What the end of the run does to the tracker; `UrlKeyError` is the `KeyError` of a result without 'job_url'. */
  datatype TrackerWrite = NoUpdate | Update(urls: seq<string>) | UrlKeyError

  /** `[res['job_details']['job_url'] for res in results_list]`, only when there are results. */
  function WriteBack<Id>(details: seq<Job<Id>>): (w: TrackerWrite)
    ensures w.NoUpdate? <==> details == []
    ensures w.UrlKeyError? <==> exists k :: 0 <= k < |details| && details[k].jobUrl.None?
    ensures w.Update? ==> |w.urls| == |details| && forall k :: 0 <= k < |details| ==> details[k].jobUrl == Some(w.urls[k])
  {
    if details == [] then NoUpdate
    else if forall k :: 0 <= k < |details| ==> details[k].jobUrl.Some? then
      Update(seq(|details|, k requires 0 <= k < |details| => details[k].jobUrl.value))
    else UrlKeyError
  }

  // ---------------------------------------------------------------------------
  // The funnel

  /** How a run ends: one of the early returns, a crash, or the results with what goes to the tracker. */
  datatype Outcome<Id> =
    | NoResumeText
    | NoScrapedJobs
    | NoNewJobs
    | NoSalaryMatch
    | NoExperienceMatch
    | NoSimilarJobs
    | RankingKeyError     // `job['title']` on a job without a title
    | NoRankings
    | NoSourceResume
    | Finished(results: seq<ResultEntry<Id>>, details: seq<Job<Id>>, tracker: TrackerWrite)

  /** The run's end once the ranking is in: the loop, each result's job as the loop left it, and the tracker write. */
  function Finish<Id(==)>(jobsToProcess: seq<RankInfo<Id>>, filteredJobs: seq<Job<Id>>, sourceLatex: string,
                          svc: Services<Id>, cfg: Config): Outcome<Id> {
    var st := JoinFold(jobsToProcess, JobsMap(filteredJobs), sourceLatex, svc, cfg);
    ResultsNameJobs(jobsToProcess, JobsMap(filteredJobs), sourceLatex, svc, cfg);
    var details := seq(|st.results|, k requires 0 <= k < |st.results| => st.jobs[st.results[k].id]);
    Finished(st.results, details, WriteBack(details))
  }

  /** Steps 7 and 8 (main.py:122-171): the ranking, the source resume, the loop and the tracker write. */
  function FromRanking<Id(==)>(cfg: Config, svc: Services<Id>, filteredJobs: seq<Job<Id>>, resumeText: string,
                               sourceLatex: Option<string>): Outcome<Id> {
    match GetJobRankings(filteredJobs, resumeText, svc.rankCall, svc.rankDecode)
    case TitleMissing => RankingKeyError
    case RankingReply(reply) =>
      if reply.None? || reply.value.rankedJobs.None? then NoRankings
      else if sourceLatex.None? then NoSourceResume
      else Finish(Prefix(reply.value.rankedJobs.value, cfg.geminiTopN), filteredJobs, sourceLatex.value, svc, cfg)
  }

  /** `main()` from the resume check on, as a function of what its collaborators return. */
  function Funnel<Id(==)>(cfg: Config, svc: Services<Id>, processedJobUrls: set<string>, resumeText: Option<string>,
                          scrapedJobs: seq<Job<Id>>, sourceLatex: Option<string>): Outcome<Id> {
    if resumeText.None? || resumeText.value == "" then NoResumeText
    else if scrapedJobs == [] then NoScrapedJobs
    else
      var newJobs := NewJobs(scrapedJobs, processedJobUrls);
      if newJobs == [] then NoNewJobs
      else
        var salaryJobs := SalaryStage(newJobs, cfg.minSalaryInr);
        if salaryJobs == [] then NoSalaryMatch
        else if Classified(salaryJobs, Classifier(svc), cfg.minExperienceYears, cfg.maxExperienceYears) == [] then NoExperienceMatch
        else
          var filteredJobs := svc.similarity(AnnotatedAll(salaryJobs, Classifier(svc), cfg.minExperienceYears, cfg.maxExperienceYears),
                                             resumeText.value);
          if filteredJobs == [] then NoSimilarJobs
          else FromRanking(cfg, svc, filteredJobs, resumeText.value, sourceLatex)
  }

  /** Steps 7 and 8 with the loop. */
  method RankAndGenerate<Id(==)>(cfg: Config, svc: Services<Id>, filteredJobs: seq<Job<Id>>, resumeText: string,
                                 sourceLatex: Option<string>)
    returns (outcome: Outcome<Id>)
    ensures outcome == FromRanking(cfg, svc, filteredJobs, resumeText, sourceLatex)
  {
    var geminiRankings := GetJobRankings(filteredJobs, resumeText, svc.rankCall, svc.rankDecode);
    if geminiRankings.TitleMissing? {
      return RankingKeyError;
    }
    if geminiRankings.reply.None? || geminiRankings.reply.value.rankedJobs.None? {
      return NoRankings;
    }
    if sourceLatex.None? {
      return NoSourceResume;
    }
    var jobsToProcess := Prefix(geminiRankings.reply.value.rankedJobs.value, cfg.geminiTopN);
    var jobsMap, resultsList := ProcessRankedJobs(jobsToProcess, JobsMap(filteredJobs), sourceLatex.value, svc, cfg);
    ResultsNameJobs(jobsToProcess, JobsMap(filteredJobs), sourceLatex.value, svc, cfg);
    var details := seq(|resultsList|, k requires 0 <= k < |resultsList| => jobsMap[resultsList[k].id]);
    outcome := Finished(resultsList, details, WriteBack(details));
  }

  /**
   * `main()` with its loops; `processedJobUrls` is what `load_processed_jobs`
   * returned, `resumeText` what `setup_resume_for_matching` returned,
   * `scrapedJobs` the scraper's records and `sourceLatex` the resume source
   * (`None` when the file is missing).
   */
  method RunFunnel<Id(==)>(cfg: Config, svc: Services<Id>, processedJobUrls: set<string>, resumeText: Option<string>,
                           scrapedJobs: seq<Job<Id>>, sourceLatex: Option<string>)
    returns (outcome: Outcome<Id>)
    ensures outcome == Funnel(cfg, svc, processedJobUrls, resumeText, scrapedJobs, sourceLatex)
  {
    if resumeText.None? || resumeText.value == "" {
      return NoResumeText;
    }
    if scrapedJobs == [] {
      return NoScrapedJobs;
    }
    var newJobs := NewJobs(scrapedJobs, processedJobUrls);
    if newJobs == [] {
      return NoNewJobs;
    }
    if cfg.minSalaryInr > 0 {
      newJobs := Filter(newJobs, SalaryTest(cfg.minSalaryInr));
      if newJobs == [] {
        return NoSalaryMatch;
      }
    }
    var classifiedAndFilteredJobs, annotatedNewJobs :=
      ClassifyAndFilter(newJobs, Classifier(svc), cfg.minExperienceYears, cfg.maxExperienceYears);
    if classifiedAndFilteredJobs == [] {
      return NoExperienceMatch;
    }
    var filteredJobs := svc.similarity(annotatedNewJobs, resumeText.value);
    if filteredJobs == [] {
      return NoSimilarJobs;
    }
    outcome := RankAndGenerate(cfg, svc, filteredJobs, resumeText.value, sourceLatex);
  }

  // ---------------------------------------------------------------------------
  // Properties of a whole run

  /**
   * The tracker is written exactly when some PDF was produced, with one url
   * per result in result order, each the url of that result's job; a result
   * whose job has no url ends the run in a `KeyError` instead.
   */
  lemma FinishedRunWritesResultUrls<Id>(cfg: Config, svc: Services<Id>, processedJobUrls: set<string>, resumeText: Option<string>,
                                            scrapedJobs: seq<Job<Id>>, sourceLatex: Option<string>)
    requires Funnel(cfg, svc, processedJobUrls, resumeText, scrapedJobs, sourceLatex).Finished?
    ensures var o := Funnel(cfg, svc, processedJobUrls, resumeText, scrapedJobs, sourceLatex);
      && |o.details| == |o.results|
      && (forall k :: 0 <= k < |o.results| ==> o.details[k].id == o.results[k].id)
      && (o.tracker.NoUpdate? <==> o.results == [])
      && (o.tracker.Update? ==>
            && |o.tracker.urls| == |o.results|
            && forall k :: 0 <= k < |o.results| ==> o.details[k].jobUrl == Some(o.tracker.urls[k]))
  {
    var o := Funnel(cfg, svc, processedJobUrls, resumeText, scrapedJobs, sourceLatex);
    var newJobs := NewJobs(scrapedJobs, processedJobUrls);
    var salaryJobs := SalaryStage(newJobs, cfg.minSalaryInr);
    var filteredJobs := svc.similarity(AnnotatedAll(salaryJobs, Classifier(svc), cfg.minExperienceYears, cfg.maxExperienceYears),
                                       resumeText.value);
    var reply := GetJobRankings(filteredJobs, resumeText.value, svc.rankCall, svc.rankDecode).reply;
    var rs := Prefix(reply.value.rankedJobs.value, cfg.geminiTopN);
    var jobs0 := JobsMap(filteredJobs);
    assert o == Finish(rs, filteredJobs, sourceLatex.value, svc, cfg);
    ResultsNameJobs(rs, jobs0, sourceLatex.value, svc, cfg);
    JoinFoldUpdatesReasons(rs, jobs0, sourceLatex.value, svc, cfg);
    JobsMapValues(filteredJobs);
  }

  /** `filter_jobs_by_similarity` returns records of the jobs it is given: each returned url is the url of an input job. */
  ghost predicate SelectsFrom<Id(!new)>(similarity: (seq<Job<Id>>, string) -> seq<Job<Id>>) {
    forall jobs: seq<Job<Id>>, text: string, x: Job<Id> :: x in similarity(jobs, text) ==>
      exists y :: y in jobs && y.jobUrl == x.jobUrl
  }

  /** Each url written after the loop is the url of one of the jobs that were ranked. */
  lemma FinishUrlsComeFromRankedJobs<Id>(rs: seq<RankInfo<Id>>, filteredJobs: seq<Job<Id>>, sourceLatex: string,
                                             svc: Services<Id>, cfg: Config)
    requires Finish(rs, filteredJobs, sourceLatex, svc, cfg).tracker.Update?
    ensures forall u :: u in Finish(rs, filteredJobs, sourceLatex, svc, cfg).tracker.urls ==>
      exists x :: x in filteredJobs && x.jobUrl == Some(u)
  {
    var o := Finish(rs, filteredJobs, sourceLatex, svc, cfg);
    var jobs0 := JobsMap(filteredJobs);
    var st := JoinFold(rs, jobs0, sourceLatex, svc, cfg);
    ResultsNameJobs(rs, jobs0, sourceLatex, svc, cfg);
    JoinFoldUpdatesReasons(rs, jobs0, sourceLatex, svc, cfg);
    JobsMapValues(filteredJobs);
    forall u | u in o.tracker.urls ensures exists x :: x in filteredJobs && x.jobUrl == Some(u) {
      var k :| 0 <= k < |o.tracker.urls| && o.tracker.urls[k] == u;
      var id := st.results[k].id;
      assert o.details[k] == st.jobs[id];
      assert jobs0[id].jobUrl == Some(u);
      assert jobs0[id] in filteredJobs;
    }
  }

  /** A url among the similarity stage's output belongs to a scraped job that was not processed before. */
  lemma SimilarityUrlsAreNew<Id(!new)>(cfg: Config, svc: Services<Id>, processedJobUrls: set<string>, resumeText: string,
                                       scrapedJobs: seq<Job<Id>>, x: Job<Id>, u: string)
    requires SelectsFrom(svc.similarity)
    requires var salaryJobs := SalaryStage(NewJobs(scrapedJobs, processedJobUrls), cfg.minSalaryInr);
      x in svc.similarity(AnnotatedAll(salaryJobs, Classifier(svc), cfg.minExperienceYears, cfg.maxExperienceYears), resumeText)
    requires x.jobUrl == Some(u)
    ensures u !in processedJobUrls && exists job :: job in scrapedJobs && job.jobUrl == Some(u)
  {
    var newJobs := NewJobs(scrapedJobs, processedJobUrls);
    var salaryJobs := SalaryStage(newJobs, cfg.minSalaryInr);
    var annotated := AnnotatedAll(salaryJobs, Classifier(svc), cfg.minExperienceYears, cfg.maxExperienceYears);
    NewJobsAreUnprocessed(scrapedJobs, processedJobUrls);
    SalaryStageKeepsMatches(newJobs, cfg.minSalaryInr);
    var y :| y in annotated && y.jobUrl == x.jobUrl;
    var i :| 0 <= i < |annotated| && annotated[i] == y;
    SimilarityInputKeepsRejected(salaryJobs, Classifier(svc), cfg.minExperienceYears, cfg.maxExperienceYears, i);
    var s := salaryJobs[i];
    assert s in newJobs by {
      if cfg.minSalaryInr > 0 {
        assert s in salaryJobs;
      }
    }
    assert s in scrapedJobs && IsNew(processedJobUrls, s);
  }

  /**
   * Across the whole run: every url handed to the tracker belongs to a scraped
   * job that was not processed before.
   */
  lemma TrackerGetsOnlyNewUrls<Id(!new)>(cfg: Config, svc: Services<Id>, processedJobUrls: set<string>, resumeText: Option<string>,
                                         scrapedJobs: seq<Job<Id>>, sourceLatex: Option<string>)
    requires SelectsFrom(svc.similarity)
    requires Funnel(cfg, svc, processedJobUrls, resumeText, scrapedJobs, sourceLatex).Finished?
    requires Funnel(cfg, svc, processedJobUrls, resumeText, scrapedJobs, sourceLatex).tracker.Update?
    ensures forall u :: u in Funnel(cfg, svc, processedJobUrls, resumeText, scrapedJobs, sourceLatex).tracker.urls ==>
      u !in processedJobUrls && exists job :: job in scrapedJobs && job.jobUrl == Some(u)
  {
    var o := Funnel(cfg, svc, processedJobUrls, resumeText, scrapedJobs, sourceLatex);
    var salaryJobs := SalaryStage(NewJobs(scrapedJobs, processedJobUrls), cfg.minSalaryInr);
    var filteredJobs := svc.similarity(AnnotatedAll(salaryJobs, Classifier(svc), cfg.minExperienceYears, cfg.maxExperienceYears),
                                       resumeText.value);
    var reply := GetJobRankings(filteredJobs, resumeText.value, svc.rankCall, svc.rankDecode).reply;
    var rs := Prefix(reply.value.rankedJobs.value, cfg.geminiTopN);
    assert o == Finish(rs, filteredJobs, sourceLatex.value, svc, cfg);
    FinishUrlsComeFromRankedJobs(rs, filteredJobs, sourceLatex.value, svc, cfg);
    forall u | u in o.tracker.urls
      ensures u !in processedJobUrls && exists job :: job in scrapedJobs && job.jobUrl == Some(u)
    {
      var x :| x in filteredJobs && x.jobUrl == Some(u);
      SimilarityUrlsAreNew(cfg, svc, processedJobUrls, resumeText.value, scrapedJobs, x, u);
    }
  }

  /** When every scraped posting was processed on an earlier run, the run stops before any model call. */
  lemma AllProcessedStopsEarly<Id>(cfg: Config, svc: Services<Id>, processedJobUrls: set<string>, resumeText: string,
                                       scrapedJobs: seq<Job<Id>>, sourceLatex: Option<string>)
    requires resumeText != "" && scrapedJobs != []
    requires forall k :: 0 <= k < |scrapedJobs| ==> scrapedJobs[k].jobUrl.Some? && scrapedJobs[k].jobUrl.value in processedJobUrls
    ensures Funnel(cfg, svc, processedJobUrls, Some(resumeText), scrapedJobs, sourceLatex) == NoNewJobs
  {
    NewJobsAreUnprocessed(scrapedJobs, processedJobUrls);
    var newJobs := NewJobs(scrapedJobs, processedJobUrls);
    forall job | job in scrapedJobs ensures !IsNew(processedJobUrls, job) {
      var k :| 0 <= k < |scrapedJobs| && scrapedJobs[k] == job;
    }
    if newJobs != [] {
      var first := newJobs[0];
      assert first in newJobs;
      FilterMembership(scrapedJobs, NewTest(processedJobUrls), first);
      assert false;
    }
  }

  /**
   * As written, scraped postings that all carry NaN amounts (pandas' marker for
   * a missing salary) end the run at the salary stage whenever a floor is set
   * and some posting is new.
   */
  lemma NaNPostingsStopAtSalary<Id>(cfg: Config, svc: Services<Id>, processedJobUrls: set<string>, resumeText: string,
                                    scrapedJobs: seq<Job<Id>>, sourceLatex: Option<string>)
    requires resumeText != "" && cfg.minSalaryInr > 0
    requires NewJobs(scrapedJobs, processedJobUrls) != []
    requires forall k :: 0 <= k < |scrapedJobs| ==> scrapedJobs[k].minAmount.NaN? && scrapedJobs[k].maxAmount.NaN?
    ensures Funnel(cfg, svc, processedJobUrls, Some(resumeText), scrapedJobs, sourceLatex) == NoSalaryMatch
  {
    var newJobs := NewJobs(scrapedJobs, processedJobUrls);
    NewJobsAreUnprocessed(scrapedJobs, processedJobUrls);
    var salaryJobs := SalaryStage(newJobs, cfg.minSalaryInr);
    if salaryJobs != [] {
      var first := salaryJobs[0];
      FilterMembership(newJobs, SalaryTest(cfg.minSalaryInr), first);
      assert first in newJobs;
      assert first in scrapedJobs;
      var k :| 0 <= k < |scrapedJobs| && scrapedJobs[k] == first;
      NaNSalaryRejectedAsWritten(first, cfg.minSalaryInr);
      assert false;
    }
  }

  /** At most `GEMINI_TOP_N` resumes are produced, and never more than the ranking lists. */
  lemma ResultsAtMostTopN<Id>(cfg: Config, svc: Services<Id>, filteredJobs: seq<Job<Id>>, resumeText: string,
                                  sourceLatex: Option<string>)
    requires FromRanking(cfg, svc, filteredJobs, resumeText, sourceLatex).Finished?
    ensures var reply := GetJobRankings(filteredJobs, resumeText, svc.rankCall, svc.rankDecode).reply;
      && |FromRanking(cfg, svc, filteredJobs, resumeText, sourceLatex).results| <= |reply.value.rankedJobs.value|
      && (cfg.geminiTopN >= 0 ==> |FromRanking(cfg, svc, filteredJobs, resumeText, sourceLatex).results| <= cfg.geminiTopN)
  {
    var reply := GetJobRankings(filteredJobs, resumeText, svc.rankCall, svc.rankDecode).reply;
    var rs := Prefix(reply.value.rankedJobs.value, cfg.geminiTopN);
    ResultsNameJobs(rs, JobsMap(filteredJobs), sourceLatex.value, svc, cfg);
  }
}
