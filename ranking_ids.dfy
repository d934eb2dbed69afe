/**
 * Job ids as Python values. The scraper sets `id` to `hash(job_url)`, an int
 * (modules/scraper.py:39); the ranking reply is parsed against a schema whose
 * `id` is a string (models/gemini_output_models.py), so `original_jobs_map.get`
 * (main.py:140) compares a str with int keys and never finds a job.
 */
module RankingIds {
  import opened Options
  import opened Text
  import opened Seqs
  import opened Jobs
  import opened ResumeGenerator
  import opened Pipeline

  datatype PyId = IntId(n: int) | StrId(s: string)

  predicate HashIds(jobs: seq<Job<PyId>>) {
    forall k :: 0 <= k < |jobs| ==> jobs[k].id.IntId?
  }

  predicate StringIds(rs: seq<RankInfo<PyId>>) {
    forall i :: 0 <= i < |rs| ==> rs[i].id.StrId?
  }

  /**
   * As written: with hash ids on the jobs and string ids in the reply, no
   * ranked job is found, no resume is produced and the tracker is not written.
   */
  lemma StringIdsNeverFound(rs: seq<RankInfo<PyId>>, jobs: seq<Job<PyId>>, sourceLatex: string,
                            svc: Services<PyId>, cfg: Config)
    requires HashIds(jobs) && StringIds(rs)
    ensures Finish(rs, jobs, sourceLatex, svc, cfg).results == []
    ensures Finish(rs, jobs, sourceLatex, svc, cfg).tracker == NoUpdate
  {
    var jobs0 := JobsMap(jobs);
    JobsMapKeys(jobs);
    JoinFoldResults(rs, jobs0, sourceLatex, svc, cfg);
    forall id | id in jobs0 ensures id.IntId? {
      var k :| 0 <= k < |jobs| && jobs[k].id == id;
    }
    FilterKeepsNone(rs, ProducesTest(jobs0, sourceLatex, svc, cfg));
  }

  lemma {:induction false} FilterKeepsNone<T>(s: seq<T>, p: T -> bool)
    requires forall i :: 0 <= i < |s| ==> !p(s[i])
    ensures Filter(s, p) == []
  {
    if s != [] {
      FilterKeepsNone(s[..|s| - 1], p);
    }
  }

  /** `str(id)`: the form the model echoes back. */
  function CanonId(id: PyId): (r: PyId)
    ensures r.StrId?
  {
    match id
    case IntId(n) => StrId(IntString(n))
    case StrId(s) => StrId(s)
  }

  function CanonJobs(jobs: seq<Job<PyId>>): (r: seq<Job<PyId>>)
    ensures |r| == |jobs|
  {
    seq(|jobs|, k requires 0 <= k < |jobs| => jobs[k].(id := CanonId(jobs[k].id)))
  }

  function CanonRanked(rs: seq<RankInfo<PyId>>): (r: seq<RankInfo<PyId>>)
    ensures |r| == |rs|
  {
    seq(|rs|, i requires 0 <= i < |rs| => rs[i].(id := CanonId(rs[i].id)))
  }

  /** The join keyed on `str(job['id'])` and looked up with `str(rank_info['id'])`. */
  function CorrectedFinish(rs: seq<RankInfo<PyId>>, jobs: seq<Job<PyId>>, sourceLatex: string,
                           svc: Services<PyId>, cfg: Config): Outcome<PyId> {
    Finish(CanonRanked(rs), CanonJobs(jobs), sourceLatex, svc, cfg)
  }

  /** The reply echoes each ranked job's id as the decimal string of its hash. */
  predicate Echoes(rs: seq<RankInfo<PyId>>, jobs: seq<Job<PyId>>) {
    forall i :: 0 <= i < |rs| ==> exists k :: 0 <= k < |jobs| && EchoesId(rs[i], jobs[k])
  }

  predicate EchoesId(r: RankInfo<PyId>, job: Job<PyId>) {
    job.id.IntId? && r.id == StrId(IntString(job.id.n))
  }

  lemma {:induction false} FilterKeepsAll<T>(s: seq<T>, p: T -> bool)
    requires forall i :: 0 <= i < |s| ==> p(s[i])
    ensures Filter(s, p) == s
  {
    if s != [] {
      FilterKeepsAll(s[..|s| - 1], p);
    }
  }

  /** Corrected: every id the reply echoes finds its job. */
  lemma EchoedIdsFoundWhenCanonical(rs: seq<RankInfo<PyId>>, jobs: seq<Job<PyId>>)
    requires Echoes(rs, jobs)
    ensures forall i :: 0 <= i < |rs| ==> CanonRanked(rs)[i].id in JobsMap(CanonJobs(jobs))
  {
    var cj := CanonJobs(jobs);
    JobsMapKeys(cj);
    forall i | 0 <= i < |rs| ensures CanonRanked(rs)[i].id in JobsMap(cj) {
      var k :| 0 <= k < |jobs| && EchoesId(rs[i], jobs[k]);
      assert cj[k].id == CanonRanked(rs)[i].id;
    }
  }

  /** Corrected: when pdflatex succeeds on everything, every echoed ranking entry yields a resume. */
  lemma EveryEchoedEntryYieldsResume(rs: seq<RankInfo<PyId>>, jobs: seq<Job<PyId>>, sourceLatex: string,
                                     svc: Services<PyId>, cfg: Config)
    requires Echoes(rs, jobs)
    requires forall latex, path :: svc.compile(latex, path) == Compiled
    ensures |CorrectedFinish(rs, jobs, sourceLatex, svc, cfg).results| == |rs|
  {
    var cr := CanonRanked(rs);
    var jobs0 := JobsMap(CanonJobs(jobs));
    EchoedIdsFoundWhenCanonical(rs, jobs);
    JoinFoldResults(cr, jobs0, sourceLatex, svc, cfg);
    FilterKeepsAll(cr, ProducesTest(jobs0, sourceLatex, svc, cfg));
    assert CorrectedFinish(rs, jobs, sourceLatex, svc, cfg).results == JoinFold(cr, jobs0, sourceLatex, svc, cfg).results;
  }
}
