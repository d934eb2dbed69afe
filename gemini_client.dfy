/**
 * The pure shaping around the language-model calls in modules/gemini_client.py:
 * the per-job projection sent for ranking, the cleanup of returned LaTeX, and
 * the mapping of a missing or undecodable reply to `None`. The model call
 * itself and `json.loads` are parameters.
 */
module GeminiClient {
  import opened Options
  import opened Text
  import opened Jobs

  /** One entry of `jobs_for_prompt`. */
  datatype PromptJob<Id> = PromptJob(id: Id, title: string, company: string, url: string, description: string)

  /** `job.get('description', '')[:n]`. */
  function DescriptionCut<Id>(job: Job<Id>, n: nat): (r: string)
    ensures r <= job.description.GetOr("")
    ensures |r| == if |job.description.GetOr("")| <= n then |job.description.GetOr("")| else n
  {
    Prefix(job.description.GetOr(""), n)
  }

  function Project<Id>(job: Job<Id>): PromptJob<Id>
    requires job.title.Some?
  {
    PromptJob(job.id, job.title.value, job.company.GetOr("N/A"), job.jobUrl.GetOr(""), DescriptionCut(job, 2000))
  }

  /**
   * `jobs_for_prompt` (modules/gemini_client.py:52-55); `None` stands for the
   * `KeyError` that `job['title']` raises on a job without a title.
   */
  function JobsForPrompt<Id>(jobs: seq<Job<Id>>): (r: Option<seq<PromptJob<Id>>>)
    ensures r.Some? <==> forall k :: 0 <= k < |jobs| ==> jobs[k].title.Some?
    ensures r.Some? ==> |r.value| == |jobs|
  {
    if forall k :: 0 <= k < |jobs| ==> jobs[k].title.Some? then
      Some(seq(|jobs|, k requires 0 <= k < |jobs| => Project(jobs[k])))
    else None
  }

  /**
   * Each projected entry belongs to the job at the same position: the id and
   * title are copied, a missing company reads 'N/A' and a missing url '', and
   * the description is the first at most 2000 characters of the original.
   */
  lemma ProjectionFollowsJobs<Id>(jobs: seq<Job<Id>>, k: nat)
    requires JobsForPrompt(jobs).Some? && k < |jobs|
    ensures var e := JobsForPrompt(jobs).value[k];
      && e.id == jobs[k].id
      && Some(e.title) == jobs[k].title
      && e.company == (if jobs[k].company.Some? then jobs[k].company.value else "N/A")
      && e.url == (if jobs[k].jobUrl.Some? then jobs[k].jobUrl.value else "")
      && e.description <= (if jobs[k].description.Some? then jobs[k].description.value else "")
      && |e.description| <= 2000
      && (jobs[k].description.Some? && |jobs[k].description.value| <= 2000 ==> e.description == jobs[k].description.value)
  {
  }

  // ---------------------------------------------------------------------------
  // Reply mapping

  /**
   * `get_job_rankings` (modules/gemini_client.py:62-72) and
   * `classify_experience_level` (modules/gemini_client.py:97-104): an absent or
   * empty reply gives `None`; otherwise the decoded value, or `None` when
   * `json.loads` fails.
   */
  function DecodeReply<T>(responseText: Option<string>, decode: string -> Option<T>): (r: Option<T>)
    ensures r.Some? <==> responseText.Some? && responseText.value != "" && decode(responseText.value).Some?
    ensures r.Some? ==> r == decode(responseText.value)
  {
    if responseText.None? || responseText.value == "" then None else decode(responseText.value)
  }

  /** What `get_job_rankings` can end in: the `KeyError` of the projection, or the mapped reply. */
  datatype RankingCall<T> = TitleMissing | RankingReply(reply: Option<T>)

  /**
   * `get_job_rankings`: the projection, the model call (prompt construction
   * folded into `call`) and the reply mapping.
   */
  function GetJobRankings<Id, T>(jobs: seq<Job<Id>>, resumeSummary: string,
                                 call: (seq<PromptJob<Id>>, string) -> Option<string>,
                                 decode: string -> Option<T>): (r: RankingCall<T>)
    ensures r.TitleMissing? <==> exists k :: 0 <= k < |jobs| && jobs[k].title.None?
    ensures r.RankingReply? ==> r.reply == DecodeReply(call(JobsForPrompt(jobs).value, resumeSummary), decode)
  {
    match JobsForPrompt(jobs)
    case None => TitleMissing
    case Some(prompted) => RankingReply(DecodeReply(call(prompted, resumeSummary), decode))
  }

  /** `classify_experience_level`: the call sees the title and the description, each '' when missing. */
  function ClassifyExperienceLevel<Id, T>(job: Job<Id>, call: (string, string) -> Option<string>,
                                          decode: string -> Option<T>): (r: Option<T>)
    ensures var reply := call(job.title.GetOr(""), job.description.GetOr(""));
      && (r.Some? <==> reply.Some? && reply.value != "" && decode(reply.value).Some?)
      && (r.Some? ==> r == decode(reply.value))
  {
    DecodeReply(call(job.title.GetOr(""), job.description.GetOr("")), decode)
  }

  // ---------------------------------------------------------------------------
  // generate_latex_resume

  const Fence := "```"

  /** `text.strip().replace('```latex', '').replace('```', '')`. */
  function StripFences(text: string): (r: string)
    ensures |r| <= |Strip(text)|
    ensures !Contains(r, Fence)
  {
    var once := ReplaceAll(Strip(text), "```latex", "");
    ReplaceAllFenceLeavesNone(once);
    ReplaceAll(once, Fence, "")
  }

  /** When `s` does not start with `pat`, the replacement starts with `s[0]`. */
  lemma ReplaceKeepsFirst(s: string, pat: string, rep: string)
    requires |pat| > 0 && |s| > 0
    requires !(|s| >= |pat| && s[..|pat|] == pat)
    ensures |ReplaceAll(s, pat, rep)| > 0 && ReplaceAll(s, pat, rep)[0] == s[0]
  {
  }

  lemma StartsAtAfterFirst(c: char, t: string, w: string, i: int)
    requires 1 <= i
    ensures StartsAt([c] + t, w, i) == StartsAt(t, w, i - 1)
  {
    if 0 <= i <= |[c] + t| - |w| {
      assert ([c] + t)[i..i + |w|] == t[i - 1..i - 1 + |w|];
    }
  }

  /**
   * Removing every "```" leaves none behind: a run of three backticks in the
   * result would have started a removal where its first backtick was kept.
   */
  lemma {:induction false} ReplaceAllFenceLeavesNone(s: string)
    ensures !Contains(ReplaceAll(s, Fence, ""), Fence)
    decreases |s|
  {
    var r := ReplaceAll(s, Fence, "");
    if |s| < 3 {
      assert r == s;
    } else if s[..3] == Fence {
      ReplaceAllFenceLeavesNone(s[3..]);
      assert r == ReplaceAll(s[3..], Fence, "");
    } else {
      var rest := ReplaceAll(s[1..], Fence, "");
      ReplaceAllFenceLeavesNone(s[1..]);
      assert r == [s[0]] + rest;
      var u := s[1..];
      if s[0] == '`' && s[1] == '`' {
        // s does not start with a fence, so s[2] is no backtick, and `rest` reads s[1], s[2], ...
        assert s[..3] == [s[0], s[1], s[2]];
        assert s[2] != '`';
        assert |u| >= 3 ==> u[..3] != Fence by { assert |u| >= 3 ==> u[..3][1] == s[2]; }
        var v := u[1..];
        assert rest == [u[0]] + ReplaceAll(v, Fence, "");
        assert v[0] == s[2];
        assert |v| >= 3 ==> v[..3] != Fence by { assert |v| >= 3 ==> v[..3][0] == s[2]; }
        ReplaceKeepsFirst(v, Fence, "");
        assert rest[1] != '`';
      } else if s[0] == '`' {
        assert u[0] == s[1];
        assert |u| >= 3 ==> u[..3] != Fence by { assert |u| >= 3 ==> u[..3][0] == s[1]; }
        ReplaceKeepsFirst(u, Fence, "");
        assert rest[0] != '`';
      }
      assert !StartsAt(r, Fence, 0);
      forall i | 1 <= i <= |r| - 3 ensures !StartsAt(r, Fence, i) {
        StartsAtAfterFirst(s[0], rest, Fence, i);
      }
    }
  }

  /** A reply without any backtick only loses its surrounding whitespace. */
  lemma StripFencesWithoutBackticks(text: string)
    requires forall k :: 0 <= k < |text| ==> text[k] != '`'
    ensures StripFences(text) == Strip(text)
  {
    var t := Strip(text);
    var a, b :| 0 <= a <= b <= |text| && t == text[a..b];
    assert forall k :: 0 <= k < |t| ==> t[k] == text[a + k];
    ReplaceAllMissingChar(t, "```latex", "");
    ReplaceAllMissingChar(t, Fence, "");
  }

  /**
   * A reply that is one fenced block, "```latex" + body + "```", with no
   * backtick in the body, comes back as exactly the body: only the fences are
   * removed, and every other character survives in order.
   */
  lemma StripFencesOfFencedBlock(body: string)
    requires forall k :: 0 <= k < |body| ==> body[k] != '`'
    ensures StripFences("```latex" + body + "```") == body
  {
    var s := "```latex" + body + "```";
    StripUnpadded(s);
    assert s == "```latex" + (body + Fence);
    ReplaceAllAtPattern(body + Fence, "```latex", "");
    ReplaceAllSkipsFree(body, Fence, "```latex", "");
    assert ReplaceAll(Fence, "```latex", "") == Fence;
    var once := ReplaceAll(Strip(s), "```latex", "");
    assert once == body + Fence;
    ReplaceAllSkipsFree(body, Fence, Fence, "");
    assert Fence + "" == Fence;
    ReplaceAllAtPattern("", Fence, "");
    assert ReplaceAll(Fence, Fence, "") == "";
    assert ReplaceAll(once, Fence, "") == body;
  }

  /**
   * The reply mapping of `generate_latex_resume` (modules/gemini_client.py:84-87):
   * a non-empty reply is stripped of whitespace and then of every code fence; an
   * absent or empty reply comes back unchanged.
   */
  function CleanLatexReply(modifiedLatex: Option<string>): (r: Option<string>)
    ensures modifiedLatex.None? || modifiedLatex.value == "" ==> r == modifiedLatex
    ensures modifiedLatex.Some? && modifiedLatex.value != "" ==>
      r.Some? && !Contains(r.value, Fence) && |r.value| <= |Strip(modifiedLatex.value)|
  {
    if modifiedLatex.Some? && modifiedLatex.value != "" then Some(StripFences(modifiedLatex.value))
    else modifiedLatex
  }

  /** A fenced reply is cleaned down to its body. */
  lemma CleanLatexReplyOfFencedBlock(body: string)
    requires forall k :: 0 <= k < |body| ==> body[k] != '`'
    ensures CleanLatexReply(Some("```latex" + body + "```")) == Some(body)
  {
    StripFencesOfFencedBlock(body);
  }

  /**
   * `generate_latex_resume` (modules/gemini_client.py:76-87): the call sees the
   * source LaTeX, the title and company ('N/A' when missing) and the first at
   * most 5000 characters of the description.
   */
  function GenerateLatexResume<Id>(latexSource: string, job: Job<Id>,
                                   call: (string, string, string, string) -> Option<string>): Option<string>
  {
    CleanLatexReply(call(latexSource, job.title.GetOr("N/A"), job.company.GetOr("N/A"), DescriptionCut(job, 5000)))
  }

  /** The description sent for tailoring is the original cut to at most 5000 characters. */
  lemma TailoringDescriptionIsCut<Id>(job: Job<Id>)
    ensures DescriptionCut(job, 5000) <= job.description.GetOr("")
    ensures |DescriptionCut(job, 5000)| <= 5000
    ensures |job.description.GetOr("")| <= 5000 ==> DescriptionCut(job, 5000) == job.description.GetOr("")
  {
  }
}
