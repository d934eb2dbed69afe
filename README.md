# Job-search funnel: a Dafny model

This project models the decision core of an automated job-search assistant.
The assistant scrapes postings and drops the ones it processed on an earlier
run, which it finds in a hosted key-value tracker. It then filters the rest by
salary and by the experience band a language model estimates, keeps the
postings most similar to the candidate's resume, and asks the model to rank
them. For each of the top-ranked jobs it compiles a tailored LaTeX resume to a
PDF, falling back to the untailored resume when tailoring fails. Finally it
writes the URLs of the jobs that got a PDF back to the tracker.

The model covers:

- the structured keyword filters (seniority, experience phrases, location,
  entry level);
- the tracker's load and update, with the 90-day age cut-off, record
  skipping and the URL-keyed merge;
- the shape of the model-client calls: prompt projection, the truncation
  limits, reply decoding, and stripping of the code fences;
- the candidate-profile text;
- resume file naming and the success/failure of compilation;
- `main()` from the new-job filter to the tracker write: every early exit,
  the salary test, the experience-overlap test, the join of the ranking
  reply with the jobs it names, and what reaches the tracker.

Modules follow the source files:

| module | file |
|---|---|
| `KeywordFilter` | `keyword_filter.py` |
| `ExperiencePatterns` | the regular expressions of `extract_experience_from_text` |
| `ExperienceExamples` | worked evaluations of those expressions |
| `Tracker` | `modules/tracker.py` |
| `GeminiClient` | `modules/gemini_client.py` |
| `ProfileBuilder` | `modules/profile_builder.py` |
| `ResumeGenerator` | `modules/resume_generator.py` |
| `PipelineStages` | `main.py`, steps 4 to 6 |
| `Pipeline` | `main.py`, steps 7 and 8, and the whole funnel |
| `RankingIds` | the id types that meet in the ranking join |

`Options`, `Text`, `Seqs` and `Jobs` hold the shared vocabulary: options,
strings, list filtering, and the job record.

Collaborators the core cannot see are parameters:

- the scraper's output, the tracker's HTTP reply, the clock, ISO-date parsing;
- the model calls and `json.loads`;
- the similarity filter;
- the outcome of running pdflatex.

Loops in the source are methods with loops, each proved equal to a
specification function. The properties are proved about those functions, for
example:

- `HasSeniorKeywords`, `FilterJobsByExperience`, `FilterJobsByLocation`;
- `FilterForEntryLevelJobs`, `ExtractExperienceFromText`;
- `LoadProcessedJobs`, `UpdateProcessedJobs`;
- `AnyAllowedAmong`, `ClassifyAndFilter`, `ProcessRankedJobs`.

`RankAndGenerate` and `RunFunnel` have no loop of their own: they call these
methods and are proved equal to the funnel's specification.

Where the code departs from its documented design, the model follows the code:

- A job with no location is dropped by the location filter.
- The experience figure of a description is the largest of the per-phrase
  minima, not the smallest.
- Salaries are compared against the floor exactly as stated, with no
  currency or unit normalisation; a posting whose amounts are NaN is
  rejected, as the code does.
- The similarity stage receives every salary survivor, not the classified
  list; classification only decides whether the run goes on.
- Loading the tracker raises a `KeyError` when a recent record has no `url`.
- The experience filter and the funnel run the seniority keyword search and
  the salary test as written. The corrected versions of the two findings
  below are separate definitions, related to the as-written ones by lemmas.

## Model

| member | source | states |
|---|---|---|
| KeywordFilter.HasSeniorKeywords | keyword_filter.py:12-18 | the loop over the senior keywords answers exactly whether some keyword, fenced by `\b` on both sides, occurs in the lower-cased title (the search as written) |
| KeywordFilter.SeniorTitleAsWrittenImpliesSeniorTitle | keyword_filter.py:12-18 | every title the as-written `\b…\b` search flags is also flagged by the corrected word test, so the correction only adds titles |
| KeywordFilter.SrDotTitleMissedAsWritten | keyword_filter.py:6-18 | the title "sr. engineer" is not flagged senior by the keyword search as written |
| KeywordFilter.SrDotTitleCaughtWhenCorrected | keyword_filter.py:6-18 | the title "sr. engineer" is flagged senior once `sr.` is matched as a word |
| KeywordFilter.FilterJobsByExperience | keyword_filter.py:20-61 | the filter keeps, in order, exactly the jobs passing the experience keep test (with the title search as written), and kept plus skipped equals the input count |
| KeywordFilter.ExperienceFilterKeepsOrder | keyword_filter.py:20-61 | the kept jobs are a subsequence of the input, and filtering again changes nothing |
| KeywordFilter.EntryOrInternAlwaysKept | keyword_filter.py:30-33 | a job whose lower-cased type is "internship" or whose lower-cased level is "entry level" is kept, whatever its title or description says |
| KeywordFilter.RejectionRulesRemove | keyword_filter.py:35-56 | a job that is not entry level or intern is removed when its level is senior, its structured range starts above the maximum, its title matches a senior keyword under the `\b…\b` search as written, or its description asks for more years |
| KeywordFilter.SrDotJobKeptAsWritten | keyword_filter.py:12-61 | a posting titled "sr. engineer" with no level, type, range or description survives the experience filter as written |
| KeywordFilter.KeptDescriptionWithinLimit | keyword_filter.py:52-56 | a kept job that is not entry level or intern has no experience phrase in its description whose minimum exceeds the maximum years |
| KeywordFilter.ShouldUseGeminiClassification | keyword_filter.py:63-73 | the decision is true for every job count and threshold |
| KeywordFilter.AnyAllowedAmong | keyword_filter.py:96-100 | the loop answers exactly whether some allowed location equals one of the location parts |
| KeywordFilter.FilterJobsByLocation | keyword_filter.py:83-118 | the filter keeps, in order, exactly the jobs passing the location test, and kept plus skipped equals the input count |
| KeywordFilter.LocationFilterMembership | keyword_filter.py:88-115 | a dict location is kept iff an allowed entry equals its lower-cased city, state or country; a string location iff an allowed entry occurs in it ignoring case; a job with no location never |
| KeywordFilter.FilterForEntryLevelJobs | keyword_filter.py:141-167 | the loop keeps, in order, exactly the jobs passing the entry-level test |
| KeywordFilter.EntryLevelMembership | keyword_filter.py:143-161 | a job is kept iff its lower-cased title and description, joined by a space, hold an entry keyword or an acceptable experience phrase and no senior term, and no experience phrase in the description asks for more than 2 years |
| KeywordFilter.EntryLevelKeptIsJunior | keyword_filter.py:143-161 | a kept job has no senior term in its title or description, and no experience phrase in its description asks for more than 2 years |
| ExperiencePatterns.ExtractExperienceFromText | keyword_filter.py:169-194 | the loop over patterns and matches returns the largest per-match minimum, 0 when nothing matches |
| ExperiencePatterns.ExperienceFigureIsLargestMinimum | keyword_filter.py:184-194 | no phrase match in the text has a minimum above the figure, and the figure is 0 or the minimum of some match |
| ExperiencePatterns.EmptyTextHasNoMatches | keyword_filter.py:171-172 | no pattern matches the empty text |
| ExperiencePatterns.PatternMatchIsPhraseMatch | keyword_filter.py:174-185 | every match any of the four patterns finds in the lower-cased text is an experience phrase match of the text |
| ExperienceExamples.RangeCountsAsUpperFigure | keyword_filter.py:175-190 | for "1-3 years exp" the range pattern yields [1, 3] and the plain pattern [3], so the figure is 3, the upper end of the range |
| Tracker.LoadProcessedJobs | modules/tracker.py:10-46 | the load returns the empty result on an unset store, a non-200 or network failure, or a non-list payload; otherwise it returns the recent records and their URL set |
| Tracker.LoadKeepsExactlyRecent | modules/tracker.py:23-30 | the kept records are a subsequence of the stored ones, and a record is kept iff it is a dict whose `added_at` parses as a naive time strictly after now minus 90 days |
| Tracker.UnparsableRecordIsSkipped | modules/tracker.py:26-32 | a dict record whose `added_at` is not a string, does not parse or is timezone-aware leaves the load as if it were not stored |
| Tracker.UrlSetOfKeptRecords | modules/tracker.py:34 | the returned URL set is exactly the set of `url` values of the kept records |
| Tracker.LoadFailsOnlyOnMissingUrl | modules/tracker.py:34 | a 200 list load fails iff some kept record has no `url` |
| Tracker.NonListPayloadIsEmpty | modules/tracker.py:19-21 | a 200 reply whose payload is not a JSON list loads as no URLs and no records |
| Tracker.UpdateProcessedJobs | modules/tracker.py:48-62 | nothing is posted when the store is unset; otherwise the posted list is the values of the URL-keyed dict built from the stored records and then the new URLs |
| Tracker.PostedOrderAndNoDuplicates | modules/tracker.py:56-62 | the posted records' URLs are, in order, the stored URLs followed by the new ones, each at its first occurrence, so no URL is posted twice |
| Tracker.NewUrlPostedOnce | modules/tracker.py:58-59 | each new URL is posted as a fresh record with the stamp of its last occurrence, and no URL appears twice |
| Tracker.StoredRecordCarriedOver | modules/tracker.py:56-62 | a stored record whose URL is not new, and which is the last stored record with that URL, is posted unchanged |
| GeminiClient.JobsForPrompt | modules/gemini_client.py:52-55 | the prompt projection exists iff every job has a title, and then has one entry per job |
| GeminiClient.ProjectionFollowsJobs | modules/gemini_client.py:52-55 | each projected entry carries its job's id and title, the company or 'N/A', the url or '', and the description cut to 2000 characters |
| GeminiClient.DecodeReply | modules/gemini_client.py:62-72 | the decoded reply is present iff the response text is present, non-empty and decodes, and it is then that decoding |
| GeminiClient.GetJobRankings | modules/gemini_client.py:49-72 | the ranking call raises the title `KeyError` iff some job has no title; otherwise its answer is the decoded reply to the projected jobs |
| GeminiClient.ClassifyExperienceLevel | modules/gemini_client.py:89-103 | the classification is the decoded reply to the title and full description, with '' for missing fields |
| GeminiClient.StripFences | modules/gemini_client.py:86 | the cleaned text contains no triple backtick and is no longer than the stripped reply |
| GeminiClient.StripFencesOfFencedBlock | modules/gemini_client.py:86 | a reply "```latex" + body + "```" whose body has no backtick cleans to exactly the body: only the fences go, every other character survives in order |
| GeminiClient.ReplaceAllFenceLeavesNone | modules/gemini_client.py:86 | removing every triple backtick leaves no triple backtick, even where removals join backticks |
| GeminiClient.StripFencesWithoutBackticks | modules/gemini_client.py:86 | a reply with no backtick is only stripped of surrounding whitespace |
| GeminiClient.CleanLatexReply | modules/gemini_client.py:84-87 | a missing or empty reply is returned as it is; any other reply comes back cleaned of fences |
| GeminiClient.CleanLatexReplyOfFencedBlock | modules/gemini_client.py:84-87 | a single fenced block reply comes back as its body |
| GeminiClient.TailoringDescriptionIsCut | modules/gemini_client.py:76-81 | the description sent for tailoring is a prefix of the job's description of at most 5000 characters, and the whole description when it is shorter |
| ProfileBuilder.JoinOr | modules/profile_builder.py:9-19 | the joined list is missing iff the list is empty (the IndexError), is the item itself for one item, and otherwise contains every item |
| ProfileBuilder.JoinOrTwo | modules/profile_builder.py:9-10 | two items join as "a, or b" |
| ProfileBuilder.JoinOrThree | modules/profile_builder.py:9-10 | three items join as "a, b, or c" |
| ProfileBuilder.CreateIdealCandidateProfile | modules/profile_builder.py:9-31 | there is no profile iff the location or search-term list is empty; otherwise the profile ends with the separator, the resume text and a newline |
| ProfileBuilder.ProfileStatesPreferences | modules/profile_builder.py:21-26 | the profile mentions every location and search term, both ends of the experience band, and the salary floor with thousands separators |
| ProfileBuilder.ProfileShowsGroupedSalary | modules/profile_builder.py:26 | a floor of 800000 appears in the profile as "800,000" |
| Text.ThousandsStringReadsBack | modules/profile_builder.py:26 | removing the commas from a number written with thousands separators gives its plain decimal form |
| ResumeGenerator.SafeName | modules/resume_generator.py:13-14 | the safe name has the same length as its input, with every space and slash turned into an underscore and every other character kept |
| ResumeGenerator.PlaceholdersForMissingFields | modules/resume_generator.py:13-14 | a missing company names the file "UnknownCompany", and a missing title "UnknownTitle" |
| ResumeGenerator.BaseFilename | modules/resume_generator.py:13-15 | the base name is "Resume_", the safe company name, "_", and the first 30 characters of the safe title; it contains no space or slash |
| ResumeGenerator.TruncationCommutes | modules/resume_generator.py:14-15 | cutting the title to 30 characters before or after making it safe gives the same name |
| ResumeGenerator.TexAndPdfShareStem | modules/resume_generator.py:16-17 | the .tex and .pdf paths are the same stem with different extensions, so they differ |
| ResumeGenerator.CreateResumePdf | modules/resume_generator.py:23-46 | a PDF path is returned iff pdflatex succeeds on the .tex file, and it is then the job's .pdf path |
| PipelineStages.NewJobsAreUnprocessed | main.py:55 | the new jobs are, in scraped order, exactly the scraped jobs whose url was not processed before; a job without a url counts as new |
| PipelineStages.NaNSalaryRejectedAsWritten | main.py:65-77 | a posting whose two amounts are NaN is rejected, while the same posting with both amounts missing is kept |
| PipelineStages.SalaryMatchCases | main.py:65-77 | a posting with no stated amount, or an amount `float()` refuses, is kept; otherwise it is kept iff one of its amounts reaches the floor |
| PipelineStages.SalaryMatchAgreesWithoutNaN | main.py:65-77 | for postings without NaN amounts, the corrected salary test agrees with the one as written |
| PipelineStages.SalaryStageKeepsMatches | main.py:61-81 | a floor of zero or less keeps every new job; otherwise the survivors are, in order, exactly the new jobs passing `is_salary_match` as written, NaN amounts included |
| PipelineStages.OverlapMeansSharedYear | main.py:98 | the overlap test holds iff some year count lies in both the configured band and the job's estimate |
| PipelineStages.OverlapExamples | main.py:95-98 | with band [0, 2], an estimate of 1-3 years matches and one of 3-5 does not; an inverted estimate never matches |
| PipelineStages.ClassifyAndFilter | main.py:89-115 | the loop yields the classified list and the new jobs as the shared dicts leave them, each equal to its specification |
| PipelineStages.ClassifiedAreMatched | main.py:94-104 | the classified list holds exactly the annotated versions of the jobs whose classification came back non-empty and overlaps the band |
| PipelineStages.MatchedJobCarriesEstimate | main.py:95-103 | a matched job carries the classifier's years, with 99 for a missing one, and is otherwise unchanged |
| PipelineStages.SimilarityInputKeepsRejected | main.py:113-118 | the similarity stage receives every salary survivor; those the classifier rejected arrive unchanged, and all keep their id and url |
| Pipeline.JobsMapKeys | main.py:135 | an id has an entry in the job map iff some filtered job has that id |
| Pipeline.JobsMapValues | main.py:135 | every entry of the job map is one of the filtered jobs, under its own id |
| Pipeline.JobsMapLastWins | main.py:135 | when ids repeat, the map holds the last job with each id |
| Pipeline.ProcessRankedJobs | main.py:138-163 | the loop over the ranked entries leaves the map and the results list its specification describes |
| Pipeline.JoinFoldUpdatesReasons | main.py:140-144 | the loop keeps the map's keys and changes only match reasons; an unranked job is untouched, and a ranked one keeps the reason of the last entry naming it ('N/A' when that entry has none) |
| Pipeline.JoinFoldResults | main.py:145-158 | the results are, in ranking order, one entry per ranked entry naming a job on which pdflatex succeeds, with whether the original resume was used |
| Pipeline.ResultsNameJobs | main.py:138-158 | every result names a job of the map, and there are no more results than ranked entries |
| Pipeline.ResultsAtMostTopN | main.py:133-134 | a run produces no more resumes than the ranking lists, and at most the configured top N |
| Pipeline.WriteBack | main.py:166-171 | nothing is written iff there are no results; a `KeyError` arises iff some result's job has no url; otherwise one url per result is written, in order |
| Pipeline.FinishedRunWritesResultUrls | main.py:166-171 | a finished run pairs each result with its job, and writes to the tracker exactly when there are results, the url of each result's job in result order |
| Pipeline.SimilarityUrlsAreNew | main.py:55-118 | when the similarity filter returns only jobs it was given, each url it returns belongs to a scraped job not processed before |
| Pipeline.TrackerGetsOnlyNewUrls | main.py:55-169 | every url a run hands to the tracker belongs to a scraped job that was not processed before |
| Pipeline.NaNPostingsStopAtSalary | main.py:61-84 | with a floor set and some new posting, a scrape whose postings all carry NaN amounts ends the run at the salary stage |
| Pipeline.AllProcessedStopsEarly | main.py:55-59 | when every scraped job was processed before, the run stops with no new jobs, before any model call |
| Pipeline.RankAndGenerate | main.py:122-171 | the ranking, resume-source check, loop and tracker write end as the funnel's specification says |
| Pipeline.RunFunnel | main.py:39-171 | the whole run, with its loops, ends in the outcome the funnel's specification describes, including each early exit; its stages run the salary test and the title search as written |
| RankingIds.StringIdsNeverFound | main.py:135-143 | with integer hash ids on the jobs and string ids in the ranking reply, no resume is produced and the tracker is not written |
| RankingIds.EchoedIdsFoundWhenCanonical | main.py:135-143 | when both sides are keyed by the string form of the id, every echoed id finds its job |
| RankingIds.EveryEchoedEntryYieldsResume | main.py:138-158 | with string-form keys and pdflatex always succeeding, every ranking entry that echoes a job's id yields a resume |

## Left out

- Console output, sleeps, environment variables and the email notification are not modelled, since they do not change what the core decides. The store URL is a flag that says whether it is set.
- The clock is a parameter: the load takes `now` in microseconds, and the update takes one ISO stamp per new URL.
- `datetime.fromisoformat` is a parameter that returns a naive or timezone-aware instant, or nothing.
- HTTP is a parameter: the tracker's reply is a status with a payload, or a network failure. The outcome of the update's POST is not modelled, because the source only prints it.
- `_call_gemini`, `json.loads` and the prompt builders of prompts.py are parameters; only their inputs, and how their replies are used, are modelled.
- `setup_resume_for_matching` and `parse_resume` are not modelled; their result is the `resumeText` parameter of the funnel.
- The scraper, the resume-data fetcher and the similarity filter of modules/nlp_processor.py are not modelled: the scraper's records and the similarity result are parameters. The property about similarity output assumes the filter returns only jobs it was given.
- Writing the .tex file, the output-directory creation and removing pdflatex's auxiliary files are not modelled; compilation is a parameter that succeeds or fails.
- Character classes: `\w`, `\d` and `str.lower()` are ASCII only, so Unicode letters and case mappings outside ASCII are not modelled. `\s` is the full set of Python whitespace.
- A key whose value is `None` is treated as a missing key. In the source, `.get(key, default)` returns `None` when the key is present with value `None`.
- Salary amounts are a real number, NaN, missing, or a value `float()` refuses; infinities are not modelled.
- Tracker.UpdateProcessedJobs: requires every stored record to have a `url`. The source's `KeyError` for one without is not modelled, because the load that produces those records already fails on them (Tracker.LoadFailsOnlyOnMissingUrl).
- GeminiClient.GetJobRankings: a reply that decodes to something other than a dict is not modelled; the decoded reply is a record with an optional ranked-job list.
- PipelineStages.ExperienceData: a classifier reply that decodes to something other than a dict, where `.get` fails at main.py:95, is not modelled, and year values are integers, so a reply whose `min_years` or `max_years` is not an int, which `max`/`min` at main.py:98 would reject or order differently, is not modelled either.
- Pipeline.Funnel: the `KeyError` of a ranking entry without an `id`, and the ranking entry fields other than `id` and `match_reason`, are not modelled.
- Pipeline.Funnel: assumes the ranking reply's ids have the same type as the jobs' ids. RankingIds shows what happens when they are an integer hash and a string, and what happens when both are keyed by the string form.
- The value of Python's salted `hash()` is not modelled; an id is any integer.

## Findings

| source | as written | input that shows it | evidently intended | confidence | as-written member | corrected member |
|---|---|---|---|---|---|---|
| main.py:65-77 | `float(job.get('min_amount') or 0)` keeps NaN, because NaN is truthy, and every comparison with NaN is false, so the posting is rejected | a scraped posting without a salary, whose pandas record carries NaN for both amounts | a posting stating no salary is kept, as it is when the keys are missing | not executed | PipelineStages.NaNSalaryRejectedAsWritten | PipelineStages.SalaryMatchCases |
| keyword_filter.py:6-18 | the keyword `sr.` is wrapped in `\b` on both sides, and a `\b` after the dot needs a word character next | the title "sr. engineer" | titles abbreviated "sr." count as senior | not executed | KeywordFilter.SrDotJobKeptAsWritten | KeywordFilter.SrDotTitleCaughtWhenCorrected |
| main.py:135-143 | the job map is keyed by the scraper's integer `hash(job_url)`, but the ranking reply's `id` is a string under its schema, so `original_jobs_map.get` never finds a job | any run reaching the ranking: filtered jobs with integer ids, and a reply echoing them as strings | each ranked entry finds the job it names | not executed | RankingIds.StringIdsNeverFound | RankingIds.EveryEchoedEntryYieldsResume |
