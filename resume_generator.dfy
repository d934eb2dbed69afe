/**
 * The file naming and the result of `create_resume_pdf`
 * (modules/resume_generator.py): the base name built from company and title,
 * the `.tex` and `.pdf` paths inside the output directory, and the pdflatex run
 * seen as an outcome of the LaTeX text and the path it was written to.
 */
module ResumeGenerator {
  import opened Options
  import opened Text
  import opened Jobs

  /** `.replace(' ', '_').replace('/', '_')`. */
  function SafeName(s: string): (r: string)
    ensures |r| == |s|
    ensures forall k :: 0 <= k < |s| ==> r[k] == if s[k] == ' ' || s[k] == '/' then '_' else s[k]
  {
    var once := ReplaceAll(s, " ", "_");
    ReplaceCharPointwise(s, ' ', '_');
    ReplaceCharPointwise(once, '/', '_');
    ReplaceAll(once, "/", "_")
  }

  function CompanyPart<Id>(job: Job<Id>): string { SafeName(job.company.GetOr("UnknownCompany")) }

  function TitlePart<Id>(job: Job<Id>): string { SafeName(job.title.GetOr("UnknownTitle")) }

  /**
   * `base_filename` (modules/resume_generator.py:13-15): "Resume_", the company,
   * "_", and the first thirty characters of the title, with no space and no
   * slash left anywhere.
   */
  function BaseFilename<Id>(job: Job<Id>): (r: string)
    ensures |r| >= 8 && r[..7] == "Resume_"
    ensures forall k :: 0 <= k < |r| ==> r[k] != ' ' && r[k] != '/'
    ensures var title := job.title.GetOr("UnknownTitle");
      |r| == 8 + |job.company.GetOr("UnknownCompany")| + (if |title| <= 30 then |title| else 30)
    ensures r[7..7 + |CompanyPart(job)|] == CompanyPart(job)
    ensures r[7 + |CompanyPart(job)|] == '_'
    ensures r[8 + |CompanyPart(job)|..] == Prefix(TitlePart(job), 30)
  {
    var t := Prefix(TitlePart(job), 30);
    var r := "Resume_" + CompanyPart(job) + "_" + t;
    assert forall k :: 0 <= k < |t| ==> t[k] == TitlePart(job)[k];
    assert forall k :: 7 <= k < 7 + |CompanyPart(job)| ==> r[k] == CompanyPart(job)[k - 7];
    assert forall k :: 8 + |CompanyPart(job)| <= k < |r| ==> r[k] == t[k - 8 - |CompanyPart(job)|];
    r
  }

  /**
   * Cutting the title to thirty characters after the replacement gives what
   * cutting it before would: the replacement works character by character.
   */
  lemma TruncationCommutes(title: string)
    ensures Prefix(SafeName(title), 30) == SafeName(Prefix(title, 30))
  {
  }

  /** A missing company or title gets its placeholder. */
  lemma PlaceholdersForMissingFields<Id>(job: Job<Id>)
    ensures job.company.None? ==> CompanyPart(job) == "UnknownCompany"
    ensures job.title.None? ==> TitlePart(job) == "UnknownTitle"
  {
    if job.company.None? {
      PlainPlaceholder(job.company.GetOr("UnknownCompany"));
    }
    if job.title.None? {
      PlainPlaceholder(job.title.GetOr("UnknownTitle"));
    }
  }

  lemma PlainPlaceholder(s: string)
    requires s == "UnknownCompany" || s == "UnknownTitle"
    ensures SafeName(s) == s
  {
    assert forall k :: 0 <= k < |s| ==> s[k] != ' ' && s[k] != '/';
    SafeNameKeepsPlainText(s);
  }

  /** Text without spaces or slashes is its own safe name. */
  lemma SafeNameKeepsPlainText(s: string)
    requires forall k :: 0 <= k < |s| ==> s[k] != ' ' && s[k] != '/'
    ensures SafeName(s) == s
  {
  }

  /** `os.path.join(dir, name)` for two parts. */
  function PathJoin(dir: string, name: string): (r: string)
    ensures |r| >= |name| && r[|r| - |name|..] == name
    ensures name != [] && name[0] == '/' ==> r == name
    ensures !(name != [] && name[0] == '/') ==>
      r[..|r| - |name|] == (if dir == [] || dir[|dir| - 1] == '/' then dir else dir + "/")
  {
    if name != [] && name[0] == '/' then name
    else if dir == [] || dir[|dir| - 1] == '/' then dir + name
    else dir + "/" + name
  }

  /** Appending to a name that does not start with a slash appends to the joined path. */
  lemma PathJoinAppends(dir: string, base: string, ext: string)
    requires base != [] && base[0] != '/'
    ensures PathJoin(dir, base + ext) == PathJoin(dir, base) + ext
  {
    assert (base + ext)[0] == base[0];
  }

  function TexPath<Id>(outputDir: string, job: Job<Id>): string { PathJoin(outputDir, BaseFilename(job) + ".tex") }

  function PdfPath<Id>(outputDir: string, job: Job<Id>): string { PathJoin(outputDir, BaseFilename(job) + ".pdf") }

  /** Both files sit at the same stem in the output directory and differ only in the extension. */
  lemma TexAndPdfShareStem<Id>(outputDir: string, job: Job<Id>)
    ensures var stem := PathJoin(outputDir, BaseFilename(job));
      TexPath(outputDir, job) == stem + ".tex" && PdfPath(outputDir, job) == stem + ".pdf"
    ensures TexPath(outputDir, job) != PdfPath(outputDir, job)
  {
    var base := BaseFilename(job);
    assert base[0] == base[..7][0] == 'R';
    PathJoinAppends(outputDir, base, ".tex");
    PathJoinAppends(outputDir, base, ".pdf");
    var stem := PathJoin(outputDir, base);
    assert (stem + ".tex")[|stem| + 1] == 't';
    assert (stem + ".pdf")[|stem| + 1] == 'p';
  }

  /** How the pdflatex subprocess ends. */
  datatype CompileOutcome = Compiled | PdflatexMissing | CompileError | TimedOut

  /**
   * `create_resume_pdf` (modules/resume_generator.py:13-17, 37-46): the path of
   * the PDF when pdflatex succeeds on the LaTeX written to the `.tex` path, and
   * `None` when pdflatex is missing, fails or times out.
   */
  function CreateResumePdf<Id>(modifiedLatexContent: string, job: Job<Id>, outputDir: string,
                               compile: (string, string) -> CompileOutcome): (r: Option<string>)
    ensures r.Some? <==> compile(modifiedLatexContent, TexPath(outputDir, job)) == Compiled
    ensures r.Some? ==> r.value == PdfPath(outputDir, job)
  {
    match compile(modifiedLatexContent, TexPath(outputDir, job))
    case Compiled => Some(PdfPath(outputDir, job))
    case PdflatexMissing => None
    case CompileError => None
    case TimedOut => None
  }
}
