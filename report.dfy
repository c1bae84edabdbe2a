/** SonarReport: the findings to publish for one commit of one GitLab
    project, and the Builder that assembles it. */
module Report {
  import opened Wrappers
  import opened Issues
  import opened Sorting
  import opened Files
  import opened Api

  /** A report; every field is present once it exists. */
  datatype SonarReport = SonarReport(gitBaseDir: Dir, commitSha: string, project: Project, issues: seq<MappedIssue>)
  {
    /** getIssues: the findings, sorted by ascending severity. */
    function GetIssues(): (r: seq<MappedIssue>)
      ensures multiset(r) == multiset(issues)
      ensures SortedBySeverity(r)
      ensures forall v :: OfSeverity(r, v) == OfSeverity(issues, v)
    {
      SortBySeverity(issues)
    }
  }

  const MissingGitBaseDir: string := "Git sources are required to be able to create inline comments."
  const MissingCommitSha: string := "Commit hash is required to know which commit to comment on."
  const MissingProject: string := "Project is required to know where the commit is."
  const MissingIssues: string := "Issues are required to be a nonnull collection in order to be able to comment."

  /** The SonarReport constructor: each field is required in turn, and the
      first one missing raises a NullPointerException naming it. */
  function NewSonarReport(gitBaseDir: Option<Dir>, commitSha: Option<string>, project: Option<Project>,
                          issues: Option<seq<MappedIssue>>): (r: Result<SonarReport, Exception>)
    ensures r.Ok? <==> gitBaseDir.Some? && commitSha.Some? && project.Some? && issues.Some?
    ensures gitBaseDir.None? ==> r == Err(NullPointer(MissingGitBaseDir))
    ensures gitBaseDir.Some? && commitSha.None? ==> r == Err(NullPointer(MissingCommitSha))
    ensures gitBaseDir.Some? && commitSha.Some? && project.None? ==> r == Err(NullPointer(MissingProject))
    ensures gitBaseDir.Some? && commitSha.Some? && project.Some? && issues.None? ==> r == Err(NullPointer(MissingIssues))
    ensures r.Ok? ==> r.value.gitBaseDir == gitBaseDir.value && r.value.commitSha == commitSha.value
                      && r.value.project == project.value && r.value.issues == issues.value
  {
    var dir :- RequireNonNull(gitBaseDir, MissingGitBaseDir);
    var sha :- RequireNonNull(commitSha, MissingCommitSha);
    var p :- RequireNonNull(project, MissingProject);
    var found :- RequireNonNull(issues, MissingIssues);
    Ok(SonarReport(dir, sha, p, found))
  }

  /** Objects.requireNonNull with a message. */
  function RequireNonNull<T>(value: Option<T>, message: string): Result<T, Exception> {
    if value.None? then Err(NullPointer(message)) else Ok(value.value)
  }

  /** A report holding no findings lists none, and one whose findings are
      already in severity order lists them as they are. */
  lemma GetIssuesOrdered(report: SonarReport)
    requires SortedBySeverity(report.issues)
    ensures report.GetIssues() == report.issues
  {
    SortSortedIdentity(report.issues);
  }

  /** Two findings of the same severity are listed in the order they were
      given. */
  lemma {:induction false} GetIssuesKeepsTies(report: SonarReport, a: MappedIssue, b: MappedIssue)
    requires a.issue.severity == b.issue.severity
    requires OfSeverity(report.issues, a.issue.severity) == [a, b]
    ensures exists i, j :: 0 <= i < j < |report.GetIssues()| && report.GetIssues()[i] == a
                           && report.GetIssues()[j] == b
  {
    var r := report.GetIssues();
    OfSeverityPositions(r, a.issue.severity, [a, b]);
  }

  /** Where the two elements of a severity class sit in a sequence. */
  lemma {:induction false} OfSeverityPositions(s: seq<MappedIssue>, v: Severity, pair: seq<MappedIssue>)
    requires |pair| == 2 && OfSeverity(s, v) == pair
    ensures exists i, j :: 0 <= i < j < |s| && s[i] == pair[0] && s[j] == pair[1]
  {
    if s[0].issue.severity == v {
      assert OfSeverity(s, v) == [s[0]] + OfSeverity(s[1..], v);
      assert OfSeverity(s[1..], v) == [pair[1]];
      var j := OfSeverityMember(s[1..], v, pair[1]);
      assert s[j + 1] == pair[1];
    } else {
      assert OfSeverity(s, v) == OfSeverity(s[1..], v);
      OfSeverityPositions(s[1..], v, pair);
      var i, j :| 0 <= i < j < |s[1..]| && s[1..][i] == pair[0] && s[1..][j] == pair[1];
      assert s[i + 1] == pair[0] && s[j + 1] == pair[1];
    }
  }

  lemma {:induction false} OfSeverityMember(s: seq<MappedIssue>, v: Severity, x: MappedIssue) returns (j: int)
    requires OfSeverity(s, v) == [x]
    ensures 0 <= j < |s| && s[j] == x
  {
    if s[0].issue.severity == v {
      assert OfSeverity(s, v) == [s[0]] + OfSeverity(s[1..], v);
      assert OfSeverity(s, v)[0] == s[0];
      j := 0;
    } else {
      assert OfSeverity(s, v) == OfSeverity(s[1..], v);
      var k := OfSeverityMember(s[1..], v, x);
      assert s[k + 1] == s[1..][k];
      j := k + 1;
    }
  }

  /** SonarReport.Builder: collects the report's fields one setter at a
      time; each setter returns the builder itself. */
  class Builder {
    var gitBaseDir: Option<Dir>
    var commitSha: Option<string>
    var project: Option<Project>
    var issues: Option<seq<MappedIssue>>

    constructor()
      ensures gitBaseDir.None? && commitSha.None? && project.None? && issues.None?
    {
      gitBaseDir := None;
      commitSha := None;
      project := None;
      issues := None;
    }

    method SetCommitSha(commitSha: Option<string>) returns (self: Builder)
      modifies this`commitSha
      ensures self == this && this.commitSha == commitSha
    {
      this.commitSha := commitSha;
      self := this;
    }

    method SetProject(project: Option<Project>) returns (self: Builder)
      modifies this`project
      ensures self == this && this.project == project
    {
      this.project := project;
      self := this;
    }

    method SetProjectBaseDir(projectBaseDir: Option<Dir>) returns (self: Builder)
      modifies this`gitBaseDir
      ensures self == this && gitBaseDir == projectBaseDir
    {
      gitBaseDir := projectBaseDir;
      self := this;
    }

    method SetIssues(issues: Option<seq<MappedIssue>>) returns (self: Builder)
      modifies this`issues
      ensures self == this && this.issues == issues
    {
      this.issues := issues;
      self := this;
    }

    /** build: a report whose project and commit are exactly those set. */
    function Build(): (r: Result<SonarReport, Exception>)
      reads this
      ensures r.Ok? <==> gitBaseDir.Some? && commitSha.Some? && project.Some? && issues.Some?
      ensures r.Ok? ==> r.value.project == project.value && r.value.commitSha == commitSha.value
                        && r.value.issues == issues.value && r.value.gitBaseDir == gitBaseDir.value
    {
      NewSonarReport(gitBaseDir, commitSha, project, issues)
    }
  }

  /** Setting all four fields, in any order, yields a report of exactly
      those values. */
  method BuildAll(dir: Dir, sha: string, project: Project, issues: seq<MappedIssue>) returns (r: Result<SonarReport, Exception>)
    ensures r == Ok(SonarReport(dir, sha, project, issues))
  {
    var builder := new Builder();
    builder := builder.SetIssues(Some(issues));
    builder := builder.SetCommitSha(Some(sha));
    builder := builder.SetProject(Some(project));
    builder := builder.SetProjectBaseDir(Some(dir));
    r := builder.Build();
  }
}
