/** CommitIssueJob: after an analysis, keeps the findings that lie on lines
    the commit added or changed, and has them posted as commit comments. */
module IssueJob {
  import opened Wrappers
  import opened Text
  import opened Settings
  import opened Issues
  import opened Api
  import opened Diff
  import opened Report
  import opened Commenter
  import Configuration

  // ---------------------------------------------------------------------
  // Which findings are published
  // ---------------------------------------------------------------------

  /** Whether some range of `ranges` contains `line`. */
  function AnyRangeContains(ranges: seq<HunkRange>, line: int): (b: bool)
    ensures b <==> exists j :: 0 <= j < |ranges| && ranges[j].ContainsLine(line)
  {
    if ranges == [] then false
    else
      assert forall j :: 1 <= j < |ranges| ==> ranges[j] == ranges[1..][j - 1];
      ranges[0].ContainsLine(line) || AnyRangeContains(ranges[1..], line)
  }

  /** isInDiff: some diff of exactly the finding's path has a hunk whose
      new-file lines contain the finding's line. */
  function IsInDiff(issue: MappedIssue, diffs: seq<UnifiedDiff>): (b: bool)
    ensures b <==> exists i, j :: 0 <= i < |diffs| && diffs[i].filepath == issue.path
                                  && 0 <= j < |diffs[i].ranges| && diffs[i].ranges[j].ContainsLine(issue.issue.line)
  {
    if diffs == [] then false
    else
      assert forall i :: 1 <= i < |diffs| ==> diffs[i] == diffs[1..][i - 1];
      (diffs[0].filepath == issue.path && AnyRangeContains(diffs[0].ranges, issue.issue.line))
      || IsInDiff(issue, diffs[1..])
  }

  /** The findings that isInDiff keeps, in their order. */
  function SelectIssues(issues: seq<MappedIssue>, diffs: seq<UnifiedDiff>): (r: seq<MappedIssue>)
    ensures |r| <= |issues|
    ensures forall i :: 0 <= i < |r| ==> IsInDiff(r[i], diffs)
  {
    if issues == [] then []
    else (if IsInDiff(issues[0], diffs) then [issues[0]] else []) + SelectIssues(issues[1..], diffs)
  }

  /** The selected findings are exactly the given ones that lie in the
      diff: nothing is added, and nothing in the diff is dropped. */
  lemma {:induction false} SelectIssuesMembers(issues: seq<MappedIssue>, diffs: seq<UnifiedDiff>)
    ensures |SelectIssues(issues, diffs)| <= |issues|
    ensures forall m :: m in SelectIssues(issues, diffs) <==> m in issues && IsInDiff(m, diffs)
  {
    if issues != [] {
      SelectIssuesMembers(issues[1..], diffs);
      assert issues == [issues[0]] + issues[1..];
    }
  }

  /** Selection decides finding by finding, so it keeps their order. */
  lemma {:induction false} SelectIssuesAppend(a: seq<MappedIssue>, b: seq<MappedIssue>, diffs: seq<UnifiedDiff>)
    ensures SelectIssues(a + b, diffs) == SelectIssues(a, diffs) + SelectIssues(b, diffs)
  {
    if a == [] {
      assert a + b == b;
    } else {
      assert (a + b)[0] == a[0] && (a + b)[1..] == a[1..] + b;
      SelectIssuesAppend(a[1..], b, diffs);
    }
  }

  /** What execute publishes: exactly the findings that have a file path
      and lie, at that path, in the diff. */
  lemma PublishedIssues(issues: seq<Issue>, diffs: seq<UnifiedDiff>)
    ensures forall m :: m in SelectIssues(MapIssues(issues), diffs)
                        <==> m.issue in issues && m.issue.path == Some(m.path) && IsInDiff(m, diffs)
  {
    MapIssuesMembers(issues);
    SelectIssuesMembers(MapIssues(issues), diffs);
    forall m: MappedIssue | m.issue in issues && m.issue.path == Some(m.path)
      ensures m in MapIssues(issues)
    {
      var i :| 0 <= i < |issues| && issues[i] == m.issue;
    }
  }

  /** Paths match exactly: a finding on a path no diff has is never kept,
      whatever its line. */
  lemma OtherPathNotInDiff(issue: MappedIssue, diffs: seq<UnifiedDiff>)
    requires forall i :: 0 <= i < |diffs| ==> diffs[i].filepath != issue.path
    ensures !IsInDiff(issue, diffs)
  {
  }

  // ---------------------------------------------------------------------
  // The diffs of the commit
  // ---------------------------------------------------------------------

  /** The UnifiedDiffs built from the commit's diff entries: deleted files
      are skipped, the others parsed in order; the first entry that fails to
      parse aborts with its exception. */
  function UnifiedDiffs(entries: seq<CommitDiff>): (r: Result<seq<UnifiedDiff>, Exception>)
    ensures r.Ok? ==> |r.value| <= |entries|
    ensures r.Ok? ==> forall u :: u in r.value ==>
                        exists e :: e in entries && !e.deletedFile && u.filepath == e.newPath
  {
    if entries == [] then Ok([])
    else
      var rest := UnifiedDiffs(entries[1..]);
      assert forall e :: e in entries[1..] ==> e in entries;
      if entries[0].deletedFile then rest
      else
        var ranges :- ParseHunks(ReadLines(entries[0].diff));
        var tail :- rest;
        Ok([UnifiedDiff(entries[0].newPath, ranges)] + tail)
  }

  /** The diff text of a deleted file is never read: entries that differ
      only there give the same diffs. */
  lemma {:induction false} DeletedTextIgnored(a: seq<CommitDiff>, b: seq<CommitDiff>)
    requires |a| == |b|
    requires forall i :: 0 <= i < |a| ==> a[i].deletedFile == b[i].deletedFile
    requires forall i :: 0 <= i < |a| && !a[i].deletedFile ==> a[i] == b[i]
    requires forall i :: 0 <= i < |a| ==> a[i].newPath == b[i].newPath
    ensures UnifiedDiffs(a) == UnifiedDiffs(b)
  {
    if a != [] {
      DeletedTextIgnored(a[1..], b[1..]);
    }
  }

  /** A commit that only deletes files has no diffs to match findings to. */
  lemma {:induction false} OnlyDeletions(entries: seq<CommitDiff>)
    requires forall i :: 0 <= i < |entries| ==> entries[i].deletedFile
    ensures UnifiedDiffs(entries) == Ok([])
  {
    if entries != [] {
      OnlyDeletions(entries[1..]);
    }
  }

  /** The flatMap over the fetched entries, one UnifiedDiff constructor
      call per entry that is not a deleted file. */
  method CollectDiffs(entries: seq<CommitDiff>) returns (r: Result<seq<UnifiedDiff>, Exception>)
    ensures r == UnifiedDiffs(entries)
  {
    var diffs: seq<UnifiedDiff> := [];
    var i := 0;
    assert entries[0..] == entries;
    ghost var all := UnifiedDiffs(entries);
    if all.Ok? {
      assert [] + all.value == all.value;
    }
    while i < |entries|
      invariant 0 <= i <= |entries|
      invariant UnifiedDiffs(entries) == (var rest := UnifiedDiffs(entries[i..]);
                                          if rest.Ok? then Ok(diffs + rest.value) else rest)
    {
      assert entries[i..][0] == entries[i] && entries[i..][1..] == entries[i + 1..];
      if !entries[i].deletedFile {
        var diff := NewUnifiedDiff(entries[i]);
        if diff.Err? {
          return Err(diff.error);
        }
        ghost var rest := UnifiedDiffs(entries[i + 1..]);
        if rest.Ok? {
          assert (diffs + [diff.value]) + rest.value == diffs + ([diff.value] + rest.value);
        }
        diffs := diffs + [diff.value];
      }
      i := i + 1;
    }
    assert diffs + [] == diffs;
    r := Ok(diffs);
  }

  // ---------------------------------------------------------------------
  // The post job
  // ---------------------------------------------------------------------

  /** What a PostJobDescriptor records. */
  datatype Descriptor = Descriptor(name: string, requiredProperties: seq<string>)

  /** describe: the job's name and the properties without which SonarQube
      does not run it. */
  function Describe(): (d: Descriptor)
    ensures d.name == "GitLab Commit Issue Publisher"
    ensures d.requiredProperties == [GitLabAuthToken, GitLabCommitHash, GitLabInstanceUrl]
  {
    Descriptor("GitLab Commit Issue Publisher", [GitLabAuthToken, GitLabCommitHash, GitLabInstanceUrl])
  }

  /** The job needs what connecting and enabling need, and not the project
      name, which the analysis builder has already resolved. */
  lemma DescribeRequirements()
    ensures GitLabInstanceUrl in Describe().requiredProperties
    ensures GitLabAuthToken in Describe().requiredProperties
    ensures GitLabCommitHash in Describe().requiredProperties
    ensures GitLabProjectName !in Describe().requiredProperties
  {
    assert GitLabProjectName[14] != GitLabAuthToken[14];
    assert GitLabProjectName[14] != GitLabCommitHash[21];
    assert |GitLabProjectName| != |GitLabInstanceUrl|;
  }

  const CommitDiffFailed: string := "Failed to get commit diff"

  class CommitIssueJob {
    const configuration: Configuration.GitLabPluginConfiguration
    /** The server the job's GitlabAPI connection reaches. */
    const api: GitLab
    const commenter: CommitCommenter

    constructor(configuration: Configuration.GitLabPluginConfiguration, api: GitLab)
      ensures this.configuration == configuration && this.api == api && commenter.api == api
    {
      this.configuration := configuration;
      this.api := api;
      commenter := new CommitCommenter(api);
    }

    /** execute: fetches the commit's diffs, keeps the findings that map to
        a file and lie in the diff, builds the report and has the commenter
        process it once. `report` is the report built, and `posted` the
        comments the commenter attempted. */
    method Execute(issues: seq<Issue>) returns (r: Outcome<Exception>, report: Option<SonarReport>, posted: seq<CommitComment>)
      ensures configuration.project.None? ==> r == Fail(NullPointer("")) && report.None?
      ensures configuration.project.Some? && api.commitDiffs.Err? ==>
                r == Fail(Exception.Process(CommitDiffFailed, Some(IO(api.commitDiffs.error)))) && report.None?
      ensures configuration.project.Some? && api.commitDiffs.Ok? && UnifiedDiffs(api.commitDiffs.value).Err? ==>
                r == Fail(UnifiedDiffs(api.commitDiffs.value).error) && report.None?
      ensures configuration.project.Some? && api.commitDiffs.Ok? && UnifiedDiffs(api.commitDiffs.value).Ok? ==>
                && (configuration.gitBaseDir.None? ==> r == Fail(NullPointer(MissingGitBaseDir)))
                && (configuration.gitBaseDir.Some? && configuration.CommitHash().None? ==>
                      r == Fail(NullPointer(MissingCommitSha)))
      ensures report.Some? <==> configuration.project.Some? && api.commitDiffs.Ok?
                                && UnifiedDiffs(api.commitDiffs.value).Ok?
                                && configuration.gitBaseDir.Some? && configuration.CommitHash().Some?
      ensures report.Some? ==>
                && report.value.issues == SelectIssues(MapIssues(issues), UnifiedDiffs(api.commitDiffs.value).value)
                && report.value.commitSha == configuration.CommitHash().value
                && report.value.project == configuration.project.value
                && report.value.gitBaseDir == configuration.gitBaseDir.value
      ensures report.Some? ==>
                && posted == Attempts(commenter.api.rejects, report.value.project.id, report.value.commitSha,
                                      report.value.GetIssues())
                && (r.Pass? <==> forall c :: c in posted ==> !commenter.api.rejects(c))
      ensures report.Some? && r.Fail? ==> r == Fail(Exception.Process(CommentsFailed, None))
      ensures report.None? ==> posted == [] && r.Fail?
    {
      posted := [];
      report := None;
      if configuration.project.None? {
        return Fail(NullPointer("")), report, posted;
      }
      if api.commitDiffs.Err? {
        return Fail(Exception.Process(CommitDiffFailed, Some(IO(api.commitDiffs.error)))), report, posted;
      }
      var diffs := CollectDiffs(api.commitDiffs.value);
      if diffs.Err? {
        return Fail(diffs.error), report, posted;
      }
      var selected := SelectIssues(MapIssues(issues), diffs.value);
      var builder := new Builder();
      builder := builder.SetIssues(Some(selected));
      builder := builder.SetCommitSha(configuration.CommitHash());
      builder := builder.SetProject(configuration.project);
      builder := builder.SetProjectBaseDir(configuration.gitBaseDir);
      var built := builder.Build();
      if built.Err? {
        return Fail(built.error), report, posted;
      }
      report := Some(built.value);
      posted, r := commenter.Process(built.value);
    }
  }
}
