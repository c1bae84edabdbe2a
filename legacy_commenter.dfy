/** The older CommitCommenter: maps each finding of its report to a file,
    posts a comment for every mapped finding, and reports failure only after
    all posts were made. */
module LegacyCommenter {
  import opened Wrappers
  import opened Issues
  import opened Api
  import opened Commenter

  /** What the older commenter reads from its report: the project, the
      commit and the findings in the order the report streams them, each
      with the path the report resolved for its component. */
  datatype LegacyReport = LegacyReport(project: Project, commitSha: string, issues: seq<Issue>)

  /** The comments made for `mapped`, one per mapped finding, in order. */
  function Comments(projectId: int, commitSha: string, mapped: seq<MappedIssue>): (cs: seq<CommitComment>)
    ensures |cs| == |mapped|
    ensures forall i :: 0 <= i < |mapped| ==> cs[i] == Comment(projectId, commitSha, mapped[i])
  {
    seq(|mapped|, i requires 0 <= i < |mapped| => Comment(projectId, commitSha, mapped[i]))
  }

  lemma CommentsSnoc(projectId: int, commitSha: string, mapped: seq<MappedIssue>, m: MappedIssue)
    ensures Comments(projectId, commitSha, mapped + [m])
            == Comments(projectId, commitSha, mapped) + [Comment(projectId, commitSha, m)]
  {
  }

  lemma MapIssuesSnoc(issues: seq<Issue>, i: int)
    requires 0 <= i < |issues|
    ensures MapIssues(issues[..i + 1]) == MapIssues(issues[..i])
              + (if issues[i].path.Some? then [MappedIssue(issues[i], issues[i].path.value)] else [])
  {
    MapIssuesAppend(issues[..i], [issues[i]]);
    assert issues[..i + 1] == issues[..i] + [issues[i]];
    assert [issues[i]][1..] == [];
  }

  class CommitCommenter {
    /** The server that createCommitComment reaches. */
    const api: GitLab

    constructor(api: GitLab)
      ensures this.api == api
    {
      this.api := api;
    }

    /** process: posts a comment for every finding that maps to a file,
        skipping the others, and keeps posting after a failure; returns
        normally exactly when no post failed (in particular when nothing
        was posted), and otherwise fails with a ProcessException. */
    method Process(report: LegacyReport) returns (posted: seq<CommitComment>, r: Outcome<Exception>)
      ensures posted == Comments(report.project.id, report.commitSha, MapIssues(report.issues))
      ensures r.Pass? <==> forall c :: c in posted ==> !api.rejects(c)
      ensures r.Fail? ==> r.error == Exception.Process(CommentsFailed, None)
    {
      var projectId := report.project.id;
      var sha := report.commitSha;
      var issues := report.issues;
      posted := [];
      var allOk := true;
      var i := 0;
      while i < |issues|
        invariant 0 <= i <= |issues|
        invariant posted == Comments(projectId, sha, MapIssues(issues[..i]))
        invariant allOk <==> forall c :: c in posted ==> !api.rejects(c)
      {
        MapIssuesSnoc(issues, i);
        var mapped := MapIssueToFile(issues[i]);
        if mapped.Some? {
          var c := Comment(projectId, sha, mapped.value);
          CommentsSnoc(projectId, sha, MapIssues(issues[..i]), mapped.value);
          posted := posted + [c];
          allOk := allOk && !api.rejects(c);
        }
        i := i + 1;
      }
      assert issues[..i] == issues;
      r := if allOk then Pass else Fail(Exception.Process(CommentsFailed, None));
    }
  }

  /** Every mapped finding gets its post, however many posts before it
      failed: the number of posts is the number of mapped findings. */
  lemma PostsEveryMappedIssue(report: LegacyReport, i: int)
    requires 0 <= i < |report.issues| && report.issues[i].path.Some?
    ensures Comment(report.project.id, report.commitSha, MappedIssue(report.issues[i], report.issues[i].path.value))
            in Comments(report.project.id, report.commitSha, MapIssues(report.issues))
  {
    var mapped := MapIssues(report.issues);
    MapIssuesMembers(report.issues);
    var m := MappedIssue(report.issues[i], report.issues[i].path.value);
    var k :| 0 <= k < |mapped| && mapped[k] == m;
    assert Comments(report.project.id, report.commitSha, mapped)[k] == Comment(report.project.id, report.commitSha, m);
  }
}
