/** CommitCommenter: posts one GitLab commit comment per finding of a
    report, in the report's order, and stops at the first post that fails. */
module Commenter {
  import opened Wrappers
  import opened Text
  import opened Issues
  import opened Api
  import opened Report

  const CommentsFailed: string := "One or more comments failed to be added to the commit."

  /** The createCommitComment call postComment makes for a mapped finding. */
  function Comment(projectId: int, commitSha: string, m: MappedIssue): (c: CommitComment)
    ensures c.path == m.path && c.lineType == "new" && c.note == m.issue.message
  {
    CommitComment(projectId, commitSha, m.issue.message, m.path, IntToString(m.issue.line), "new")
  }

  /** A comment goes to the report's project and commit, on the new side,
      at the finding's path, with the finding's message as its text and the
      finding's line in decimal. */
  lemma CommentFields(projectId: int, commitSha: string, m: MappedIssue)
    ensures var c := Comment(projectId, commitSha, m);
      && c.projectId == projectId && c.commitSha == commitSha
      && c.note == m.issue.message && c.path == m.path && c.lineType == "new"
      && (m.issue.line >= 0 ==> AllDigits(c.line) && DigitsValue(c.line) == m.issue.line)
      && (m.issue.line < 0 ==> |c.line| > 1 && c.line[0] == '-' && AllDigits(c.line[1..])
                               && DigitsValue(c.line[1..]) == -m.issue.line)
  {
  }

  /** The calls `allMatch` makes: one per finding, in order, up to and
      including the first the server rejects. */
  function Attempts(rejects: CommitComment -> bool, projectId: int, commitSha: string,
                    issues: seq<MappedIssue>): (posted: seq<CommitComment>)
    ensures |posted| <= |issues|
    ensures forall i :: 0 <= i < |posted| - 1 ==> !rejects(posted[i])
  {
    if issues == [] then []
    else
      var c := Comment(projectId, commitSha, issues[0]);
      if rejects(c) then [c] else [c] + Attempts(rejects, projectId, commitSha, issues[1..])
  }

  /** The posts form a prefix of the findings' comments that ends at the
      first rejected one, and covers every finding when none is rejected. */
  lemma {:induction false} AttemptsPrefix(rejects: CommitComment -> bool, projectId: int, commitSha: string,
                                          issues: seq<MappedIssue>)
    ensures var posted := Attempts(rejects, projectId, commitSha, issues);
      && |posted| <= |issues|
      && (forall i :: 0 <= i < |posted| ==> posted[i] == Comment(projectId, commitSha, issues[i]))
      && (forall i :: 0 <= i < |posted| - 1 ==> !rejects(posted[i]))
      && (|posted| < |issues| ==> posted != [] && rejects(posted[|posted| - 1]))
  {
    if issues != [] {
      AttemptsPrefix(rejects, projectId, commitSha, issues[1..]);
      var c := Comment(projectId, commitSha, issues[0]);
      if !rejects(c) {
        var rest := Attempts(rejects, projectId, commitSha, issues[1..]);
        assert Attempts(rejects, projectId, commitSha, issues) == [c] + rest;
        assert forall i :: 1 <= i < |issues| ==> issues[i] == issues[1..][i - 1];
      }
    }
  }

  /** No attempted post is rejected exactly when the server accepts the
      comment of every finding: a rejection is always attempted. */
  lemma {:induction false} AttemptsAllAccepted(rejects: CommitComment -> bool, projectId: int,
                                               commitSha: string, issues: seq<MappedIssue>)
    ensures (forall c :: c in Attempts(rejects, projectId, commitSha, issues) ==> !rejects(c))
            <==> forall i :: 0 <= i < |issues| ==> !rejects(Comment(projectId, commitSha, issues[i]))
  {
    if issues != [] {
      var c := Comment(projectId, commitSha, issues[0]);
      if !rejects(c) {
        AttemptsAllAccepted(rejects, projectId, commitSha, issues[1..]);
        var rest := Attempts(rejects, projectId, commitSha, issues[1..]);
        assert Attempts(rejects, projectId, commitSha, issues) == [c] + rest;
        assert forall i :: 1 <= i < |issues| ==> issues[i] == issues[1..][i - 1];
        assert forall i :: 0 <= i < |issues[1..]| ==> issues[1..][i] == issues[i + 1];
      } else {
        assert c in Attempts(rejects, projectId, commitSha, issues);
      }
    }
  }

  lemma AttemptsStep(rejects: CommitComment -> bool, projectId: int, commitSha: string,
                     issues: seq<MappedIssue>, i: int)
    requires 0 <= i < |issues|
    ensures var c := Comment(projectId, commitSha, issues[i]);
            Attempts(rejects, projectId, commitSha, issues[i..])
            == if rejects(c) then [c] else [c] + Attempts(rejects, projectId, commitSha, issues[i + 1..])
  {
    assert issues[i..][0] == issues[i] && issues[i..][1..] == issues[i + 1..];
  }

  /** Nothing is posted after a rejected comment. */
  lemma AttemptsStopAtRejection(rejects: CommitComment -> bool, projectId: int, commitSha: string,
                                issues: seq<MappedIssue>, k: int)
    requires 0 <= k < |issues| && rejects(Comment(projectId, commitSha, issues[k]))
    ensures |Attempts(rejects, projectId, commitSha, issues)| <= k + 1
  {
    AttemptsPrefix(rejects, projectId, commitSha, issues);
  }

  /** A report's posts all succeed exactly when the server accepts the
      comment of each of its findings, whatever the order they are posted in.
      This rests on `rejects` being a fixed function of the comment alone: a
      server whose answer depends on earlier posts is not expressible here. */
  lemma ReportAccepted(rejects: CommitComment -> bool, report: SonarReport)
    ensures (forall c :: c in Attempts(rejects, report.project.id, report.commitSha, report.GetIssues()) ==> !rejects(c))
            <==> forall m :: m in report.issues ==> !rejects(Comment(report.project.id, report.commitSha, m))
  {
    var issues := report.GetIssues();
    AttemptsAllAccepted(rejects, report.project.id, report.commitSha, issues);
    assert forall m :: m in report.issues <==> m in multiset(issues);
    assert forall m :: m in issues <==> exists i :: 0 <= i < |issues| && issues[i] == m;
  }

  class CommitCommenter {
    /** The server that createCommitComment reaches. */
    const api: GitLab

    constructor(api: GitLab)
      ensures this.api == api
    {
      this.api := api;
    }

    /** process: posts the report's findings in getIssues order until a post
        fails; returns normally exactly when every post succeeded, and
        otherwise fails with a ProcessException. */
    method Process(report: SonarReport) returns (posted: seq<CommitComment>, r: Outcome<Exception>)
      ensures posted == Attempts(api.rejects, report.project.id, report.commitSha, report.GetIssues())
      ensures r.Pass? <==> forall c :: c in posted ==> !api.rejects(c)
      ensures r.Fail? ==> r.error == Exception.Process(CommentsFailed, None)
    {
      posted, r := PostAll(report, report.GetIssues());
    }

    /** Posting `issues` through allMatch: each post in turn, until one fails. */
    method PostAll(report: SonarReport, issues: seq<MappedIssue>) returns (posted: seq<CommitComment>, r: Outcome<Exception>)
      ensures posted == Attempts(api.rejects, report.project.id, report.commitSha, issues)
      ensures r.Pass? <==> forall c :: c in posted ==> !api.rejects(c)
      ensures r.Fail? ==> r.error == Exception.Process(CommentsFailed, None)
    {
      ghost var projectId := report.project.id;
      ghost var sha := report.commitSha;
      posted := [];
      var i := 0;
      assert issues[0..] == issues;
      while i < |issues|
        invariant 0 <= i <= |issues|
        invariant Attempts(api.rejects, projectId, sha, issues)
                  == posted + Attempts(api.rejects, projectId, sha, issues[i..])
        invariant forall c :: c in posted ==> !api.rejects(c)
      {
        var c := PostComment(report, issues[i]);
        AttemptsStep(api.rejects, projectId, sha, issues, i);
        posted := posted + [c];
        if api.rejects(c) {
          return posted, Fail(Exception.Process(CommentsFailed, None));
        }
        i := i + 1;
      }
      assert posted + [] == posted;
      r := Pass;
    }

    /** postComment: the call made for one finding; whether it succeeded is
        `!api.rejects(c)`, an IOException being caught and turned into false. */
    method PostComment(report: SonarReport, m: MappedIssue) returns (c: CommitComment)
      ensures c == Comment(report.project.id, report.commitSha, m)
    {
      c := CommitComment(report.project.id, report.commitSha, m.issue.message, m.path,
                         IntToString(m.issue.line), "new");
    }
  }
}
