/** The GitLab REST API as the plugin sees it: the records it exchanges and,
    standing in for the server, the answers each call gets. */
module Api {
  import opened Wrappers

  /** One entry of GET /projects/{id}/repository/commits/{sha}/diff. */
  datatype CommitDiff = CommitDiff(newPath: string, oldPath: string, diff: string, deletedFile: bool)

  /** A GitLab project. `nameWithNamespace` is the server's own display form
      of namespace and name. */
  datatype Project = Project(id: int, namespace: string, name: string, nameWithNamespace: string)

  /** The arguments of one createCommitComment call. */
  datatype CommitComment = CommitComment(
    projectId: int, commitSha: string, note: string, path: string, line: string, lineType: string)

  datatype TokenType = AccessToken | PrivateToken

  /** What GET /user does: returns the user, throws GitlabAPIException with
      an HTTP response code, or throws another IOException. */
  datatype UserAnswer = User | ApiException(responseCode: int) | IOFailure(message: string)

  /** A connection made with GitlabAPI.connect. */
  datatype Connection = Connection(url: string, token: string, tokenType: TokenType)

  /** The answers of the GitLab server to each call; an `Err` carries the
      message of the IOException the call throws. */
  datatype GitLab = GitLab(
    userAnswer: TokenType -> UserAnswer,
    projects: Result<seq<Project>, string>,
    allProjects: Result<seq<Project>, string>,
    commitDiffs: Result<seq<CommitDiff>, string>,
    rejects: CommitComment -> bool)

  /** findAny over the projects that match, on a sequential stream: the
      first project that matches, or nothing when none does. */
  function FindProject(projects: seq<Project>, matches: Project -> bool): (r: Option<Project>)
    ensures r.None? <==> forall i :: 0 <= i < |projects| ==> !matches(projects[i])
    ensures r.Some? ==> exists i :: 0 <= i < |projects| && projects[i] == r.value
                                    && forall j :: 0 <= j < i ==> !matches(projects[j])
    ensures r.Some? ==> matches(r.value)
  {
    if projects == [] then None
    else if matches(projects[0]) then Some(projects[0])
    else
      var r := FindProject(projects[1..], matches);
      assert forall i :: 1 <= i < |projects| ==> projects[i] == projects[1..][i - 1];
      if r.Some? then
        var i :| 0 <= i < |projects[1..]| && projects[1..][i] == r.value
                 && forall j :: 0 <= j < i ==> !matches(projects[1..][j]);
        assert projects[i + 1] == r.value;
        r
      else r
  }
}
