/** GitLabPluginConfiguration: the plugin's view of the analysis properties,
    the connection to GitLab it makes from them, and the project and git
    directory it records for the rest of the analysis. */
module Configuration {
  import opened Wrappers
  import opened Settings
  import opened Api
  import opened Files

  const UrlNotSet: string := "GitLab Instance URL property hasn't been set."
  const TokenNotSet: string := "GitLab user token hasn't been set."
  const AuthorizationFailed: string := "Failed to authorize user with API."
  const ConnectFailed: string := "Failed to connect with GitLab."

  /** The message for a missing or blank project name. */
  const MissingProjectName: string := "Missing '" + GitLabProjectName + "' property."

  /** How the project-name property names a project: "namespace/name". */
  function FullName(p: Project): string {
    p.namespace + "/" + p.name
  }

  function ProjectNotFound(projectName: string): string {
    "Failed to find project '" + projectName + "'. Is the user authorized to access the project?"
  }

  /** attemptConnect: whether GET /user accepted the token. Only a 401
      answer rejects it; any other API error still counts as connected, and
      an IOException aborts with an IllegalStateException. */
  function AttemptConnect(answer: UserAnswer): (r: Result<bool, Exception>)
    ensures r == Ok(false) <==> answer == ApiException(401)
    ensures r == Ok(true) <==> answer.User? || (answer.ApiException? && answer.responseCode != 401)
    ensures r.Err? ==> answer.IOFailure? && r.error == IllegalState(ConnectFailed, Some(IO(answer.message)))
  {
    match answer
    case User => Ok(true)
    case ApiException(code) => Ok(code != 401)
    case IOFailure(message) => Err(IllegalState(ConnectFailed, Some(IO(message))))
  }

  /** The connection createGitLabConnection returns, or its exception. */
  function Connect(settings: Properties, userAnswer: TokenType -> UserAnswer): (r: Result<Connection, Exception>)
    ensures IsBlank(GetString(settings, GitLabInstanceUrl)) ==> r == Err(IllegalArgument(UrlNotSet))
    ensures !IsBlank(GetString(settings, GitLabInstanceUrl)) && IsBlank(GetString(settings, GitLabAuthToken)) ==>
              r == Err(IllegalArgument(TokenNotSet))
    ensures r.Ok? ==> r.value.url == settings[GitLabInstanceUrl] && r.value.token == settings[GitLabAuthToken]
  {
    var url := GetString(settings, GitLabInstanceUrl);
    var token := GetString(settings, GitLabAuthToken);
    if IsBlank(url) then Err(IllegalArgument(UrlNotSet))
    else if IsBlank(token) then Err(IllegalArgument(TokenNotSet))
    else
      var accessOk :- AttemptConnect(userAnswer(AccessToken));
      if accessOk then Ok(Connection(url.value, token.value, AccessToken))
      else
        var privateOk :- AttemptConnect(userAnswer(PrivateToken));
        if privateOk then Ok(Connection(url.value, token.value, PrivateToken))
        else Err(IllegalArgument(AuthorizationFailed))
  }

  /** With both properties set, the access token is used when GET /user
      accepts it, the private token only when the access token got a 401
      and the private one is accepted, and an IOException on either call
      aborts with "Failed to connect with GitLab.". */
  lemma ConnectFallback(settings: Properties, userAnswer: TokenType -> UserAnswer)
    requires !IsBlank(GetString(settings, GitLabInstanceUrl)) && !IsBlank(GetString(settings, GitLabAuthToken))
    ensures var r := Connect(settings, userAnswer);
            var access := userAnswer(AccessToken);
            var private := userAnswer(PrivateToken);
      && (r.Ok? && r.value.tokenType == AccessToken <==> AttemptConnect(access) == Ok(true))
      && (r.Ok? && r.value.tokenType == PrivateToken <==> access == ApiException(401) && AttemptConnect(private) == Ok(true))
      && (r == Err(IllegalArgument(AuthorizationFailed)) <==> access == ApiException(401) && private == ApiException(401))
      && (r.Err? && r.error.IllegalState? <==> access.IOFailure? || (access == ApiException(401) && private.IOFailure?))
      && (r.Ok? ==> r.value.url == settings[GitLabInstanceUrl] && r.value.token == settings[GitLabAuthToken])
  {
  }

  /** The project initialiseProject records, or its exception. */
  function Lookup(settings: Properties, server: GitLab): (r: Result<Project, Exception>)
    ensures IsBlank(GetString(settings, GitLabProjectName)) ==> r == Err(IllegalArgument(MissingProjectName))
    ensures r.Ok? ==> GitLabProjectName in settings && Connect(settings, server.userAnswer).Ok?
                      && server.projects.Ok? && r.value in server.projects.value
                      && FullName(r.value) == settings[GitLabProjectName]
    ensures r.Err? && r.error.IO? ==> server.projects == Err(r.error.message)
  {
    var name := GetString(settings, GitLabProjectName);
    if IsBlank(name) then Err(IllegalArgument(MissingProjectName))
    else
      var _ :- Connect(settings, server.userAnswer);
      if server.projects.Err? then Err(IO(server.projects.error))
      else
        var found := FindProject(server.projects.value, (p: Project) => FullName(p) == name.value);
        if found.None? then Err(IllegalArgument(ProjectNotFound(name.value)))
        else Ok(found.value)
  }

  /** A lookup fails with ProjectNotFound exactly when the connection and
      the project listing succeed and no project is called `name`. */
  lemma {:induction false} LookupNotFound(settings: Properties, server: GitLab)
    requires !IsBlank(GetString(settings, GitLabProjectName))
    requires Connect(settings, server.userAnswer).Ok? && server.projects.Ok?
    ensures var name := settings[GitLabProjectName];
            Lookup(settings, server) == Err(IllegalArgument(ProjectNotFound(name)))
            <==> forall p :: p in server.projects.value ==> FullName(p) != name
  {
    var name := settings[GitLabProjectName];
    var projects := server.projects.value;
    var matches := (p: Project) => FullName(p) == name;
    var found := FindProject(projects, matches);
    assert Lookup(settings, server) == if found.None? then Err(IllegalArgument(ProjectNotFound(name))) else Ok(found.value);
    assert forall p :: p in projects <==> exists i :: 0 <= i < |projects| && projects[i] == p;
  }

  class GitLabPluginConfiguration {
    const settings: Properties
    var project: Option<Project>
    var gitBaseDir: Option<Dir>

    constructor(settings: Properties)
      ensures this.settings == settings && project.None? && gitBaseDir.None?
    {
      this.settings := settings;
      project := None;
      gitBaseDir := None;
    }

    /** The commit-hash property, or null when it is not set. */
    function CommitHash(): (h: Option<string>)
      ensures h.Some? <==> GitLabCommitHash in settings
      ensures h.Some? ==> h.value == settings[GitLabCommitHash]
    {
      GetString(settings, GitLabCommitHash)
    }

    /** createGitLabConnection: checks the URL, then the token, then tries
        the access token and, only after a 401, the private token.
        `attempts` lists the token types tried against GET /user. */
    method CreateGitLabConnection(server: GitLab) returns (attempts: seq<TokenType>, r: Result<Connection, Exception>)
      ensures r == Connect(settings, server.userAnswer)
      ensures var url := GetString(settings, GitLabInstanceUrl);
              var token := GetString(settings, GitLabAuthToken);
        && (IsBlank(url) ==> attempts == [] && r == Err(IllegalArgument(UrlNotSet)))
        && (!IsBlank(url) && IsBlank(token) ==> attempts == [] && r == Err(IllegalArgument(TokenNotSet)))
        && (!IsBlank(url) && !IsBlank(token) ==>
              && attempts != [] && attempts[0] == AccessToken
              && (|attempts| == 2 <==> server.userAnswer(AccessToken) == ApiException(401))
              && (|attempts| == 2 ==> attempts[1] == PrivateToken)
              && (r.Ok? ==> r.value == Connection(url.value, token.value, attempts[|attempts| - 1])))
      ensures |attempts| <= 2
      ensures r == Err(IllegalArgument(AuthorizationFailed)) <==>
                |attempts| == 2 && server.userAnswer(PrivateToken) == ApiException(401)
    {
      var url := GetString(settings, GitLabInstanceUrl);
      var token := GetString(settings, GitLabAuthToken);
      if IsBlank(url) {
        return [], Err(IllegalArgument(UrlNotSet));
      }
      if IsBlank(token) {
        return [], Err(IllegalArgument(TokenNotSet));
      }
      attempts := [AccessToken];
      var accessOk := AttemptConnect(server.userAnswer(AccessToken));
      if accessOk.Err? {
        return attempts, Err(accessOk.error);
      }
      if accessOk.value {
        return attempts, Ok(Connection(url.value, token.value, AccessToken));
      }
      attempts := attempts + [PrivateToken];
      var privateOk := AttemptConnect(server.userAnswer(PrivateToken));
      if privateOk.Err? {
        return attempts, Err(privateOk.error);
      }
      if privateOk.value {
        return attempts, Ok(Connection(url.value, token.value, PrivateToken));
      }
      r := Err(IllegalArgument(AuthorizationFailed));
    }

    /** initialiseProject: records the project called by the project-name
        property; on failure the recorded project stays as it was. No
        connection is attempted when the name is blank. */
    method InitialiseProject(server: GitLab) returns (attempts: seq<TokenType>, r: Outcome<Exception>)
      modifies this`project
      ensures var lookup := Lookup(settings, server);
        && (r.Pass? <==> lookup.Ok?)
        && (lookup.Ok? ==> project == Some(lookup.value))
        && (lookup.Err? ==> r == Fail(lookup.error) && project == old(project))
      ensures IsBlank(GetString(settings, GitLabProjectName)) ==> attempts == []
    {
      var projectName := GetString(settings, GitLabProjectName);
      if IsBlank(projectName) {
        return [], Fail(IllegalArgument(MissingProjectName));
      }
      var connection;
      attempts, connection := CreateGitLabConnection(server);
      if connection.Err? {
        return attempts, Fail(connection.error);
      }
      if server.projects.Err? {
        return attempts, Fail(IO(server.projects.error));
      }
      var found := FindProject(server.projects.value, (p: Project) => FullName(p) == projectName.value);
      if found.None? {
        return attempts, Fail(IllegalArgument(ProjectNotFound(projectName.value)));
      }
      project := found;
      r := Pass;
    }

    method SetBaseDir(gitBaseDir: Option<Dir>)
      modifies this`gitBaseDir
      ensures this.gitBaseDir == gitBaseDir
    {
      this.gitBaseDir := gitBaseDir;
    }
  }
}
