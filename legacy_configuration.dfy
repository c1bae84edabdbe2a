/** The older GitLabPluginConfiguration: finds the project among all
    projects by its "namespace / name" display form, and resolves the git
    working tree itself when given the project's base directory. */
module LegacyConfiguration {
  import opened Wrappers
  import opened Settings
  import opened Api
  import opened Files
  import Configuration

  /** The not-found message as the older class raises it: the template is
      passed to the exception without being formatted, so it never names
      the project. */
  const ProjectNotFoundTemplate: string :=
    "Failed to find project '" + "%s" + "'. Is the user authorized to access the project?"

  /** The project the older initialiseProject records, or its exception.
      GitlabAPI.connect only stores the URL and token, so no call is made
      before the project listing. */
  function Lookup(settings: Properties, server: GitLab): (r: Result<Project, Exception>)
    ensures IsBlank(GetString(settings, GitLabProjectName)) ==> r == Err(IllegalArgument(Configuration.MissingProjectName))
    ensures r.Ok? ==> GitLabProjectName in settings && server.allProjects.Ok?
                      && r.value in server.allProjects.value
                      && r.value.nameWithNamespace == settings[GitLabProjectName]
    ensures r.Err? && r.error.IO? ==> server.allProjects == Err(r.error.message)
  {
    var name := GetString(settings, GitLabProjectName);
    if IsBlank(name) then Err(IllegalArgument(Configuration.MissingProjectName))
    else if server.allProjects.Err? then Err(IO(server.allProjects.error))
    else
      var found := FindProject(server.allProjects.value, (p: Project) => p.nameWithNamespace == name.value);
      if found.None? then Err(IllegalArgument(ProjectNotFoundTemplate))
      else Ok(found.value)
  }

  /** When no project carries the name, the failure is the same for every
      name, and its message still holds the `%s` placeholder. */
  lemma {:induction false} NotFoundIgnoresName(settings: Properties, server: GitLab)
    requires !IsBlank(GetString(settings, GitLabProjectName)) && server.allProjects.Ok?
    requires forall p :: p in server.allProjects.value ==> p.nameWithNamespace != settings[GitLabProjectName]
    ensures Lookup(settings, server) == Err(IllegalArgument(ProjectNotFoundTemplate))
    ensures ProjectNotFoundTemplate[24] == '%' && ProjectNotFoundTemplate[25] == 's'
  {
    var name := settings[GitLabProjectName];
    var projects := server.allProjects.value;
    var matches := (p: Project) => p.nameWithNamespace == name;
    assert forall i :: 0 <= i < |projects| ==> !matches(projects[i]) by {
      assert forall i :: 0 <= i < |projects| ==> projects[i] in projects;
    }
    assert FindProject(projects, matches).None?;
    var prefix := "Failed to find project '";
    var rest := "%s" + "'. Is the user authorized to access the project?";
    assert |prefix| == 24 && ProjectNotFoundTemplate == prefix + rest;
    assert ProjectNotFoundTemplate[24] == rest[0] && ProjectNotFoundTemplate[25] == rest[1];
  }

  class GitLabPluginConfiguration {
    const settings: Properties
    var project: Option<Project>
    var gitBaseDir: Option<Dir>

    constructor(settings: Properties)
      ensures this.settings == settings && project.None? && gitBaseDir.None?
    {
      this.settings := settings;
      project := None;
      gitBaseDir := None;
    }

    /** The commit-hash property, or null when it is not set. */
    function CommitHash(): (h: Option<string>)
      ensures h.Some? <==> GitLabCommitHash in settings
      ensures h.Some? ==> h.value == settings[GitLabCommitHash]
    {
      GetString(settings, GitLabCommitHash)
    }

    /** initialiseProject: records the project whose display name is the
        project-name property; on failure the recorded project stays as it
        was. */
    method InitialiseProject(server: GitLab) returns (r: Outcome<Exception>)
      modifies this`project
      ensures var lookup := Lookup(settings, server);
        && (r.Pass? <==> lookup.Ok?)
        && (lookup.Ok? ==> project == Some(lookup.value))
        && (lookup.Err? ==> r == Fail(lookup.error) && project == old(project))
    {
      var projectName := GetString(settings, GitLabProjectName);
      if IsBlank(projectName) {
        return Fail(IllegalArgument(Configuration.MissingProjectName));
      }
      if server.allProjects.Err? {
        return Fail(IO(server.allProjects.error));
      }
      var found := FindProject(server.allProjects.value, (p: Project) => p.nameWithNamespace == projectName.value);
      if found.None? {
        return Fail(IllegalArgument(ProjectNotFoundTemplate));
      }
      project := found;
      r := Pass;
    }

    /** setBaseDir: records the git working tree that holds `baseDir`, not
        `baseDir` itself. */
    method SetBaseDir(baseDir: Option<Dir>, hasGit: Dir -> bool)
      modifies this`gitBaseDir
      ensures gitBaseDir == FindGitBaseDir(baseDir, hasGit)
    {
      gitBaseDir := FindGitBaseDir(baseDir, hasGit);
    }
  }
}
