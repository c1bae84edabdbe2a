/** CommitAnalysisBuilder: at the start of an analysis, checks that the
    plugin can work, looks up the GitLab project and records the git working
    tree of the analysed project. */
module AnalysisBuilder {
  import opened Wrappers
  import opened Settings
  import opened Api
  import opened Files
  import opened Configuration

  /** The message naming SonarQube's analysis-mode property
      (`sonar.analysis.mode`) and its two issue-reporting values. */
  const IssuesModeRequired: string :=
    "GitLab plugin requires \"sonar.analysis.mode\" to be set to either issues or preview."

  const RetrieveFailed: string := "Failed to retrieve GitLab project."

  /** ensureCorrectConfiguration's translation of an initialiseProject
      failure: an IOException is wrapped, anything else escapes as it is. */
  function InitialiseFailure(e: Exception): (r: Exception)
    ensures e.IO? ==> r == IllegalState(RetrieveFailed, Some(e))
    ensures !e.IO? ==> r == e
  {
    if e.IO? then IllegalState(RetrieveFailed, Some(e)) else e
  }

  class CommitAnalysisBuilder {
    const configuration: GitLabPluginConfiguration
    /** AnalysisMode.isIssues: whether the analysis runs in issues or
        preview mode. */
    const issuesMode: bool

    constructor(configuration: GitLabPluginConfiguration, issuesMode: bool)
      ensures this.configuration == configuration && this.issuesMode == issuesMode
    {
      this.configuration := configuration;
      this.issuesMode := issuesMode;
    }

    /** build: does nothing when the plugin is disabled; otherwise requires
        issues mode, then initialises the project, and only then records the
        git working tree that holds `baseDir`, the root module's base
        directory. */
    method Build(baseDir: Option<Dir>, hasGit: Dir -> bool, server: GitLab) returns (r: Outcome<Exception>)
      modifies configuration
      ensures !IsEnabled(configuration.settings) ==> r == Pass && unchanged(configuration)
      ensures IsEnabled(configuration.settings) && !issuesMode ==>
                r == Fail(IllegalState(IssuesModeRequired, None)) && unchanged(configuration)
      ensures IsEnabled(configuration.settings) && issuesMode ==>
        var lookup := Lookup(configuration.settings, server);
        && (lookup.Ok? ==> r == Pass && configuration.project == Some(lookup.value)
                           && configuration.gitBaseDir == FindGitBaseDir(baseDir, hasGit))
        && (lookup.Err? ==> r == Fail(InitialiseFailure(lookup.error))
                            && configuration.project == old(configuration.project)
                            && configuration.gitBaseDir == old(configuration.gitBaseDir))
    {
      if !IsEnabled(configuration.settings) {
        return Pass;
      }
      var checked := EnsureCorrectConfiguration(server);
      if checked.Fail? {
        return checked;
      }
      configuration.SetBaseDir(FindGitBaseDir(baseDir, hasGit));
      r := Pass;
    }

    /** ensureCorrectConfiguration: the issues-mode check, then the project
        lookup. */
    method EnsureCorrectConfiguration(server: GitLab) returns (r: Outcome<Exception>)
      modifies configuration`project
      ensures !issuesMode ==> r == Fail(IllegalState(IssuesModeRequired, None)) && unchanged(configuration)
      ensures issuesMode ==>
        var lookup := Lookup(configuration.settings, server);
        && (lookup.Ok? ==> r == Pass && configuration.project == Some(lookup.value))
        && (lookup.Err? ==> r == Fail(InitialiseFailure(lookup.error)) && unchanged(configuration))
    {
      if !issuesMode {
        return Fail(IllegalState(IssuesModeRequired, None));
      }
      var attempts, initialised := configuration.InitialiseProject(server);
      if initialised.Fail? {
        return Fail(InitialiseFailure(initialised.error));
      }
      r := Pass;
    }
  }

  /** A failure to list the projects surfaces as "Failed to retrieve GitLab
      project." carrying the IOException, while every failure the lookup
      raises itself keeps its own type and message. */
  lemma InitialiseFailureCases(settings: Properties, server: GitLab)
    requires Lookup(settings, server).Err?
    ensures var e := Lookup(settings, server).error;
      && (server.projects.Err? && e.IO? ==> InitialiseFailure(e) == IllegalState(RetrieveFailed, Some(IO(server.projects.error))))
      && (IsBlank(GetString(settings, GitLabProjectName)) ==> InitialiseFailure(e) == IllegalArgument(MissingProjectName))
  {
  }
}
