/** The analysis findings the plugin receives from SonarQube, and a finding
    once it has been tied to a file of the git repository. */
module Issues {
  import opened Wrappers

  /** SonarQube's rule severities, declared from least to most severe. */
  datatype Severity = Info | Minor | Major | Critical | Blocker

  /** The position of a severity in its enum declaration (Java's `ordinal()`). */
  function Ordinal(s: Severity): (n: nat)
    ensures n < 5
  {
    match s
    case Info => 0
    case Minor => 1
    case Major => 2
    case Critical => 3
    case Blocker => 4
  }

  /** The declaration order INFO < MINOR < MAJOR < CRITICAL < BLOCKER, which
      is what makes sorting by ordinal sort by ascending severity. */
  lemma SeverityOrder()
    ensures Ordinal(Info) < Ordinal(Minor) < Ordinal(Major) < Ordinal(Critical) < Ordinal(Blocker)
    ensures Ordinal(Info) == 0 && Ordinal(Blocker) == 4
  {
  }

  lemma OrdinalInjective(a: Severity, b: Severity)
    ensures Ordinal(a) == Ordinal(b) <==> a == b
  {
  }

  /** A finding. `path` is the repository-relative path that SonarQube's
      PathResolver gives for the finding's input component, and None when that
      component is null or is not a file. */
  datatype Issue = Issue(path: Option<string>, line: int, message: string, severity: Severity)

  /** A finding together with the repository path it was mapped to. */
  datatype MappedIssue = MappedIssue(issue: Issue, path: string)

  /** mapIssueToFile: a finding whose component maps to a repository path,
      tied to that path; nothing for any other finding. */
  function MapIssueToFile(issue: Issue): (r: Option<MappedIssue>)
    ensures r.Some? <==> issue.path.Some?
    ensures r.Some? ==> r.value.issue == issue && issue.path == Some(r.value.path)
  {
    if issue.path.Some? then Some(MappedIssue(issue, issue.path.value)) else None
  }

  /** mapIssueToFile applied to each finding in turn, keeping the results. */
  function MapIssues(issues: seq<Issue>): (r: seq<MappedIssue>)
    ensures |r| <= |issues|
    ensures forall i :: 0 <= i < |r| ==> r[i].issue.path == Some(r[i].path)
  {
    if issues == [] then []
    else
      var here := MapIssueToFile(issues[0]);
      (if here.Some? then [here.value] else []) + MapIssues(issues[1..])
  }

  /** Each mapped issue is a given finding tied to its own path, and every
      finding that has a path is mapped. */
  lemma {:induction false} MapIssuesMembers(issues: seq<Issue>)
    ensures |MapIssues(issues)| <= |issues|
    ensures forall m :: m in MapIssues(issues) ==> m.issue in issues && m.issue.path == Some(m.path)
    ensures forall i :: 0 <= i < |issues| && issues[i].path.Some? ==>
              MappedIssue(issues[i], issues[i].path.value) in MapIssues(issues)
  {
    if issues != [] {
      MapIssuesMembers(issues[1..]);
      assert forall i :: 1 <= i < |issues| ==> issues[i] == issues[1..][i - 1];
    }
  }

  /** Mapping works finding by finding, so it keeps the findings' order. */
  lemma {:induction false} MapIssuesAppend(a: seq<Issue>, b: seq<Issue>)
    ensures MapIssues(a + b) == MapIssues(a) + MapIssues(b)
  {
    if a == [] {
      assert a + b == b;
    } else {
      assert (a + b)[0] == a[0] && (a + b)[1..] == a[1..] + b;
      MapIssuesAppend(a[1..], b);
    }
  }

  /** Findings without a file component are dropped: no mapped issue
      refers to them. */
  lemma MapIssuesDropsUnmapped(issues: seq<Issue>, i: int)
    requires 0 <= i < |issues| && issues[i].path.None?
    ensures forall m :: m in MapIssues(issues) ==> m.issue != issues[i]
  {
    MapIssuesMembers(issues);
  }
}
