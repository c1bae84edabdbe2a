# sonar-gitlab-plugin, modelled in Dafny

This project models the core of the SonarQube GitLab plugin. The plugin runs after an analysis and posts each finding (issue) on a line the commit added or changed as a GitLab commit comment.

The model covers these parts of the plugin:

- **Diff parsing.** `HunkRange` and `UnifiedDiff` turn each hunk header of GitLab's per-file unified diff into the range of new-file lines it covers.
- **Issue selection.** `CommitIssueJob` does three things:
  - it skips deleted files;
  - it ties each finding to a repository path, or drops it;
  - it keeps a finding only when a diff with the same path has a hunk containing its line.
- **Report and order.** `SonarReport` checks its required fields and lists findings in ascending severity order, using `IssueSeveritySorter` and a stable sort.
- **Publishing.** There are two generations of `CommitCommenter`:
  - the current one stops at the first post that fails;
  - the older one posts every mapped finding and only then reports failure.
- **Markdown.** `MarkdownBuilder` is an append-only text buffer.
- **Configuration.** Both generations of `GitLabPluginConfiguration` are modelled, with `CommitAnalysisBuilder`. This covers:
  - the blank-property test and the enable switch;
  - URL and token validation;
  - the access-token then private-token fallback on HTTP 401;
  - project lookup;
  - the search for the nearest directory that holds `.git`.

The GitLab server is a value of `Api.GitLab`. It holds the answer each REST call gets: a result or the IOException message. It also holds the set of comments the server rejects. Directories are absolute paths, written as sequences of names. The file system is a predicate `hasGit` on directories. Objects whose fields the plugin updates are classes: the report builder, the markdown builder, both configurations, the commenters, the analysis builder and the job. Everything else is a datatype or a function.

Modules, one file each:

- `Wrappers`: Option, Result, Outcome, and the Java exceptions.
- `Text`: readLine splitting and decimal numbers.
- `Settings`: properties, trim and isBlank.
- `Issues`: findings and mapping them to files.
- `Sorting`: the comparator and the stable sort.
- `Api`: the GitLab records and the server.
- `Files`: findGitBaseDir.
- `Diff`: HunkRange, the header grammar, parseDiff and UnifiedDiff.
- `Report`: SonarReport and its Builder.
- `Markdown`: MarkdownBuilder.
- `Commenter`: the current CommitCommenter.
- `LegacyCommenter`: the older CommitCommenter.
- `Configuration`: the current configuration class.
- `LegacyConfiguration`: the older configuration class.
- `AnalysisBuilder`: CommitAnalysisBuilder.
- `IssueJob`: CommitIssueJob.

The source and its unit test disagree about a hunk header that omits the new-file count. The model follows the test and the unified format: an omitted count means one line. The code as written is kept beside it and compared under "## Findings".

## Model

| member | source | states |
|---|---|---|
| Text.ReadLines | src/main/java/org/johnnei/sgp/internal/model/diff/UnifiedDiff.java:41-45 | The lines readLine returns contain no terminator, and a non-empty text has at least one line. |
| Text.ReadLinesUnlines | src/main/java/org/johnnei/sgp/internal/model/diff/UnifiedDiff.java:41-45 | Splitting a text into lines undoes joining those lines with "\n". |
| Text.DigitsValueOfNatToDigits | src/main/java/org/johnnei/sgp/internal/model/diff/UnifiedDiff.java:61 | Reading a number's decimal form as parseInt does gives the number back. |
| Text.IntToString | src/main/java/org/johnnei/sgp/internal/gitlab/CommitCommenter.java:45 | Integer.toString gives digits whose value is the number, preceded by '-' exactly for negative numbers. |
| Issues.Ordinal | src/main/java/org/johnnei/sgp/internal/sorting/IssueSeveritySorter.java:14 | The five severities have ordinals below 5. |
| Issues.SeverityOrder | src/main/java/org/johnnei/sgp/internal/sorting/IssueSeveritySorter.java:14 | The ordinals follow the declaration order INFO < MINOR < MAJOR < CRITICAL < BLOCKER, from 0 to 4, so ordering by ordinal orders by ascending severity. |
| Issues.OrdinalInjective | src/main/java/org/johnnei/sgp/internal/sorting/IssueSeveritySorter.java:14-20 | Two severities have equal ordinals exactly when they are the same severity. |
| Issues.MapIssueToFile | src/main/java/org/johnnei/sgp/internal/sonar/CommitIssueJob.java:109-127 | A finding is mapped exactly when it has a file path, and then it is kept with that path. |
| Issues.MapIssues | src/main/java/org/johnnei/sgp/internal/sonar/CommitIssueJob.java:84-85 | There is at most one mapped issue per finding, each tied to its own finding's path. |
| Issues.MapIssuesMembers | src/main/java/org/johnnei/sgp/internal/sonar/CommitIssueJob.java:109-127 | Each mapped issue is a given finding paired with that finding's own path. Every finding with a file path is mapped, and nothing is added. |
| Issues.MapIssuesAppend | src/main/java/org/johnnei/sgp/internal/sonar/CommitIssueJob.java:84-85 | Mapping works finding by finding, so it keeps the findings' order. |
| Issues.MapIssuesDropsUnmapped | src/main/java/org/johnnei/sgp/internal/sonar/CommitIssueJob.java:119-123 | A finding whose component is null or not a file is dropped. |
| Sorting.Compare | src/main/java/org/johnnei/sgp/internal/sorting/IssueSeveritySorter.java:13-22 | compare returns only -1, 0 or 1. It returns 0 exactly for equal severities, and its sign follows ordinal order. |
| Sorting.CompareAntisymmetric | src/main/java/org/johnnei/sgp/internal/sorting/IssueSeveritySorter.java:14-21 | compare(a,b) == -compare(b,a). |
| Sorting.CompareTransitive | src/main/java/org/johnnei/sgp/internal/sorting/IssueSeveritySorter.java:14-21 | compare is transitive on <= 0, so it is a total preorder. |
| Sorting.CompareOnlySeverity | src/main/java/org/johnnei/sgp/internal/sorting/IssueSeveritySorter.java:14 | The result depends on the two severities only. |
| Sorting.CompareExamples | src/test/java/org/johnnei/sgp/internal/sorting/IssueSeveritySorterTest.java:20-51 | MAJOR vs MAJOR gives 0, INFO vs MAJOR gives -1, and BLOCKER vs MAJOR gives 1. |
| Sorting.SortBySeverity | src/main/java/org/johnnei/sgp/internal/model/SonarReport.java:46 | The stable sort returns a permutation of its input that is non-decreasing under compare. Findings of equal severity keep their input order. |
| Sorting.SortSortedIdentity | src/main/java/org/johnnei/sgp/internal/model/SonarReport.java:46 | Input already in severity order is returned unchanged. |
| Api.FindProject | src/main/java/org/johnnei/sgp/internal/sonar/GitLabPluginConfiguration.java:102-108 | findAny gives nothing exactly when no project matches. Otherwise it gives a listed project that matches, with no match before it. |
| Files.Parent | src/main/java/org/johnnei/internal/sonar/GitLabPluginConfiguration.java:73 | getParentFile removes the last name, and the root has no parent. |
| Files.FindGitBaseDir | src/main/java/org/johnnei/sgp/internal/sonar/CommitAnalysisBuilder.java:40-50 | findGitBaseDir returns null for null, and null when no ancestor up to the root has .git. Otherwise it returns an ancestor (or the directory itself) that has .git, and none nearer has it. Each step moves to the parent, so the search terminates. |
| Files.FindGitBaseDirExample | src/main/java/org/johnnei/internal/sonar/GitLabPluginConfiguration.java:66-74 | Starting from a sub-sub-directory, the search finds the repository root two levels up. |
| Settings.GetString | src/main/java/org/johnnei/sgp/internal/sonar/GitLabPluginConfiguration.java:128-130 | getString returns the set value unchanged, or null when the key is unset. |
| Settings.Trim | src/main/java/org/johnnei/sgp/internal/sonar/GitLabPluginConfiguration.java:141 | trim gives a string no longer than its input that neither starts nor ends with a character <= U+0020. |
| Settings.IsBlank | src/main/java/org/johnnei/sgp/internal/sonar/GitLabPluginConfiguration.java:136-142 | A value whose first character is above U+0020 is not blank. |
| Settings.TrimStart | src/main/java/org/johnnei/sgp/internal/sonar/GitLabPluginConfiguration.java:141 | trim removes a prefix made only of characters <= U+0020 and stops at the first other character. |
| Settings.TrimEnd | src/main/java/org/johnnei/sgp/internal/sonar/GitLabPluginConfiguration.java:141 | trim removes a suffix made only of characters <= U+0020 and stops at the last other character. |
| Settings.TrimEmpty | src/main/java/org/johnnei/sgp/internal/sonar/GitLabPluginConfiguration.java:141 | A string trims to empty exactly when every character is <= U+0020. |
| Settings.IsBlankMeaning | src/main/java/org/johnnei/sgp/internal/sonar/GitLabPluginConfiguration.java:136-142 | isBlank holds exactly for null or a string with no character above U+0020. |
| Settings.IsBlankExamples | src/main/java/org/johnnei/internal/sonar/GitLabPluginConfiguration.java:92-98 | null, "" and whitespace are blank, and a commit hash is not. |
| Settings.IsEnabled | src/main/java/org/johnnei/sgp/internal/sonar/GitLabPluginConfiguration.java:40-42 | The plugin is enabled exactly when the commit-hash property is set and has a character above U+0020. |
| Diff.HunkRange.ContainsLine | src/main/java/org/johnnei/sgp/internal/model/diff/HunkRange.java:21-23 | A range contains a line only from its start on, and only when it covers at least one line. |
| Diff.ContainsLineExamples | src/test/java/org/johnnei/sgp/internal/model/diff/HunkRangeTest.java:14-46 | For (5,7), lines 5 and 11 are in, and lines 4, 12 and 25 are out. |
| Diff.EmptyRangeContainsNothing | src/main/java/org/johnnei/sgp/internal/model/diff/HunkRange.java:21-23 | A range with lineCount <= 0 contains no line. |
| Diff.MatchHeader | src/main/java/org/johnnei/sgp/internal/model/diff/UnifiedDiff.java:26-27 | A line matches only if it starts with "@@". |
| Diff.ParseHeader | src/main/java/org/johnnei/sgp/internal/model/diff/UnifiedDiff.java:55-62 | A failure is always "Failed to parse hunk header: <line>". A range read from a header has a non-negative start and count. |
| Diff.ParseHeaderAsWritten | src/main/java/org/johnnei/sgp/internal/model/diff/UnifiedDiff.java:61 | The code as written agrees with the corrected parser wherever it succeeds. |
| Diff.MatchHeaderText | src/main/java/org/johnnei/sgp/internal/model/diff/UnifiedDiff.java:26-27 | Every line built from valid parts matches: digit runs with leading zeros allowed, one White_Space character at each separator, an optional count after a comma, and a section without a line terminator. The match captures the new start and count as written. |
| Diff.MatchHeaderSplit | src/main/java/org/johnnei/sgp/internal/model/diff/UnifiedDiff.java:26-27 | Every line that matches is built from valid parts, and the values the match captures are those parts' values. |
| Diff.MatchHeaderGrammar | src/main/java/org/johnnei/sgp/internal/model/diff/UnifiedDiff.java:26-27 | A line matches exactly when it belongs to the header grammar. |
| Diff.ParseHeaderGrammar | src/main/java/org/johnnei/sgp/internal/model/diff/UnifiedDiff.java:55-59 | parseHeader succeeds exactly on the lines of the grammar. Every other line fails with "Failed to parse hunk header: <line>". |
| Diff.ParseHeaderText | src/main/java/org/johnnei/sgp/internal/model/diff/UnifiedDiff.java:55-62 | Any line of the grammar parses to (new start, new count), with an omitted count read as 1. |
| Diff.MismatchedOldSide | src/main/java/org/johnnei/sgp/internal/model/diff/UnifiedDiff.java:56-59 | A line whose old side does not match fails with the header error. |
| Diff.MismatchedNewSide | src/main/java/org/johnnei/sgp/internal/model/diff/UnifiedDiff.java:56-59 | A line whose old side matches but whose new side does not fails with the header error. |
| Diff.NewSideUnseparated | src/main/java/org/johnnei/sgp/internal/model/diff/UnifiedDiff.java:27 | A closing "@@" with no White_Space character before it ends the match of the new side. |
| Diff.CommaWithoutDigits | src/main/java/org/johnnei/sgp/internal/model/diff/UnifiedDiff.java:27 | A comma not followed by a digit ends the match of its side. |
| Diff.SectionWithTerminator | src/main/java/org/johnnei/sgp/internal/model/diff/UnifiedDiff.java:55-59 | A line whose section holds a line terminator fails, however well formed the rest is. |
| Diff.RejectsMissingSeparator | src/main/java/org/johnnei/sgp/internal/model/diff/UnifiedDiff.java:56-59 | "@@ -1 +1@@" fails with the header error. |
| Diff.RejectsEmptyCount | src/main/java/org/johnnei/sgp/internal/model/diff/UnifiedDiff.java:56-59 | "@@ -1, +1 @@" fails with the header error. |
| Diff.RejectsDoubleSeparator | src/main/java/org/johnnei/sgp/internal/model/diff/UnifiedDiff.java:56-59 | "@@  -1 +1 @@" (two spaces) fails with the header error. |
| Diff.RejectsMissingPlus | src/main/java/org/johnnei/sgp/internal/model/diff/UnifiedDiff.java:56-59 | "@@ -1 1 @@" fails with the header error. |
| Diff.RejectsTerminatorInSection | src/main/java/org/johnnei/sgp/internal/model/diff/UnifiedDiff.java:56-59 | "@@ -1 +1 @@" followed by NEL (U+0085) fails with the header error. |
| Diff.LeadingZerosExample | src/main/java/org/johnnei/sgp/internal/model/diff/UnifiedDiff.java:27 | "@@ -01 +007,02 @@x" gives (7,2). |
| Diff.OmittedCountExample | src/test/java/org/johnnei/sgp/internal/model/diff/UnifiedDiffTest.java:25-31 | "@@ -0,0 +1 @@" gives (1,1), and the code as written throws NumberFormatException("null") on it. |
| Diff.ModifiedHeaderExample | src/test/java/org/johnnei/sgp/internal/model/diff/UnifiedDiffTest.java:44-50 | "@@ -1,10 +1,9 @@" gives (1,9), ignoring the old side. |
| Diff.ParseHeaders | src/main/java/org/johnnei/sgp/internal/model/diff/UnifiedDiff.java:45-48 | On success there is exactly one range per header. |
| Diff.ParseHunks | src/main/java/org/johnnei/sgp/internal/model/diff/UnifiedDiff.java:45-48 | On success there is at most one range per line, each with a non-negative start and count. |
| Diff.HeaderLines | src/main/java/org/johnnei/sgp/internal/model/diff/UnifiedDiff.java:46 | Only lines starting with "@@" are handed to parseHeader. |
| Diff.ParseHeadersOk | src/main/java/org/johnnei/sgp/internal/model/diff/UnifiedDiff.java:45-48 | The headers parse exactly when each one does. They then give one range per header, in text order. |
| Diff.ParseHeadersFirstError | src/main/java/org/johnnei/sgp/internal/model/diff/UnifiedDiff.java:45-59 | A failure is that of the first header that does not parse. |
| Diff.ParseHunksOnlyHeaders | src/main/java/org/johnnei/sgp/internal/model/diff/UnifiedDiff.java:45-48 | Lines not starting with "@@" are ignored. The ranges are those of the header lines, in order. |
| Diff.ParseDiff | src/main/java/org/johnnei/sgp/internal/model/diff/UnifiedDiff.java:40-53 | The readLine loop that appends ranges ends with exactly the ranges of the diff's headers, or with the first header's failure. |
| Diff.NewUnifiedDiff | src/main/java/org/johnnei/sgp/internal/model/diff/UnifiedDiff.java:33-38 | The filepath is the commit diff's new path unchanged, and the ranges are the parsed ones. A parse failure propagates. |
| Diff.SingleHunk | src/main/java/org/johnnei/sgp/internal/model/diff/UnifiedDiff.java:45-48 | A diff with a single hunk yields exactly one range, its header's. |
| Diff.SingleHunkExample | src/test/java/org/johnnei/sgp/internal/model/diff/UnifiedDiffTest.java:44-50 | The modified-file diff yields exactly [(1,9)]. |
| Diff.FileAddedExample | src/test/java/org/johnnei/sgp/internal/model/diff/UnifiedDiffTest.java:25-31 | The added-file diff yields exactly [(1,1)]. |
| Diff.ParseHunksNone | src/main/java/org/johnnei/sgp/internal/model/diff/UnifiedDiff.java:45-48 | A diff without "@@" lines has no ranges. |
| Report.SonarReport.GetIssues | src/main/java/org/johnnei/sgp/internal/model/SonarReport.java:45-47 | getIssues is a permutation of the stored findings, non-decreasing in severity, and stable for equal severities. |
| Report.NewSonarReport | src/main/java/org/johnnei/sgp/internal/model/SonarReport.java:38-43 | The checks run in order: base dir, commit, project, issues. The first one missing throws its own NullPointerException message. Otherwise the fields are exactly the given values. |
| Report.GetIssuesOrdered | src/main/java/org/johnnei/sgp/internal/model/SonarReport.java:45-47 | Findings already in severity order are listed as stored. |
| Report.GetIssuesKeepsTies | src/main/java/org/johnnei/sgp/internal/model/SonarReport.java:46 | Two findings of the same severity are listed in their stored order. |
| Report.Builder.constructor | src/main/java/org/johnnei/sgp/internal/model/SonarReport.java:69-74 | A new builder has every field unset. |
| Report.Builder.SetCommitSha | src/main/java/org/johnnei/sgp/internal/model/SonarReport.java:76-79 | The setter changes only the commit field and returns the same builder. |
| Report.Builder.SetProject | src/main/java/org/johnnei/sgp/internal/model/SonarReport.java:81-84 | The setter changes only the project field and returns the same builder. |
| Report.Builder.SetProjectBaseDir | src/main/java/org/johnnei/sgp/internal/model/SonarReport.java:86-89 | The setter changes only the base-dir field and returns the same builder. |
| Report.Builder.SetIssues | src/main/java/org/johnnei/sgp/internal/model/SonarReport.java:91-94 | The setter changes only the issues field and returns the same builder. |
| Report.Builder.Build | src/main/java/org/johnnei/sgp/internal/model/SonarReport.java:96-98 | build succeeds exactly when all four fields are set. The report then carries exactly those values. |
| Report.BuildAll | src/main/java/org/johnnei/sgp/internal/sonar/CommitIssueJob.java:92-97 | Setting all four fields through the chained setters gives the report of exactly those values. |
| Markdown.MarkdownBuilder.constructor | src/main/java/org/johnnei/sgp/internal/gitlab/MarkdownBuilder.java:13-15 | A new builder holds the empty string. |
| Markdown.MarkdownBuilder.StartListItem | src/main/java/org/johnnei/sgp/internal/gitlab/MarkdownBuilder.java:17-20 | Appends exactly "- " and returns the same builder. |
| Markdown.MarkdownBuilder.EndListItem | src/main/java/org/johnnei/sgp/internal/gitlab/MarkdownBuilder.java:22-25 | Appends exactly "\n" and returns the same builder. |
| Markdown.MarkdownBuilder.AddText | src/main/java/org/johnnei/sgp/internal/gitlab/MarkdownBuilder.java:27-30 | Appends the text verbatim and returns the same builder. |
| Markdown.MarkdownBuilder.AddLineBreak | src/main/java/org/johnnei/sgp/internal/gitlab/MarkdownBuilder.java:32-35 | Appends exactly "\n" and returns the same builder. |
| Markdown.MarkdownBuilder.ToString | src/main/java/org/johnnei/sgp/internal/gitlab/MarkdownBuilder.java:37-40 | toString gives exactly the text appended so far. |
| Markdown.ListItem | src/main/java/org/johnnei/sgp/internal/gitlab/MarkdownBuilder.java:13-40 | A list item on a fresh builder renders as "- ", then the text verbatim, then "\n". |
| Markdown.AppendOnly | src/main/java/org/johnnei/sgp/internal/gitlab/MarkdownBuilder.java:17-40 | The earlier content is a prefix of the later content, and toString changes nothing. |
| Commenter.Comment | src/main/java/org/johnnei/sgp/internal/gitlab/CommitCommenter.java:38-47 | The comment goes on the new side of the finding's mapped path, with the finding's message as its text. |
| Commenter.Attempts | src/main/java/org/johnnei/sgp/internal/gitlab/CommitCommenter.java:28-31 | There is at most one post per finding, and every post but the last was accepted. |
| Commenter.CommentFields | src/main/java/org/johnnei/sgp/internal/gitlab/CommitCommenter.java:38-47 | A post carries the project id, the commit sha, the finding's message, the mapped path, the line in decimal, and "new". |
| Commenter.AttemptsPrefix | src/main/java/org/johnnei/sgp/internal/gitlab/CommitCommenter.java:28-31 | The posts are, in getIssues order, a prefix of the findings' comments. Every post but the last succeeded, and a post that fails ends the run. |
| Commenter.AttemptsAllAccepted | src/main/java/org/johnnei/sgp/internal/gitlab/CommitCommenter.java:28-35 | No attempted post failed exactly when the server accepts every finding's comment. |
| Commenter.AttemptsStopAtRejection | src/main/java/org/johnnei/sgp/internal/gitlab/CommitCommenter.java:29-31 | Nothing is posted after the first rejected comment. |
| Commenter.ReportAccepted | src/main/java/org/johnnei/sgp/internal/gitlab/CommitCommenter.java:27-36 | Processing a report succeeds exactly when every finding's comment is accepted, whatever the order. |
| Commenter.CommitCommenter.constructor | src/main/java/org/johnnei/sgp/internal/gitlab/CommitCommenter.java:23-25 | The commenter keeps the API it is given. |
| Commenter.CommitCommenter.Process | src/main/java/org/johnnei/sgp/internal/gitlab/CommitCommenter.java:27-36 | Posts in getIssues order up to the first failure. It returns normally exactly when no post failed, including the empty report, and otherwise throws the ProcessException message. |
| Commenter.CommitCommenter.PostAll | src/main/java/org/johnnei/sgp/internal/gitlab/CommitCommenter.java:28-31 | The allMatch loop makes exactly the short-circuiting attempts. |
| Commenter.CommitCommenter.PostComment | src/main/java/org/johnnei/sgp/internal/gitlab/CommitCommenter.java:38-53 | The createCommitComment call for one finding goes to the report's project and commit. Its success is the server's answer, which Process folds into the outcome. |
| LegacyCommenter.Comments | src/main/java/org/johnnei/internal/gitlab/CommitCommenter.java:29-31 | One comment per mapped finding, in order. |
| LegacyCommenter.CommitCommenter.constructor | src/main/java/org/johnnei/internal/gitlab/CommitCommenter.java:24-26 | The commenter keeps the API it is given. |
| LegacyCommenter.CommitCommenter.Process | src/main/java/org/johnnei/internal/gitlab/CommitCommenter.java:28-40 | Skips unmapped findings and posts every mapped one, even after a failure. It succeeds exactly when no post failed, including when nothing was posted. |
| LegacyCommenter.PostsEveryMappedIssue | src/main/java/org/johnnei/internal/gitlab/CommitCommenter.java:29-35 | Every finding that maps to a path gets its post. |
| Configuration.AttemptConnect | src/main/java/org/johnnei/sgp/internal/sonar/GitLabPluginConfiguration.java:74-87 | Only a 401 rejects the token, and any other API error counts as connected. An IOException becomes IllegalStateException "Failed to connect with GitLab." with the cause. |
| Configuration.Connect | src/main/java/org/johnnei/sgp/internal/sonar/GitLabPluginConfiguration.java:52-72 | A blank URL fails with its own message before the token is checked, and a blank token fails with its own. A connection carries the configured URL and token. |
| Configuration.ConnectFallback | src/main/java/org/johnnei/sgp/internal/sonar/GitLabPluginConfiguration.java:52-72 | The access token is used when accepted. The private token is used only after a 401 and only when it is accepted. Two 401s give "Failed to authorize user with API.". |
| Configuration.Lookup | src/main/java/org/johnnei/sgp/internal/sonar/GitLabPluginConfiguration.java:93-114 | A blank name fails, naming the property, before any connection. A found project is listed and its namespace/name equals the setting. |
| Configuration.LookupNotFound | src/main/java/org/johnnei/sgp/internal/sonar/GitLabPluginConfiguration.java:102-112 | The not-found error, naming the project, arises exactly when no listed project has that namespace/name. |
| Configuration.GitLabPluginConfiguration.constructor | src/main/java/org/johnnei/sgp/internal/sonar/GitLabPluginConfiguration.java:36-38 | Keeps the settings, with no project and no base dir. |
| Configuration.GitLabPluginConfiguration.CommitHash | src/main/java/org/johnnei/sgp/internal/sonar/GitLabPluginConfiguration.java:128-130 | The commit hash is the property's value, or null exactly when the property is unset. |
| Configuration.GitLabPluginConfiguration.CreateGitLabConnection | src/main/java/org/johnnei/sgp/internal/sonar/GitLabPluginConfiguration.java:52-72 | The URL is checked before the token. The access token is tried first, and the private token only after a 401, so there are at most two attempts. |
| Configuration.GitLabPluginConfiguration.InitialiseProject | src/main/java/org/johnnei/sgp/internal/sonar/GitLabPluginConfiguration.java:93-114 | Records the lookup's project. On any failure the project is left as it was, and a blank name makes no connection attempt. |
| Configuration.GitLabPluginConfiguration.SetBaseDir | src/main/java/org/johnnei/sgp/internal/sonar/GitLabPluginConfiguration.java:116-118 | Stores the directory it is given. |
| LegacyConfiguration.Lookup | src/main/java/org/johnnei/internal/sonar/GitLabPluginConfiguration.java:49-60 | A blank name fails, naming the property. A found project is listed and its nameWithNamespace equals the setting exactly. |
| LegacyConfiguration.NotFoundIgnoresName | src/main/java/org/johnnei/internal/sonar/GitLabPluginConfiguration.java:56-59 | The not-found error is the same for every name, and it still contains a literal "%s". |
| LegacyConfiguration.GitLabPluginConfiguration.constructor | src/main/java/org/johnnei/internal/sonar/GitLabPluginConfiguration.java:29-31 | Keeps the settings, with no project and no base dir. |
| LegacyConfiguration.GitLabPluginConfiguration.CommitHash | src/main/java/org/johnnei/internal/sonar/GitLabPluginConfiguration.java:84-86 | The commit hash is the property's value, or null exactly when the property is unset. |
| LegacyConfiguration.GitLabPluginConfiguration.InitialiseProject | src/main/java/org/johnnei/internal/sonar/GitLabPluginConfiguration.java:49-60 | Records the lookup's project, and on failure leaves the project as it was. |
| LegacyConfiguration.GitLabPluginConfiguration.SetBaseDir | src/main/java/org/johnnei/internal/sonar/GitLabPluginConfiguration.java:62-74 | Stores the result of the .git search, not its argument. |
| AnalysisBuilder.InitialiseFailure | src/main/java/org/johnnei/sgp/internal/sonar/CommitAnalysisBuilder.java:54-58 | An IOException is wrapped as "Failed to retrieve GitLab project." with the cause, and any other exception passes unchanged. |
| AnalysisBuilder.InitialiseFailureCases | src/main/java/org/johnnei/sgp/internal/sonar/CommitAnalysisBuilder.java:52-58 | A failed project listing surfaces wrapped, while a missing project name keeps its own message. |
| AnalysisBuilder.CommitAnalysisBuilder.constructor | src/main/java/org/johnnei/sgp/internal/sonar/CommitAnalysisBuilder.java:24-27 | Keeps the configuration and the analysis mode. |
| AnalysisBuilder.CommitAnalysisBuilder.Build | src/main/java/org/johnnei/sgp/internal/sonar/CommitAnalysisBuilder.java:30-38 | When disabled, changes nothing and checks nothing. Outside issues mode it fails before any lookup. On a failed lookup the base dir is not set. On success it records the project and the nearest .git ancestor. |
| AnalysisBuilder.CommitAnalysisBuilder.EnsureCorrectConfiguration | src/main/java/org/johnnei/sgp/internal/sonar/CommitAnalysisBuilder.java:52-69 | Checks issues mode, naming sonar.analysis.mode, then initialises the project, wrapping an IOException. |
| IssueJob.AnyRangeContains | src/main/java/org/johnnei/sgp/internal/sonar/CommitIssueJob.java:138 | True exactly when some range contains the line. |
| IssueJob.IsInDiff | src/main/java/org/johnnei/sgp/internal/sonar/CommitIssueJob.java:135-139 | True exactly when a diff whose path equals the finding's path has a range containing the finding's line. |
| IssueJob.SelectIssues | src/main/java/org/johnnei/sgp/internal/sonar/CommitIssueJob.java:86 | At most the given findings are kept, and each kept one is in the diff. |
| IssueJob.SelectIssuesMembers | src/main/java/org/johnnei/sgp/internal/sonar/CommitIssueJob.java:84-87 | The kept findings are exactly the given ones that are in the diff. |
| IssueJob.SelectIssuesAppend | src/main/java/org/johnnei/sgp/internal/sonar/CommitIssueJob.java:84-87 | Filtering decides finding by finding and keeps the input order. |
| IssueJob.PublishedIssues | src/main/java/org/johnnei/sgp/internal/sonar/CommitIssueJob.java:83-87 | The report holds exactly the findings that have a file path and lie, at that path, in the diff. |
| IssueJob.OtherPathNotInDiff | src/main/java/org/johnnei/sgp/internal/sonar/CommitIssueJob.java:137 | A finding on a path that no diff has is never kept. |
| IssueJob.UnifiedDiffs | src/main/java/org/johnnei/sgp/internal/sonar/CommitIssueJob.java:67-78 | At most one diff per entry, each for a file that was not deleted. |
| IssueJob.DeletedTextIgnored | src/main/java/org/johnnei/sgp/internal/sonar/CommitIssueJob.java:71-77 | The diff text of a deleted file is never read. |
| IssueJob.OnlyDeletions | src/main/java/org/johnnei/sgp/internal/sonar/CommitIssueJob.java:71-77 | Deleted-file entries produce no UnifiedDiff. |
| IssueJob.CollectDiffs | src/main/java/org/johnnei/sgp/internal/sonar/CommitIssueJob.java:67-78 | The flatMap over the fetched entries, one UnifiedDiff per entry that is not deleted, equals UnifiedDiffs(entries). |
| IssueJob.Describe | src/main/java/org/johnnei/sgp/internal/sonar/CommitIssueJob.java:55-61 | The job is named "GitLab Commit Issue Publisher" and requires the token, commit-hash and instance-URL properties. |
| IssueJob.DescribeRequirements | src/main/java/org/johnnei/sgp/internal/sonar/CommitIssueJob.java:55-61 | The job requires what connecting and enabling need, and not the project name. |
| IssueJob.CommitIssueJob.constructor | src/main/java/org/johnnei/sgp/internal/sonar/CommitIssueJob.java:46-52 | The job's commenter uses the job's own API. |
| IssueJob.CommitIssueJob.Execute | src/main/java/org/johnnei/sgp/internal/sonar/CommitIssueJob.java:64-102 | A missing project throws NPE. A failed diff fetch throws "Failed to get commit diff" with its IOException, and no report is built. A parse error propagates. With the diffs parsed, a missing base dir throws the SonarReport constructor's base-dir NullPointerException, and then a missing commit hash throws its commit NullPointerException. In Java the base-dir message is certain only when no finding resolves to a file (see "## Left out"). The report holds the selected findings with the configured commit and project, unchanged. The commenter runs exactly once, on that report. When a comment is rejected, the job fails with the commenter's ProcessException "One or more comments failed to be added to the commit.". |

## Left out

- The GitLab REST calls, HTTP and JSON. They become the answers held in `Api.GitLab`, and the arguments the plugin passes to getProjects, getAllProjects and getCommitDiffs are not modelled. Whether the server accepts a comment is a fixed function of that comment (`rejects`), so a server whose answer depends on earlier posts is not expressed.
- PathResolver.relativePath and the input-component check are folded into `Issue.path`, the path a finding's component resolves to (None for a null or non-file component). SonarReport.getFilePath and CommitIssueJob.getFilePath are therefore not separate members.
- IssueJob.CommitIssueJob.Execute: `Issue.path` is resolved as if a base dir were set. Java maps the findings (CommitIssueJob.java:84-87) before it builds the report, and getFilePath passes the base dir to relativePath (:126), so with no base dir relativePath(null, …) runs first for every file finding. That call is not modelled, so the base-dir NullPointerException of the report is what Java throws only when no finding resolves to a file.
- File.exists and File.getParentFile become the predicate `hasGit` and `Files.Parent` on absolute paths. Relative paths are not modelled.
- Diff.ParseHeader: Integer.parseInt throws NumberFormatException on a start or count above 2147483647 (UnifiedDiff.java:61), and that exception escapes the UnifiedDiff constructor. The model reads any digit run as its unbounded value, so it parses such a header where Java throws.
- Diff.HunkRange.ContainsLine: `start + lineCount` wraps around in Java's 32-bit int; the model uses unbounded integers and does not wrap.
- IssueJob.CommitIssueJob.constructor: the connection that the constructor creates through createGitLabConnection is passed in ready-made. Its failures are modelled by `Configuration.GitLabPluginConfiguration.CreateGitLabConnection`.
- IssueJob.CommitIssueJob.Execute: the NullPointerException for a missing project carries an empty message, where Java gives none. A finding whose line is null, which would also throw in Java, cannot be expressed because lines are integers.
- The core files disagree about what a report holds. SonarReport.java:24-47 stores and returns PostJobIssue, and MappedIssue.java:16 takes `(issue, commitSha, path)`. CommitIssueJob.java:93,112, the current CommitCommenter.java:38 and SonarReportTest.java:31 all put `MappedIssue(issue, path)` in the report. `Report.SonarReport` follows those callers and holds `seq<MappedIssue>`, and a MappedIssue carries no commit.
- The older SonarReport class is not part of this model. The older commenter reads a `LegacyCommenter.LegacyReport` that holds the project, the commit and the findings in its stream order.
- The older createGitLabConnection only stores the URL and token, so the older lookup makes no call before listing projects.
- Stopwatch timing and all logging.
- The host's own interfaces: the plugin registration, the PostJobDescriptor (reduced to `IssueJob.Descriptor`), the analysis mode (reduced to a boolean) and CoreProperties (whose values appear written out in the issues-mode message).
- Behaviour that only tests show, with no matching source among the core files: the PipelineBreaker status, deduplication against existing comments, the summary comment, and counting findings by severity.
- Markdown.MarkdownBuilder.AddText: Java's StringBuilder.append(null) appends the text "null". The model's text is a string that cannot be null, so that case is not modelled.
- BufferedReader's IOException on a string reader cannot occur, so the "Failed to read diff line." path is not modelled.

## Findings

| source | as written | input that shows it | evidently intended | confidence | as-written member | corrected member |
|---|---|---|---|---|---|---|
| src/main/java/org/johnnei/sgp/internal/model/diff/UnifiedDiff.java:61 | Integer.parseInt(matcher.group(2)) runs even when the optional new-file count did not take part in the match. parseInt(null) then throws NumberFormatException. | The header "@@ -0,0 +1 @@" of a new one-line file, as in the upstream unit test for an added file | An omitted count means a one-line hunk, so the range is (1,1). This is what the unified format and the test expect. | not executed | Diff.OmittedCountExample | Diff.ParseHeaderText |
