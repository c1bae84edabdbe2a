/** The analysis properties the plugin reads, and the blank-string test
    both configuration classes apply to them. */
module Settings {
  import opened Wrappers

  const GitLabInstanceUrl: string := "sonar.gitlab.uri"
  const GitLabAuthToken: string := "sonar.gitlab.auth.token"
  const GitLabProjectName: string := "sonar.gitlab.analyse.project"
  const GitLabCommitHash: string := "sonar.gitlab.analyse.commit"

  /** The analysis properties: a key that is not set has no entry. */
  type Properties = map<string, string>

  /** Settings.getString: the value of `key`, or null when it is not set. */
  function GetString(settings: Properties, key: string): (r: Option<string>)
    ensures r.Some? <==> key in settings
    ensures r.Some? ==> r.value == settings[key]
  {
    if key in settings then Some(settings[key]) else None
  }

  /** The characters String.trim removes: every code point up to U+0020. */
  predicate IsTrimmed(c: char) {
    c <= ' '
  }

  /** Drops the leading characters String.trim removes. */
  function TrimStart(s: string): (r: string)
    ensures |r| <= |s| && r == s[|s| - |r|..]
    ensures forall i :: 0 <= i < |s| - |r| ==> IsTrimmed(s[i])
    ensures r == [] || !IsTrimmed(r[0])
  {
    if s != [] && IsTrimmed(s[0]) then TrimStart(s[1..]) else s
  }

  /** Drops the trailing characters String.trim removes. */
  function TrimEnd(s: string): (r: string)
    ensures |r| <= |s| && r == s[..|r|]
    ensures forall i :: |r| <= i < |s| ==> IsTrimmed(s[i])
    ensures r == [] || !IsTrimmed(r[|r| - 1])
  {
    if s != [] && IsTrimmed(s[|s| - 1]) then TrimEnd(s[..|s| - 1]) else s
  }

  /** String.trim. */
  function Trim(s: string): (r: string)
    ensures |r| <= |s|
    ensures r == [] || (!IsTrimmed(r[0]) && !IsTrimmed(r[|r| - 1]))
  {
    TrimEnd(TrimStart(s))
  }

  /** A string trims to nothing exactly when each of its characters is one
      that trim removes. */
  lemma TrimEmpty(s: string)
    ensures Trim(s) == [] <==> forall i :: 0 <= i < |s| ==> IsTrimmed(s[i])
  {
  }

  /** isBlank: null, or empty once trimmed. */
  predicate IsBlank(s: Option<string>)
    ensures s.Some? && s.value != [] && !IsTrimmed(s.value[0]) ==> !IsBlank(s)
  {
    s.None? || Trim(s.value) == []
  }

  /** A value is blank exactly when it is missing or holds no character
      above U+0020. */
  lemma IsBlankMeaning(s: Option<string>)
    ensures IsBlank(s) <==> s.None? || forall i :: 0 <= i < |s.value| ==> IsTrimmed(s.value[i])
  {
    if s.Some? {
      TrimEmpty(s.value);
    }
  }

  lemma IsBlankExamples()
    ensures IsBlank(None) && IsBlank(Some("")) && IsBlank(Some("  \t"))
    ensures !IsBlank(Some("a1b2c3"))
  {
    IsBlankMeaning(Some("  \t"));
    IsBlankMeaning(Some("a1b2c3"));
    assert !IsTrimmed("a1b2c3"[0]);
  }

  /** isEnabled: the plugin takes part in an analysis exactly when a commit
      hash is set and holds a character above U+0020. */
  function IsEnabled(settings: Properties): (b: bool)
    ensures b <==> GitLabCommitHash in settings
                   && exists i :: 0 <= i < |settings[GitLabCommitHash]| && !IsTrimmed(settings[GitLabCommitHash][i])
  {
    IsBlankMeaning(GetString(settings, GitLabCommitHash));
    !IsBlank(GetString(settings, GitLabCommitHash))
  }
}
