/** Directories and the search for the git working tree that contains the
    analysed project. */
module Files {
  import opened Wrappers

  /** An absolute directory, as its names from the file-system root; the root
      itself is the empty sequence. */
  type Dir = seq<string>

  /** File.getParentFile: the directory one level up; the root has none. */
  function Parent(d: Dir): (p: Option<Dir>)
    ensures p.None? <==> d == []
    ensures p.Some? ==> |p.value| == |d| - 1 && p.value == d[..|d| - 1]
  {
    if d == [] then None else Some(d[..|d| - 1])
  }

  /** findGitBaseDir: the nearest of `dir` and its ancestors in which
      `hasGit` holds (the directory has a ".git" entry), and null when
      `dir` is null or there is none up to the root. */
  function FindGitBaseDir(dir: Option<Dir>, hasGit: Dir -> bool): (r: Option<Dir>)
    ensures r.None? <==> dir.None? || forall k :: 0 <= k <= |dir.value| ==> !hasGit(dir.value[..k])
    ensures r.Some? ==> dir.Some? && r.value <= dir.value && hasGit(r.value)
    ensures r.Some? ==> forall k :: |r.value| < k <= |dir.value| ==> !hasGit(dir.value[..k])
    decreases if dir.None? then 0 else |dir.value| + 1
  {
    if dir.None? then None
    else if hasGit(dir.value) then
      assert dir.value[..|dir.value|] == dir.value;
      dir
    else
      var d := dir.value;
      var r := FindGitBaseDir(Parent(d), hasGit);
      assert d[..|d|] == d;
      if d == [] then
        assert d[..0] == d;
        r
      else
        var p := d[..|d| - 1];
        assert Parent(d) == Some(p);
        assert forall k :: 0 <= k < |d| ==> d[..k] == p[..k];
        assert (forall k :: 0 <= k <= |p| ==> !hasGit(p[..k])) <==>
               (forall k :: 0 <= k <= |d| ==> !hasGit(d[..k]));
        r
  }

  lemma {:induction false} FindGitBaseDirExample(hasGit: Dir -> bool)
    requires hasGit(["repo"]) && !hasGit(["repo", "module"]) && !hasGit(["repo", "module", "src"])
    ensures FindGitBaseDir(Some(["repo", "module", "src"]), hasGit) == Some(["repo"])
  {
    var d: Dir := ["repo", "module", "src"];
    assert d[..2] == ["repo", "module"];
    assert ["repo", "module"][..1] == ["repo"];
    assert Parent(d) == Some(["repo", "module"]);
    assert Parent(["repo", "module"]) == Some(["repo"]);
  }
}
