/** The file names both scripts build from a formatted time stamp. */
module Paths {

  /**
   * `"{}/{}{}".format(basepath, stamp, ext)`, where `stamp` is the strftime
   * text of the tick's time: a file directly under `base` whose name is the
   * stamp followed by the extension.
   */
  function GetPath(base: string, stamp: string, ext: string): (p: string)
    ensures |p| == |base| + 1 + |stamp| + |ext|
    ensures p[..|base| + 1] == base + "/" && p[|base| + 1..] == stamp + ext
  {
    var dir := base + "/";
    var p := dir + stamp + ext;
    assert p[..|dir|] == dir;
    p
  }

  /** Distinct stamps give distinct paths under the same directory and extension. */
  lemma GetPathInjective(base: string, ext: string, s1: string, s2: string)
    requires GetPath(base, s1, ext) == GetPath(base, s2, ext)
    ensures s1 == s2
  {
    var p := GetPath(base, s1, ext);
    var b := |base| + 1;
    assert |s1| == |s2|;
    assert p[b..b + |s1|] == s1;
    assert GetPath(base, s2, ext)[b..b + |s2|] == s2;
  }
}
