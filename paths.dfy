/** Paths as strings: `filepath.Join`, `filepath.Dir` and `filepath.Base`, approximated. */
module Paths {

  type Path = string

  /** `filepath.Join(folder, name)`, taken as plain concatenation around one separator. */
  function Join(folder: string, name: string): Path {
    folder + "/" + name
  }

  /** Everything before the last '/', or "." when there is no separator. */
  function Dir(p: Path): Path
    decreases |p|
  {
    if |p| == 0 then "."
    else if p[|p| - 1] == '/' then p[..|p| - 1]
    else Dir(p[..|p| - 1])
  }

  /** Everything after the last '/'. */
  function Base(p: Path): string
    decreases |p|
  {
    if |p| == 0 || p[|p| - 1] == '/' then ""
    else Base(p[..|p| - 1]) + [p[|p| - 1]]
  }

  /** Dir and Base take a joined path apart again when the name holds no separator. */
  lemma {:induction false} SplitJoin(folder: string, name: string)
    requires '/' !in name
    ensures Dir(Join(folder, name)) == folder
    ensures Base(Join(folder, name)) == name
  {
    var p := Join(folder, name);
    if name == [] {
      assert p[..|p| - 1] == folder;
    } else {
      var init := name[..|name| - 1];
      assert p[..|p| - 1] == Join(folder, init);
      assert name == init + [name[|name| - 1]];
      SplitJoin(folder, init);
    }
  }

  /** Two names joined onto the same folder give the same path only if they are equal. */
  lemma JoinInjective(folder: string, a: string, b: string)
    requires Join(folder, a) == Join(folder, b)
    ensures a == b
  {
    var n := |folder| + 1;
    assert a == Join(folder, a)[n..];
    assert b == Join(folder, b)[n..];
  }
}
