/** The POSIX path helpers of `os.path` and `pathlib` that the surface code uses. */
module Paths {
  import opened Strings

  /** `os.path.basename`. */
  function Basename(p: string): string {
    if p == [] then []
    else if p[|p| - 1] == '/' then []
    else Basename(p[..|p| - 1]) + [p[|p| - 1]]
  }

  /** The basename is the part of the path after its last `/` (all of it if there is none). */
  lemma {:induction false} BasenameIsLastComponent(p: string)
    ensures var r := Basename(p);
      && |r| <= |p| && r == p[|p| - |r|..]
      && '/' !in r
      && (|r| < |p| ==> p[|p| - |r| - 1] == '/')
  {
    if p != [] && p[|p| - 1] != '/' {
      BasenameIsLastComponent(p[..|p| - 1]);
    }
  }

  /** Appending a slash-free tail to a path extends its basename by that tail. */
  lemma {:induction false} BasenameAppend(p: string, tail: string)
    requires '/' !in tail
    ensures Basename(p + tail) == Basename(p) + tail
  {
    if tail != [] {
      var t' := tail[..|tail| - 1];
      assert (p + tail)[..|p + tail| - 1] == p + t';
      BasenameAppend(p, t');
      assert t' + [tail[|tail| - 1]] == tail;
    } else {
      assert p + tail == p;
    }
  }

  /** `os.path.join(dir, name)`. */
  function Join(dir: string, name: string): string {
    if name != [] && name[0] == '/' then name
    else if dir == [] || dir[|dir| - 1] == '/' then dir + name
    else dir + "/" + name
  }

  /** Joining a directory and a slash-free name gives a path whose basename is that name. */
  lemma JoinBasename(dir: string, name: string)
    requires '/' !in name
    ensures Basename(Join(dir, name)) == name
  {
    if dir == [] || dir[|dir| - 1] == '/' {
      assert Join(dir, name) == dir + name;
      BasenameAppend(dir, name);
    } else {
      assert Join(dir, name) == dir + "/" + name;
      BasenameAppend(dir + "/", name);
    }
  }

  /** Python's `s.rfind(c)`: the last index of `c`, or -1. */
  function RFind(s: string, c: char): (i: int)
    ensures -1 <= i < |s|
    ensures i >= 0 ==> s[i] == c
    ensures forall j :: i < j < |s| ==> s[j] != c
  {
    if s == [] then -1
    else if s[|s| - 1] == c then |s| - 1
    else RFind(s[..|s| - 1], c)
  }

  /** `pathlib.PurePath(p).suffix`: the final component's last `.`-extension, if the
      dot is neither the component's first nor its last character. */
  function Suffix(p: string): (r: string)
    ensures r == [] || (|r| >= 2 && r[0] == '.' && '.' !in r[1..] && '/' !in r)
    ensures |r| <= |p| && r == p[|p| - |r|..]
    ensures r != [] ==> |r| < |Basename(p)|
  {
    var name := Basename(p);
    var i := RFind(name, '.');
    BasenameIsLastComponent(p);
    if 0 < i < |name| - 1 then
      assert name[i..][1..] == name[i + 1..];
      assert name[i..] == p[|p| - |name[i..]|..];
      name[i..]
    else []
  }

  /** A path whose final component is a non-empty stem followed by an extension
      has that extension as its suffix. */
  lemma SuffixOfStemAndExtension(stem: string, ext: string)
    requires Basename(stem) != []
    requires |ext| >= 2 && ext[0] == '.' && '.' !in ext[1..] && '/' !in ext
    ensures Suffix(stem + ext) == ext
  {
    BasenameAppend(stem, ext);
    var name := Basename(stem) + ext;
    LastDotAt(Basename(stem), ext);
    assert name[|Basename(stem)|..] == ext;
  }

  lemma LastDotAt(base: string, ext: string)
    requires |ext| >= 1 && ext[0] == '.' && '.' !in ext[1..]
    ensures RFind(base + ext, '.') == |base|
  {
    var name := base + ext;
    var k := |base|;
    forall j | k < j < |name| ensures name[j] != '.' {
      assert name[j] == ext[1..][j - k - 1];
    }
    assert name[k] == '.';
  }
}
