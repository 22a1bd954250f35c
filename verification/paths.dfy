/** `pathlib.Path(p).name`, `.stem` and `.suffix` on `/`-separated paths,
    and the per-file branch name built from the stem. */
module Paths {
  import opened Wrappers
  import opened Strings

  /** The position of the last `c` in `s`: `s.rfind(c)`. */
  function RFind(s: string, c: char): (r: Option<nat>)
    ensures r.Some? ==> r.value < |s| && s[r.value] == c && c !in s[r.value + 1..]
    ensures r.None? ==> c !in s
  {
    if s == [] then None
    else if s[|s| - 1] == c then Some(|s| - 1)
    else
      var r := RFind(s[..|s| - 1], c);
      assert s == s[..|s| - 1] + [s[|s| - 1]];
      r
  }

  /** The path without its trailing slashes. */
  function StripSlashes(p: string): (r: string)
    ensures IsPrefix(r, p) && (r == [] || r[|r| - 1] != '/')
  {
    if p != [] && p[|p| - 1] == '/' then StripSlashes(p[..|p| - 1]) else p
  }

  /** `Path(p).name`: the last component. */
  function Name(p: string): (r: string)
    ensures '/' !in r
  {
    var q := StripSlashes(p);
    match RFind(q, '/')
    case None => q
    case Some(i) => q[i + 1..]
  }

  /** Where the suffix starts, if the name has one: the last dot, neither
      first nor last. */
  function SuffixStart(name: string): (r: Option<nat>)
    ensures r.Some? ==> 0 < r.value < |name| - 1 && name[r.value] == '.'
  {
    match RFind(name, '.')
    case Some(i) => if 0 < i < |name| - 1 then Some(i) else None
    case None => None
  }

  /** The stem of a last component: up to the suffix, if there is one. */
  function NameStem(name: string): string {
    match SuffixStart(name)
    case Some(i) => name[..i]
    case None => name
  }

  /** The suffix of a last component: from its last dot, if it has one. */
  function NameSuffix(name: string): string {
    match SuffixStart(name)
    case Some(i) => name[i..]
    case None => ""
  }

  /** `Path(p).stem` */
  function Stem(p: string): string {
    NameStem(Name(p))
  }

  /** `Path(p).suffix` */
  function Suffix(p: string): string {
    NameSuffix(Name(p))
  }

  /** A character absent from a string is absent from its slices. */
  lemma AbsentFromSlice(s: string, c: char, i: nat, j: nat)
    requires i <= j <= |s| && c !in s
    ensures c !in s[i..j]
  {
  }

  /** Stem and suffix split the last component; the suffix is empty or a
      dot followed by at least one character and no further dot. */
  lemma StemAndSuffix(p: string)
    ensures Stem(p) + Suffix(p) == Name(p)
    ensures Suffix(p) == "" || (|Suffix(p)| >= 2 && Suffix(p)[0] == '.' && '.' !in Suffix(p)[1..])
  {
    var name := Name(p);
    var start := SuffixStart(name);
    if start.Some? {
      var i := start.value;
      assert NameStem(name) == name[..i] && NameSuffix(name) == name[i..];
      assert RFind(name, '.') == Some(i);
      assert Suffix(p)[1..] == name[i + 1..];
      assert name[..i] + name[i..] == name;
    }
  }

  /** The stem is a slash-free piece of the name, empty only when the name
      is. */
  lemma StemShape(p: string)
    ensures '/' !in Stem(p)
    ensures Stem(p) == "" ==> Name(p) == ""
  {
    var name := Name(p);
    var start := SuffixStart(name);
    if start.Some? {
      AbsentFromSlice(name, '/', 0, start.value);
      assert NameStem(name) == name[0..start.value];
    }
  }

  /** `f"{self.branch_name}-{Path(file_path).stem}"` */
  function FileBranch(branch: string, path: string): string {
    branch + "-" + Stem(path)
  }

  /** A file branch is the run's branch, a dash, and one path component:
      the file's directories never reach the branch name. */
  lemma FileBranchShape(branch: string, path: string)
    ensures IsPrefix(branch + "-", FileBranch(branch, path))
    ensures '/' !in FileBranch(branch, path)[|branch| + 1..]
  {
    StemShape(path);
    assert FileBranch(branch, path)[|branch| + 1..] == Stem(path);
  }

  /** `rfind` finds the occurrence with none after it. */
  lemma RFindAt(s: string, c: char, i: nat)
    requires i < |s| && s[i] == c && c !in s[i + 1..]
    ensures RFind(s, c) == Some(i)
  {
    assert s[i] == c;
  }

  /** The last component after the last slash of a path not ending in one. */
  lemma NameAfterSlash(p: string, slash: nat)
    requires slash < |p| - 1 && p[slash] == '/' && p[|p| - 1] != '/' && '/' !in p[slash + 1..]
    ensures Name(p) == p[slash + 1..]
  {
    assert StripSlashes(p) == p;
    RFindAt(p, '/', slash);
  }

  /** Below a directory, the name is what follows the slash. */
  lemma NameAfterDirectory(dir: string, name: string)
    requires name != [] && '/' !in name
    ensures Name(dir + "/" + name) == name
  {
    var p := dir + "/" + name;
    assert p[|p| - 1] == name[|name| - 1];
    assert p[|dir| + 1..] == name;
    NameAfterSlash(p, |dir|);
  }

  /** `stem.ext` splits at its dot. */
  lemma NameStemOfDotted(stem: string, ext: string)
    requires stem != [] && ext != [] && '.' !in ext
    ensures NameStem(stem + "." + ext) == stem
  {
    var name := stem + "." + ext;
    assert name[|stem|] == '.' && name[|stem| + 1..] == ext;
    RFindAt(name, '.', |stem|);
    assert name[..|stem|] == stem;
  }

  lemma RegroupPath(dir: string, stem: string, ext: string)
    ensures dir + "/" + stem + "." + ext == dir + "/" + (stem + "." + ext)
  {
  }

  /** Whatever the directory, `dir/stem.ext` has stem `stem`. */
  lemma StemOfJoined(dir: string, stem: string, ext: string)
    requires stem != [] && '/' !in stem
    requires ext != [] && '/' !in ext && '.' !in ext
    ensures Stem(dir + "/" + stem + "." + ext) == stem
  {
    RegroupPath(dir, stem, ext);
    NameAfterDirectory(dir, stem + "." + ext);
    NameStemOfDotted(stem, ext);
  }

  /** Two files that differ only in directory and extension get the same
      branch. */
  lemma SameStemSameBranch(branch: string, dir1: string, dir2: string, stem: string, ext1: string, ext2: string)
    requires stem != [] && '/' !in stem
    requires ext1 != [] && '/' !in ext1 && '.' !in ext1
    requires ext2 != [] && '/' !in ext2 && '.' !in ext2
    ensures FileBranch(branch, dir1 + "/" + stem + "." + ext1) == FileBranch(branch, dir2 + "/" + stem + "." + ext2)
  {
    StemOfJoined(dir1, stem, ext1);
    StemOfJoined(dir2, stem, ext2);
  }
}
