/** The part of `std::path` the catalogue relies on. A path is the sequence of
    its components below the filesystem root; `[]` is the root itself.
    Component names are plain names (never "." or ".."), as directory entries
    are; a name typed by the user may be one of them (`IsDotName`). */
module Paths {
  import opened Basics

  type Path = seq<string>

  /** `dir.join(name)` for a single-component `name`. */
  function Join(dir: Path, name: string): Path
  {
    dir + [name]
  }

  /** The two names the filesystem resolves to a directory itself and to its
      parent rather than to an entry of that directory. */
  predicate IsDotName(name: string)
  {
    name == "." || name == ".."
  }

  /** `p.parent()`: the root has none, so callers pass a non-root path. */
  function Parent(p: Path): Path
    requires p != []
  {
    p[..|p| - 1]
  }

  /** `p.file_name()` of a non-root path. */
  function FileName(p: Path): string
    requires p != []
  {
    p[|p| - 1]
  }

  /** Every non-empty prefix of `p`, `p` included: what `create_dir_all(p)` must see as directories. */
  function Prefixes(p: Path): set<Path>
  {
    set k | 1 <= k <= |p| :: p[..k]
  }

  /** The index of the last '.' in `s`, if any. */
  function LastDot(s: string): (r: Option<nat>)
    ensures r.Some? ==> r.value < |s| && s[r.value] == '.'
    ensures r.Some? ==> forall j | r.value < j < |s| :: s[j] != '.'
    ensures r.None? ==> forall j | 0 <= j < |s| :: s[j] != '.'
  {
    if s == [] then None
    else if s[|s| - 1] == '.' then Some(|s| - 1)
    else LastDot(s[..|s| - 1])
  }

  /** Rust's `rsplit_file_at_dot`: a file name splits at its last '.' into stem
      and extension, except that a name whose last '.' is its first character
      (".bashrc") is all stem and has no extension. */
  function SplitAtDot(name: string): (string, Option<string>)
  {
    match LastDot(name)
    case None => (name, None)
    case Some(i) => if i == 0 then (name, None) else (name[..i], Some(name[i + 1..]))
  }

  /** `Path::file_stem` of a file name: a prefix of the name, empty only
      for the empty name, and the whole name when no '.' follows its first
      character. Rust gives ".." no stem and no extension; no name split here
      is "..": directory entries never are, nor is the last component of a
      regular file's path. */
  function FileStem(name: string): (r: string)
    ensures |r| <= |name| && r == name[..|r|]
    ensures r == [] <==> name == []
    ensures (forall j | 1 <= j < |name| :: name[j] != '.') ==> r == name
  {
    SplitAtDot(name).0
  }

  /** `Path::extension` of a file name: what follows the last '.', which is
      a dot-free suffix of the name, preceded by a '.' that is not the
      name's first character; none when no '.' follows the first character. */
  function Extension(name: string): (r: Option<string>)
    ensures r.Some? ==> '.' !in r.value && |r.value| + 2 <= |name|
    ensures r.Some? ==> name[|name| - |r.value|..] == r.value && name[|name| - |r.value| - 1] == '.'
    ensures r.None? <==> forall j | 1 <= j < |name| :: name[j] != '.'
  {
    SplitAtDot(name).1
  }

  /** Stem and extension put back together give the file name, and a name has
      no extension exactly when no '.' follows its first character. */
  lemma StemAndExtension(name: string)
    ensures Extension(name).Some? ==>
              FileStem(name) != [] && '.' !in Extension(name).value &&
              FileStem(name) + "." + Extension(name).value == name
    ensures Extension(name).None? ==> FileStem(name) == name
    ensures Extension(name).None? <==> forall j | 1 <= j < |name| :: name[j] != '.'
  {
    match LastDot(name)
    case None =>
    case Some(i) =>
      if i != 0 {
        var stem, ext := name[..i], name[i + 1..];
        assert forall j | 0 <= j < |ext| :: ext[j] == name[i + 1 + j];
        assert stem + "." + ext == name;
      }
  }

  /** A stem with no '.' after its first character, followed by an extension
      without '.', splits back into exactly that stem and extension. */
  lemma SplitJoined(stem: string, ext: string)
    requires stem != []
    requires '.' !in ext
    ensures FileStem(stem + "." + ext) == stem
    ensures Extension(stem + "." + ext) == Some(ext)
  {
    var name := stem + "." + ext;
    assert name[|stem|] == '.';
    assert forall j | |stem| < j < |name| :: name[j] == ext[j - |stem| - 1];
    var i := LastDot(name).value;
    assert i == |stem|;
    assert name[..i] == stem;
    assert name[i + 1..] == ext;
  }

  /** The names the catalogue's own list test creates, and the leading-dot rule. */
  lemma StemExamples()
    ensures FileStem("alpha.txt") == "alpha" && Extension("alpha.txt") == Some("txt")
    ensures FileStem("gamma_tpl") == "gamma_tpl" && Extension("gamma_tpl") == None
    ensures FileStem(".bashrc") == ".bashrc" && Extension(".bashrc") == None
    ensures FileStem("a.tar.gz") == "a.tar" && Extension("a.tar.gz") == Some("gz")
    ensures FileStem("notes.") == "notes" && Extension("notes.") == Some("")
  {
    SplitJoined("alpha", "txt");
    assert "alpha" + "." + "txt" == "alpha.txt";
    SplitJoined("a.tar", "gz");
    assert "a.tar" + "." + "gz" == "a.tar.gz";
    SplitJoined("notes", "");
    assert "notes" + "." + "" == "notes.";
  }
}
