/** The storage backend: a filesystem of regular files and directories, and
    the primitive operations of `std::fs` the commands use. Each primitive's
    success condition is a predicate over the filesystem, so that the commands'
    specifications can use it too. */
module Storage {
  import opened Paths

  datatype Node = File(content: string) | Dir

  /** Every path that exists, apart from the root, which always exists as a directory. */
  type Nodes = map<Path, Node>

  /** `Path::exists`. */
  predicate Exists(nodes: Nodes, p: Path)
  {
    p == [] || p in nodes
  }

  /** `Path::is_dir`. */
  predicate IsDir(nodes: Nodes, p: Path)
  {
    p == [] || (p in nodes && nodes[p].Dir?)
  }

  /** `Path::is_file`; the root is a directory, never a file. */
  predicate IsFile(nodes: Nodes, p: Path)
  {
    p != [] && p in nodes && nodes[p].File?
  }

  /** `dir.join(name).exists()`: "." and ".." exist exactly when `dir` is a
      directory, any other name exactly when that entry exists. */
  predicate JoinedExists(nodes: Nodes, dir: Path, name: string)
  {
    if IsDotName(name) then IsDir(nodes, dir) else Exists(nodes, Join(dir, name))
  }

  /** `fs::write` (create or truncate) succeeds on an existing regular file
      and on an absent path whose parent is a directory. */
  predicate CanWrite(nodes: Nodes, p: Path)
  {
    IsFile(nodes, p) || (p != [] && p !in nodes && IsDir(nodes, Parent(p)))
  }

  /** `fs::create_dir_all(p)` fails when `p` or one of its ancestors is a regular file. */
  predicate CanCreateDirs(nodes: Nodes, p: Path)
  {
    forall q | q in Prefixes(p) :: !IsFile(nodes, q)
  }

  /** The filesystem after `fs::create_dir_all(p)`: every missing prefix of `p`
      becomes a directory and nothing that existed changes. */
  function WithDirs(nodes: Nodes, p: Path): (r: Nodes)
    ensures r.Keys == nodes.Keys + Prefixes(p)
    ensures forall q | q in nodes :: r[q] == nodes[q]
    ensures CanCreateDirs(nodes, p) ==> forall q | q in Prefixes(p) :: IsDir(r, q)
  {
    nodes + map q | q in Prefixes(p) && q !in nodes :: Dir
  }

  /** A filesystem as a host keeps it: whatever exists, apart from the root,
      sits inside a directory. */
  predicate WellFormed(nodes: Nodes)
  {
    forall p | p in nodes :: p != [] && IsDir(nodes, Parent(p))
  }

  /** In a well-formed filesystem every ancestor of a directory is a directory. */
  lemma {:induction false} AncestorsAreDirs(nodes: Nodes, p: Path)
    requires WellFormed(nodes)
    requires IsDir(nodes, p)
    ensures forall q | q in Prefixes(p) :: IsDir(nodes, q)
    decreases |p|
  {
    if p != [] {
      var parent := Parent(p);
      AncestorsAreDirs(nodes, parent);
      forall q | q in Prefixes(p) ensures IsDir(nodes, q) {
        var k :| 1 <= k <= |p| && q == p[..k];
        if k < |p| {
          assert q == parent[..k];
          assert q in Prefixes(parent);
        } else {
          assert q == p;
        }
      }
    }
  }

  /** `create_dir_all` keeps a filesystem well-formed. */
  lemma WithDirsWellFormed(nodes: Nodes, p: Path)
    requires WellFormed(nodes)
    requires CanCreateDirs(nodes, p)
    ensures WellFormed(WithDirs(nodes, p))
  {
    var r := WithDirs(nodes, p);
    forall q | q in r ensures q != [] && IsDir(r, Parent(q)) {
      if q !in nodes {
        var k :| 1 <= k <= |p| && q == p[..k];
        if k > 1 {
          assert Parent(q) == p[..k - 1];
          assert Parent(q) in Prefixes(p);
        }
      }
    }
  }

  /** What `fs::copy(from, to)` leaves in `to`: the source's content, or
      nothing when `to` is the source itself, truncated before it is read. */
  function CopiedContent(nodes: Nodes, from: Path, to: Path): string
    requires IsFile(nodes, from)
  {
    if from == to then "" else nodes[from].content
  }

  /** Writing a file where `fs::write` can keeps a filesystem well-formed. */
  lemma WriteWellFormed(nodes: Nodes, p: Path, content: string)
    requires WellFormed(nodes)
    requires CanWrite(nodes, p)
    ensures WellFormed(nodes[p := File(content)])
  {
  }

  /** Removing a regular file keeps a filesystem well-formed. */
  lemma RemoveWellFormed(nodes: Nodes, p: Path)
    requires WellFormed(nodes)
    requires IsFile(nodes, p)
    ensures WellFormed(nodes - {p})
  {
  }

  class FileSystem {
    var nodes: Nodes

    constructor (initial: Nodes)
      ensures nodes == initial
    {
      nodes := initial;
    }

    /** `fs::write(p, content)`. */
    method Write(p: Path, content: string) returns (ok: bool)
      modifies this
      ensures ok == CanWrite(old(nodes), p)
      ensures nodes == if ok then old(nodes)[p := File(content)] else old(nodes)
    {
      ok := CanWrite(nodes, p);
      if ok {
        nodes := nodes[p := File(content)];
      }
    }

    /** `OpenOptions::new().append(true).open(p)` followed by `write_all(content)`:
        opening without `create` needs an existing regular file. */
    method AppendTo(p: Path, content: string) returns (ok: bool)
      modifies this
      ensures ok == IsFile(old(nodes), p)
      ensures nodes == if ok then old(nodes)[p := File(old(nodes)[p].content + content)] else old(nodes)
    {
      ok := IsFile(nodes, p);
      if ok {
        nodes := nodes[p := File(nodes[p].content + content)];
      }
    }

    /** `fs::remove_file(p)`: fails on a directory or an absent path, and when
        the host refuses (`permitted` false). */
    method RemoveFile(p: Path, permitted: bool) returns (ok: bool)
      modifies this
      ensures ok == (permitted && IsFile(old(nodes), p))
      ensures nodes == if ok then old(nodes) - {p} else old(nodes)
    {
      ok := permitted && IsFile(nodes, p);
      if ok {
        nodes := nodes - {p};
      }
    }

    /** `fs::create_dir_all(p)`. */
    method CreateDirAll(p: Path) returns (ok: bool)
      modifies this
      ensures ok == CanCreateDirs(old(nodes), p)
      ensures nodes == if ok then WithDirs(old(nodes), p) else old(nodes)
    {
      ok := CanCreateDirs(nodes, p);
      if ok {
        nodes := WithDirs(nodes, p);
      }
    }

    /** `fs::copy(from, to)`: copies a regular file's content over `to` as
        `fs::write` would; `permitted` false stands for every other failure
        of the host (unreadable source, full disk, ...). On Unix the
        destination is opened with truncation after the source is opened, so
        a file copied onto itself ends up empty. */
    method Copy(from: Path, to: Path, permitted: bool) returns (ok: bool)
      modifies this
      ensures ok == (permitted && IsFile(old(nodes), from) && CanWrite(old(nodes), to))
      ensures nodes == if ok then old(nodes)[to := File(CopiedContent(old(nodes), from, to))] else old(nodes)
    {
      ok := permitted && IsFile(nodes, from) && CanWrite(nodes, to);
      if ok {
        nodes := nodes[to := File(CopiedContent(nodes, from, to))];
      }
    }
  }
}
