/** Template lookup by directory scan (src/utils.rs, and its copy in
    src/commands/apply.rs): the first regular file in the templates directory
    whose stem is the template's name. */
module Lookup {
  import opened Basics
  import opened Paths
  import opened Storage
  import opened Errors

  /** One item of `fs::read_dir`'s iterator: an entry, or an error reading it. */
  datatype DirEntry = Entry(name: string) | EntryError

  /** `fs::read_dir(dir)`: a failure, or the items it yields in the host's order. */
  datatype DirRead = ReadFailed | Listed(entries: seq<DirEntry>)

  /** `entries` is what `read_dir(dir)` can yield over `nodes`: every entry
      read names something inside `dir`, and when no entry failed, every
      child of `dir` is among them. */
  predicate Enumerates(nodes: Nodes, dir: Path, entries: seq<DirEntry>)
  {
    && (forall i | 0 <= i < |entries| && entries[i].Entry? :: Join(dir, entries[i].name) in nodes)
    && (AllRead(entries) ==>
          forall p | p in nodes && p != [] && Parent(p) == dir :: Entry(FileName(p)) in entries)
  }

  /** No entry of the listing failed to be read. */
  predicate AllRead(entries: seq<DirEntry>)
  {
    forall i | 0 <= i < |entries| :: entries[i].Entry?
  }

  /** An entry that is the template `name`: a regular file whose stem is `name`. */
  predicate Matches(nodes: Nodes, dir: Path, name: string, e: DirEntry)
  {
    e.Entry? && IsFile(nodes, Join(dir, e.name)) && FileStem(e.name) == name
  }

  /** An entry at which the scan ends: a match, or an entry that could not be read. */
  predicate Stops(nodes: Nodes, dir: Path, name: string, e: DirEntry)
  {
    e.EntryError? || Matches(nodes, dir, name, e)
  }

  /** `i` is the first entry at which the scan ends. */
  predicate FirstStopAt(nodes: Nodes, dir: Path, name: string, entries: seq<DirEntry>, i: int)
  {
    && 0 <= i < |entries|
    && Stops(nodes, dir, name, entries[i])
    && forall j | 0 <= j < i :: !Stops(nodes, dir, name, entries[j])
  }

  /** The scan over the entries, front to back. */
  function Scan(nodes: Nodes, dir: Path, entries: seq<DirEntry>, name: string): Result<Path, AppError>
  {
    if entries == [] then Err(TemplateNotFound(name))
    else if entries[0].EntryError? then Err(ReadDir(dir))
    else if Matches(nodes, dir, name, entries[0]) then Ok(Join(dir, entries[0].name))
    else Scan(nodes, dir, entries[1..], name)
  }

  /** What `find_template_path(dir, name)` returns. */
  function Find(nodes: Nodes, dir: Path, read: DirRead, name: string): Result<Path, AppError>
  {
    match read
    case ReadFailed => Err(ReadDir(dir))
    case Listed(entries) => Scan(nodes, dir, entries, name)
  }

  /** The scan returns the first matching entry provided no unreadable entry
      comes before it; it fails with `ReadDir` at the first unreadable entry
      that comes before any match, and with `TemplateNotFound` exactly when
      no entry matches and every entry was read. */
  lemma {:induction false} ScanCharacterized(nodes: Nodes, dir: Path, entries: seq<DirEntry>, name: string)
    ensures Scan(nodes, dir, entries, name).Ok? ==>
              exists i :: FirstStopAt(nodes, dir, name, entries, i) &&
                          Matches(nodes, dir, name, entries[i]) &&
                          Scan(nodes, dir, entries, name).value == Join(dir, entries[i].name)
    ensures Scan(nodes, dir, entries, name) == Err(ReadDir(dir)) <==>
              exists i :: FirstStopAt(nodes, dir, name, entries, i) && entries[i].EntryError?
    ensures Scan(nodes, dir, entries, name) == Err(TemplateNotFound(name)) <==>
              forall i | 0 <= i < |entries| :: !Stops(nodes, dir, name, entries[i])
    ensures Scan(nodes, dir, entries, name).Err? ==>
              Scan(nodes, dir, entries, name) in {Err(ReadDir(dir)), Err(TemplateNotFound(name))}
  {
    if entries == [] {
    } else if Stops(nodes, dir, name, entries[0]) {
      assert FirstStopAt(nodes, dir, name, entries, 0);
      forall i | FirstStopAt(nodes, dir, name, entries, i) ensures i == 0 { }
    } else {
      var rest := entries[1..];
      ScanCharacterized(nodes, dir, rest, name);
      forall i | FirstStopAt(nodes, dir, name, rest, i)
        ensures FirstStopAt(nodes, dir, name, entries, i + 1)
      {
        assert entries[i + 1] == rest[i];
        forall j | 0 <= j < i + 1 ensures !Stops(nodes, dir, name, entries[j]) {
          if j > 0 { assert entries[j] == rest[j - 1]; }
        }
      }
      forall i | FirstStopAt(nodes, dir, name, entries, i)
        ensures i > 0 && FirstStopAt(nodes, dir, name, rest, i - 1)
      {
        assert i != 0;
        forall j | 0 <= j < i - 1 ensures !Stops(nodes, dir, name, rest[j]) {
          assert rest[j] == entries[j + 1];
        }
      }
      assert (forall i | 0 <= i < |entries| :: !Stops(nodes, dir, name, entries[i])) <==>
             (forall i | 0 <= i < |rest| :: !Stops(nodes, dir, name, rest[i])) by {
        assert forall i | 0 <= i < |rest| :: rest[i] == entries[i + 1];
      }
    }
  }

  /** The scan returns the entry at which it first stops when that entry is a match. */
  lemma {:induction false} ScanFindsFirstStop(nodes: Nodes, dir: Path, entries: seq<DirEntry>, name: string, i: int)
    requires FirstStopAt(nodes, dir, name, entries, i) && Matches(nodes, dir, name, entries[i])
    ensures Scan(nodes, dir, entries, name) == Ok(Join(dir, entries[i].name))
    decreases i
  {
    if i > 0 {
      var rest := entries[1..];
      assert !Stops(nodes, dir, name, entries[0]);
      assert FirstStopAt(nodes, dir, name, rest, i - 1) by {
        assert rest[i - 1] == entries[i];
        forall j | 0 <= j < i - 1 ensures !Stops(nodes, dir, name, rest[j]) {
          assert rest[j] == entries[j + 1];
        }
      }
      ScanFindsFirstStop(nodes, dir, rest, name, i - 1);
    }
  }

  /** Over a listing of the directory, the scan reports `TemplateNotFound`
      exactly when every entry was read and no regular file in the directory
      has the name as its stem. */
  lemma NotFoundMeansNoSuchFile(nodes: Nodes, dir: Path, entries: seq<DirEntry>, name: string)
    requires Enumerates(nodes, dir, entries)
    ensures Scan(nodes, dir, entries, name) == Err(TemplateNotFound(name)) <==>
              AllRead(entries) && forall n | IsFile(nodes, Join(dir, n)) :: FileStem(n) != name
  {
    ScanCharacterized(nodes, dir, entries, name);
    if Scan(nodes, dir, entries, name) == Err(TemplateNotFound(name)) {
      forall n | IsFile(nodes, Join(dir, n)) ensures FileStem(n) != name {
        var p := Join(dir, n);
        assert p != [] && Parent(p) == dir && FileName(p) == n;
        var i :| 0 <= i < |entries| && entries[i] == Entry(n);
        assert !Stops(nodes, dir, name, entries[i]);
      }
    }
  }

  /** Whatever `find_template_path` returns is a regular file directly inside
      `dir` whose stem is exactly `name`; its failures are `ReadDir` carrying
      `dir` and `TemplateNotFound` carrying `name`. */
  lemma FoundIsTemplateFile(nodes: Nodes, dir: Path, read: DirRead, name: string)
    ensures Find(nodes, dir, read, name).Ok? ==>
              var p := Find(nodes, dir, read, name).value;
              p != [] && Parent(p) == dir && IsFile(nodes, p) && FileStem(FileName(p)) == name
    ensures Find(nodes, dir, read, name).Err? ==>
              Find(nodes, dir, read, name) in {Err(ReadDir(dir)), Err(TemplateNotFound(name))}
  {
    if read.Listed? {
      ScanCharacterized(nodes, dir, read.entries, name);
      if Find(nodes, dir, read, name).Ok? {
        var i :| FirstStopAt(nodes, dir, name, read.entries, i) &&
                 Matches(nodes, dir, name, read.entries[i]) &&
                 Scan(nodes, dir, read.entries, name).value == Join(dir, read.entries[i].name);
      }
    }
  }

  /** `find_template_path`: a `for` loop over the directory's entries that
      returns at the first match or the first unreadable entry. */
  method FindTemplatePath(fs: FileSystem, dir: Path, read: DirRead, name: string) returns (r: Result<Path, AppError>)
    ensures r == Find(fs.nodes, dir, read, name)
  {
    if read.ReadFailed? {
      return Err(ReadDir(dir));
    }
    var entries := read.entries;
    for i := 0 to |entries|
      invariant Scan(fs.nodes, dir, entries[i..], name) == Scan(fs.nodes, dir, entries, name)
    {
      assert entries[i..][1..] == entries[i + 1..];
      match entries[i]
      case EntryError =>
        return Err(ReadDir(dir));
      case Entry(fileName) =>
        var path := Join(dir, fileName);
        if IsFile(fs.nodes, path) && FileStem(fileName) == name {
          return Ok(path);
        }
    }
    return Err(TemplateNotFound(name));
  }
}
