/** `tempo add <name> <source>` (src/commands/add.rs): validates the source
    and the name, derives the storage filename from the name and the source's
    extension, refuses to replace an existing storage file without `force`,
    and copies the source into the templates directory, removing whatever is
    left at the destination when the copy fails. As written, the command never
    loads or saves the manifest. */
module Add {
  import opened Basics
  import opened Paths
  import opened Storage
  import opened Text
  import opened Lookup
  import Errors

  /** The command's own error type (src/commands/add.rs:11-29). */
  datatype CommandError =
    | ConfigError(cause: Errors.ConfigError)
    | IoError
    | SourceFileDoesNotExist(source: Path)
    | SourceFileIsNotAFile(source: Path)
    | TemplateNameInvalid(reason: string)
    | TemplateAlreadyExists(name: string)

  const SEPARATOR_REASON := "Name cannot contain path separators"
  const EMPTY_REASON := "Name cannot be empty"

  /** The source's extension as the command reads it: no extension reads as "". */
  function SourceExtension(source: Path): string
    requires source != []
  {
    match Extension(FileName(source))
    case Some(e) => e
    case None => ""
  }

  /** The storage filename: the name, followed by "." and the extension when
      the extension is not empty. */
  function StorageFilename(name: string, extension: string): string
  {
    if extension == "" then name else name + "." + extension
  }

  /** The validation that comes before the storage directory is consulted,
      in the command's order; `None` when the source and the name pass. */
  function Validate(nodes: Nodes, name: string, source: Path): Option<CommandError>
  {
    if !Exists(nodes, source) then Some(SourceFileDoesNotExist(source))
    else if !IsFile(nodes, source) then Some(SourceFileIsNotAFile(source))
    else if HasPathSeparator(name) then Some(TemplateNameInvalid(SEPARATOR_REASON))
    else if Trim(name) == "" then Some(TemplateNameInvalid(EMPTY_REASON))
    else None
  }

  /** The command's result and the filesystem it leaves. */
  datatype AddOutcome = AddOutcome(result: Outcome<CommandError>, nodes: Nodes)

  /** The storage path of a validated add. */
  function Destination(templatesDir: Path, name: string, source: Path): Path
    requires source != []
  {
    Join(templatesDir, StorageFilename(name, SourceExtension(source)))
  }

  /** What the command does; `copyPermitted` is whether the host lets
      `fs::copy` read the source and write the destination. A storage
      filename "." or ".." joins to the templates directory itself or to its
      parent: it exists when the templates directory does, and neither
      `fs::copy` nor the clean-up `remove_file` can act on it. The clean-up
      removal after a failed copy is taken to succeed on a regular file. */
  function AddSpec(nodes: Nodes, templatesDir: Path, name: string, source: Path,
                   force: bool, copyPermitted: bool): AddOutcome
  {
    match Validate(nodes, name, source)
    case Some(e) => AddOutcome(Fail(e), nodes)
    case None =>
      var stored := StorageFilename(name, SourceExtension(source));
      var dest := Destination(templatesDir, name, source);
      if JoinedExists(nodes, templatesDir, stored) && !force then
        AddOutcome(Fail(TemplateAlreadyExists(name)), nodes)
      else if copyPermitted && !IsDotName(stored) && CanWrite(nodes, dest) then
        AddOutcome(Pass, nodes[dest := File(CopiedContent(nodes, source, dest))])
      else
        AddOutcome(Fail(IoError), if !IsDotName(stored) && IsFile(nodes, dest) then nodes - {dest} else nodes)
  }

  /** The checks come in the command's order, each failure leaves the
      filesystem as it was, and a name of whitespace only counts as empty. */
  lemma ValidationOrder(nodes: Nodes, templatesDir: Path, name: string, source: Path,
                        force: bool, copyPermitted: bool)
    ensures !Exists(nodes, source) ==>
              AddSpec(nodes, templatesDir, name, source, force, copyPermitted) ==
              AddOutcome(Fail(SourceFileDoesNotExist(source)), nodes)
    ensures Exists(nodes, source) && !IsFile(nodes, source) ==>
              AddSpec(nodes, templatesDir, name, source, force, copyPermitted) ==
              AddOutcome(Fail(SourceFileIsNotAFile(source)), nodes)
    ensures IsFile(nodes, source) && HasPathSeparator(name) ==>
              AddSpec(nodes, templatesDir, name, source, force, copyPermitted) ==
              AddOutcome(Fail(TemplateNameInvalid(SEPARATOR_REASON)), nodes)
    ensures IsFile(nodes, source) && !HasPathSeparator(name) && IsBlank(name) ==>
              AddSpec(nodes, templatesDir, name, source, force, copyPermitted) ==
              AddOutcome(Fail(TemplateNameInvalid(EMPTY_REASON)), nodes)
    ensures Validate(nodes, name, source) == None <==>
              IsFile(nodes, source) && !HasPathSeparator(name) && !IsBlank(name)
  {
    TrimProperties(name);
  }

  /** A storage filename taken apart again: with a non-empty extension, its
      stem is the name and its extension is the source's own, unchanged; with
      none, it is the name itself. */
  lemma StorageFilenameSplits(name: string, source: Path)
    requires source != [] && name != []
    ensures SourceExtension(source) != "" ==>
              FileStem(StorageFilename(name, SourceExtension(source))) == name &&
              Extension(StorageFilename(name, SourceExtension(source))) == Some(SourceExtension(source)) &&
              Extension(FileName(source)) == Some(SourceExtension(source))
    ensures SourceExtension(source) == "" ==> StorageFilename(name, SourceExtension(source)) == name
  {
    var ext := SourceExtension(source);
    if ext != "" {
      StemAndExtension(FileName(source));
      SplitJoined(name, ext);
    }
  }

  /** An existing storage file is not replaced without `force`. */
  lemma ExistingStorageNeedsForce(nodes: Nodes, templatesDir: Path, name: string, source: Path, copyPermitted: bool)
    requires Validate(nodes, name, source) == None
    requires JoinedExists(nodes, templatesDir, StorageFilename(name, SourceExtension(source)))
    ensures AddSpec(nodes, templatesDir, name, source, false, copyPermitted) ==
            AddOutcome(Fail(TemplateAlreadyExists(name)), nodes)
  {
  }

  /** A successful add stores under a new plain component of the templates
      directory, never "." or "..", and puts exactly the source's bytes
      there, except that a source which is the storage file itself is left
      empty by the copy; nothing else changes and the filesystem stays well
      formed. */
  lemma SuccessStoresSource(nodes: Nodes, templatesDir: Path, name: string, source: Path,
                            force: bool, copyPermitted: bool)
    requires WellFormed(nodes)
    requires AddSpec(nodes, templatesDir, name, source, force, copyPermitted).result == Pass
    ensures IsFile(nodes, source) && name != []
    ensures !IsDotName(StorageFilename(name, SourceExtension(source)))
    ensures var after := AddSpec(nodes, templatesDir, name, source, force, copyPermitted).nodes;
            var dest := Destination(templatesDir, name, source);
            && IsFile(after, dest)
            && after[dest].content == (if dest == source then "" else nodes[source].content)
            && (forall p | p != dest :: (p in after <==> p in nodes))
            && (forall p | p in nodes && p != dest :: after[p] == nodes[p])
            && WellFormed(after)
  {
    var dest := Destination(templatesDir, name, source);
    WriteWellFormed(nodes, dest, CopiedContent(nodes, source, dest));
  }

  /** A forced add whose source is the stored template itself succeeds and
      leaves that template empty. */
  lemma ForcedSelfAddEmptiesTemplate()
    ensures var nodes := map[["tpl"] := Dir, ["tpl", "x.txt"] := File("abc")];
            var o := AddSpec(nodes, ["tpl"], "x", ["tpl", "x.txt"], true, true);
            o.result == Pass && o.nodes == map[["tpl"] := Dir, ["tpl", "x.txt"] := File("")]
  {
    assert Extension("x.txt") == Some("txt") by {
      SplitJoined("x", "txt");
      assert "x" + "." + "txt" == "x.txt";
    }
    assert SourceExtension(["tpl", "x.txt"]) == "txt";
    assert StorageFilename("x", "txt") == "x.txt";
    assert !IsBlank("x") by { assert !IsWhitespace("x"[0]); }
    ValidationOrder(map[["tpl"] := Dir, ["tpl", "x.txt"] := File("abc")], ["tpl"], "x", ["tpl", "x.txt"], true, true);
    assert Destination(["tpl"], "x", ["tpl", "x.txt"]) == ["tpl", "x.txt"];
  }

  /** The names "." and ".." with a source without extension never store
      anything: `templates/.` and `templates/..` are the templates directory
      and its parent, so the add is refused as an existing template when the
      templates directory exists and `force` is off, and fails with `IoError`
      otherwise, leaving the filesystem as it was. */
  lemma DotNamesNeverStore(nodes: Nodes, templatesDir: Path, name: string, source: Path,
                           force: bool, copyPermitted: bool)
    requires IsFile(nodes, source) && IsDotName(name) && SourceExtension(source) == ""
    ensures var o := AddSpec(nodes, templatesDir, name, source, force, copyPermitted);
            && o.nodes == nodes
            && o.result == Fail(if IsDir(nodes, templatesDir) && !force then TemplateAlreadyExists(name) else IoError)
  {
    assert !HasPathSeparator(name) && !IsBlank(name) by {
      assert !IsWhitespace(name[0]);
    }
    ValidationOrder(nodes, templatesDir, name, source, force, copyPermitted);
  }

  /** In an existing templates directory (`get_templates_dir` creates it
      before the command runs), an add that passes validation and is not
      refused as existing succeeds exactly when the host permits the copy
      and the storage path is a plain name that is not a directory. */
  lemma SuccessCondition(nodes: Nodes, templatesDir: Path, name: string, source: Path,
                         force: bool, copyPermitted: bool)
    requires WellFormed(nodes) && IsDir(nodes, templatesDir)
    requires Validate(nodes, name, source) == None
    requires force || !JoinedExists(nodes, templatesDir, StorageFilename(name, SourceExtension(source)))
    ensures AddSpec(nodes, templatesDir, name, source, force, copyPermitted).result == Pass <==>
              copyPermitted && !IsDotName(StorageFilename(name, SourceExtension(source))) &&
              !IsDir(nodes, Destination(templatesDir, name, source))
  {
    var dest := Destination(templatesDir, name, source);
    assert Parent(dest) == templatesDir;
  }

  /** A failed copy reports `IoError` and leaves no regular file at a plain
      destination, whatever was there before; nothing else changes. With
      `force`, this deletes the template the add was meant to replace. */
  lemma CopyFailureCleansUp(nodes: Nodes, templatesDir: Path, name: string, source: Path,
                            force: bool, copyPermitted: bool)
    requires WellFormed(nodes)
    requires Validate(nodes, name, source) == None
    requires force || !JoinedExists(nodes, templatesDir, StorageFilename(name, SourceExtension(source)))
    requires !copyPermitted || IsDotName(StorageFilename(name, SourceExtension(source))) ||
             !CanWrite(nodes, Destination(templatesDir, name, source))
    ensures var o := AddSpec(nodes, templatesDir, name, source, force, copyPermitted);
            var dest := Destination(templatesDir, name, source);
            && o.result == Fail(IoError)
            && (IsDotName(StorageFilename(name, SourceExtension(source))) ==> o.nodes == nodes)
            && (!IsDotName(StorageFilename(name, SourceExtension(source))) ==>
                  && !IsFile(o.nodes, dest)
                  && o.nodes == nodes - {dest} + (if IsDir(nodes, dest) && dest in nodes then map[dest := Dir] else map[]))
            && WellFormed(o.nodes)
  {
    var dest := Destination(templatesDir, name, source);
    if IsDotName(StorageFilename(name, SourceExtension(source))) {
    } else if IsFile(nodes, dest) {
      RemoveWellFormed(nodes, dest);
    } else if dest in nodes {
      assert nodes - {dest} + map[dest := Dir] == nodes;
    } else {
      assert nodes - {dest} == nodes;
    }
  }

  /** The directory entry of a template just added matches the name in the
      directory scan that `apply` and `show` use exactly when its storage
      filename has the name as its stem: always when the source has an
      extension, and otherwise only when the name has no dot after its first
      character. */
  lemma AddedTemplateMatchesScan(nodes: Nodes, templatesDir: Path, name: string, source: Path,
                                 force: bool, copyPermitted: bool)
    requires WellFormed(nodes)
    requires AddSpec(nodes, templatesDir, name, source, force, copyPermitted).result == Pass
    ensures var after := AddSpec(nodes, templatesDir, name, source, force, copyPermitted).nodes;
            var stored := StorageFilename(name, SourceExtension(source));
            Matches(after, templatesDir, name, Entry(stored)) <==>
              SourceExtension(source) != "" || Extension(name) == None
  {
    SuccessStoresSource(nodes, templatesDir, name, source, force, copyPermitted);
    StorageFilenameSplits(name, source);
    StemAndExtension(name);
    if SourceExtension(source) == "" && Extension(name).Some? {
      var e := Extension(name).value;
      assert |FileStem(name) + "." + e| == |name|;
    }
  }

  /** A template just added whose entry matches is what the scan returns,
      provided no entry before it stops the scan: an earlier unreadable entry
      or an earlier regular file with the same stem wins. */
  lemma AddedTemplateIsFound(nodes: Nodes, templatesDir: Path, name: string, source: Path,
                             force: bool, copyPermitted: bool, entries: seq<DirEntry>, i: int)
    requires WellFormed(nodes)
    requires AddSpec(nodes, templatesDir, name, source, force, copyPermitted).result == Pass
    requires SourceExtension(source) != "" || Extension(name) == None
    requires 0 <= i < |entries| && entries[i] == Entry(StorageFilename(name, SourceExtension(source)))
    requires forall j | 0 <= j < i ::
               !Stops(AddSpec(nodes, templatesDir, name, source, force, copyPermitted).nodes, templatesDir, name, entries[j])
    ensures Find(AddSpec(nodes, templatesDir, name, source, force, copyPermitted).nodes, templatesDir, Listed(entries), name) ==
            Ok(Destination(templatesDir, name, source))
  {
    var after := AddSpec(nodes, templatesDir, name, source, force, copyPermitted).nodes;
    AddedTemplateMatchesScan(nodes, templatesDir, name, source, force, copyPermitted);
    ScanFindsFirstStop(after, templatesDir, entries, name, i);
  }

  /** An extensionless source with a dotted name: the template is stored as
      "v1.2", whose stem is "v1", so the scan lookup of "v1.2" passes it by. */
  lemma DottedNameWithoutExtension()
    ensures var nodes := map[["src"] := Dir, ["src", "Makefile"] := File("all:"), ["tpl"] := Dir];
            var o := AddSpec(nodes, ["tpl"], "v1.2", ["src", "Makefile"], false, true);
            && o.result == Pass
            && IsFile(o.nodes, ["tpl", "v1.2"])
            && Find(o.nodes, ["tpl"], Listed([Entry("v1.2")]), "v1.2") == Err(Errors.TemplateNotFound("v1.2"))
  {
    var nodes := map[["src"] := Dir, ["src", "Makefile"] := File("all:"), ["tpl"] := Dir];
    assert Extension("Makefile") == None by { StemAndExtension("Makefile"); }
    assert SourceExtension(["src", "Makefile"]) == "";
    assert Trim("v1.2") != "" by {
      TrimProperties("v1.2");
      assert !IsWhitespace("v1.2"[0]);
    }
    assert FileStem("v1.2") == "v1" by {
      SplitJoined("v1", "2");
      assert "v1" + "." + "2" == "v1.2";
    }
    assert Validate(nodes, "v1.2", ["src", "Makefile"]) == None;
    assert Destination(["tpl"], "v1.2", ["src", "Makefile"]) == ["tpl", "v1.2"];
  }

  /** `run`: guard checks in order, the storage filename built by appending
      to the name, then the copy and its clean-up. */
  method Run(fs: FileSystem, templatesDir: Path, name: string, source: Path, force: bool, copyPermitted: bool)
      returns (r: Outcome<CommandError>)
    modifies fs
    ensures AddOutcome(r, fs.nodes) == AddSpec(old(fs.nodes), templatesDir, name, source, force, copyPermitted)
  {
    if !Exists(fs.nodes, source) {
      return Fail(SourceFileDoesNotExist(source));
    }
    if !IsFile(fs.nodes, source) {
      return Fail(SourceFileIsNotAFile(source));
    }
    if HasPathSeparator(name) {
      return Fail(TemplateNameInvalid(SEPARATOR_REASON));
    }
    if Trim(name) == "" {
      return Fail(TemplateNameInvalid(EMPTY_REASON));
    }
    var extension := SourceExtension(source);
    var destFilename := name;
    if extension != "" {
      destFilename := destFilename + ['.'];
      destFilename := destFilename + extension;
    }
    var dest := Join(templatesDir, destFilename);
    if JoinedExists(fs.nodes, templatesDir, destFilename) && !force {
      return Fail(TemplateAlreadyExists(name));
    }
    if IsDotName(destFilename) {
      // `fs::copy` cannot open a directory for writing, and the clean-up's
      // `remove_file` fails on it.
      return Fail(IoError);
    }
    var copied := fs.Copy(source, dest, copyPermitted);
    if !copied {
      if Exists(fs.nodes, dest) {
        var _ := fs.RemoveFile(dest, true);
      }
      return Fail(IoError);
    }
    r := Pass;
  }
}
