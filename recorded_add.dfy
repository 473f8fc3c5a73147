/** `add` as written never records the template in the manifest, so the
    commands that look names up in the manifest (`path`, `edit`, `remove`)
    cannot see a template that `add` just stored. This module shows that
    with a concrete input and defines the add that records what it stores:
    the copy as before, then `add_template(name, TemplateEntry::new(..))` and
    a save. */
module RecordedAdd {
  import opened Basics
  import opened Paths
  import opened Storage
  import opened Catalog
  import opened ConfigStore
  import opened Add
  import opened PathCmd
  import Errors

  /** As written: "x" is added from "a.txt" with an empty manifest; the add
      succeeds, the file is stored as "x.txt", and `path x` still fails with
      `TemplateNotFound`. */
  lemma AddedNameIsNotInManifest()
    ensures var nodes := map[["src"] := Dir, ["src", "a.txt"] := File("hello"), ["tpl"] := Dir];
            var o := AddSpec(nodes, ["tpl"], "x", ["src", "a.txt"], false, true);
            && o.result == Pass
            && IsFile(o.nodes, ["tpl", "x.txt"])
            && PathSpec(map[], o.nodes, ["tpl"], "x") == Err(Errors.TemplateNotFound("x"))
  {
    var nodes := map[["src"] := Dir, ["src", "a.txt"] := File("hello"), ["tpl"] := Dir];
    assert Extension("a.txt") == Some("txt") by {
      SplitJoined("a", "txt");
      assert "a" + "." + "txt" == "a.txt";
    }
    assert SourceExtension(["src", "a.txt"]) == "txt";
    assert StorageFilename("x", "txt") == "x.txt";
    ValidationOrder(nodes, ["tpl"], "x", ["src", "a.txt"], false, true);
    assert !Text.IsBlank("x") by { assert !Text.IsWhitespace("x"[0]); }
    assert Validate(nodes, "x", ["src", "a.txt"]) == None;
    assert Destination(["tpl"], "x", ["src", "a.txt"]) == ["tpl", "x.txt"];
  }

  /** The outcome of the recording add: the command's result, the manifest
      document and filesystem it leaves, and whether it saved the manifest. */
  datatype RecordedOutcome = RecordedOutcome(result: Outcome<CommandError>, document: Templates,
                                             nodes: Nodes, saved: bool)

  /** The entry a successful add records. */
  function AddedEntry(name: string, source: Path, now: Timestamp): TemplateEntry
    requires source != []
  {
    NewEntry(StorageFilename(name, SourceExtension(source)), SourceExtension(source), now)
  }

  /** The add that records its template: the copy exactly as `AddSpec`
      describes it, then on success the entry is added and the manifest saved. */
  function AddRecordedSpec(document: Templates, nodes: Nodes, templatesDir: Path, name: string,
                           source: Path, force: bool, copyPermitted: bool, now: Timestamp): RecordedOutcome
  {
    var o := AddSpec(nodes, templatesDir, name, source, force, copyPermitted);
    if o.result.Pass? && source != [] then
      RecordedOutcome(Pass, Inserted(document, name, AddedEntry(name, source, now), now), o.nodes, true)
    else
      RecordedOutcome(o.result, document, o.nodes, false)
  }

  /** After a recording add succeeds, `path name` prints the stored file, the
      entry names the storage filename and the source's extension, a re-add
      keeps the first creation time, and every name that resolved before
      still resolves to the same file. A failed add leaves the manifest as
      it was and does not save it. */
  lemma RecordedAddResolves(document: Templates, nodes: Nodes, templatesDir: Path, name: string,
                            source: Path, force: bool, copyPermitted: bool, now: Timestamp)
    requires WellFormed(nodes)
    ensures var o := AddRecordedSpec(document, nodes, templatesDir, name, source, force, copyPermitted, now);
            o.result == Pass ==>
              && source != []
              && o.saved
              && PathSpec(o.document, o.nodes, templatesDir, name) == Ok(Destination(templatesDir, name, source))
              && o.document[name].sourceExtension == SourceExtension(source)
              && (name in document ==> o.document[name].createdAt == document[name].createdAt)
              && forall other | other != name && PathSpec(document, nodes, templatesDir, other).Ok? ::
                   PathSpec(o.document, o.nodes, templatesDir, other) == PathSpec(document, nodes, templatesDir, other)
    ensures var o := AddRecordedSpec(document, nodes, templatesDir, name, source, force, copyPermitted, now);
            o.result.Fail? ==> o.document == document && !o.saved
  {
    var o := AddSpec(nodes, templatesDir, name, source, force, copyPermitted);
    if o.result == Pass {
      SuccessStoresSource(nodes, templatesDir, name, source, force, copyPermitted);
      var entry := AddedEntry(name, source, now);
      assert StoragePath(templatesDir, entry) == Destination(templatesDir, name, source);
      assert PathSpec(Inserted(document, name, entry, now), o.nodes, templatesDir, name) ==
             Ok(Join(templatesDir, entry.filenameInStorage));
      forall other | other != name && PathSpec(document, nodes, templatesDir, other).Ok?
        ensures PathSpec(Inserted(document, name, entry, now), o.nodes, templatesDir, other) ==
                PathSpec(document, nodes, templatesDir, other)
      {
        PathAfterInsert(document, nodes, o.nodes, templatesDir, name, entry, now, other);
      }
    }
  }

  /** The recording `run`: the command as written, then on success the
      manifest is loaded, the entry added and the manifest saved. */
  method RunRecorded(cfg: ManifestFile, fs: FileSystem, templatesDir: Path, name: string, source: Path,
                     force: bool, copyPermitted: bool, now: Timestamp) returns (r: Outcome<CommandError>)
    modifies cfg, fs
    ensures var o := AddRecordedSpec(old(cfg.document), old(fs.nodes), templatesDir, name, source,
                                     force, copyPermitted, now);
            && r == o.result
            && cfg.document == o.document
            && fs.nodes == o.nodes
            && cfg.saves == old(cfg.saves) + (if o.saved then 1 else 0)
  {
    r := Add.Run(fs, templatesDir, name, source, force, copyPermitted);
    if r.Pass? {
      var manifest := cfg.Load();
      manifest.AddTemplate(name, AddedEntry(name, source, now), now);
      cfg.Save(manifest);
    }
  }
}
