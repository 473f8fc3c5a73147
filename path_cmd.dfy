/** `tempo path <name>` (src/commands/path_cmd.rs): the manifest-based lookup
    that prints where a template's file is stored. */
module PathCmd {
  import opened Basics
  import opened Paths
  import opened Storage
  import opened Catalog
  import opened ConfigStore
  import opened Errors

  /** What the command reports: `Ok(path)` is the single line of data it
      prints; on an error nothing is printed. */
  function PathSpec(document: Templates, nodes: Nodes, templatesDir: Path, name: string): Result<Path, AppError>
  {
    if name !in document then Err(TemplateNotFound(name))
    else
      var path := StoragePath(templatesDir, document[name]);
      if !Exists(nodes, path) then Err(TemplateFileMissing(name, path))
      else Ok(path)
  }

  /** The command succeeds exactly for a recorded name whose file exists, and
      then prints a path directly inside the templates directory whose last
      component is the recorded storage filename; a recorded name whose file
      is gone yields `TemplateFileMissing` with that same path. */
  lemma PathResolution(document: Templates, nodes: Nodes, templatesDir: Path, name: string)
    ensures PathSpec(document, nodes, templatesDir, name).Ok? <==>
              name in document && Exists(nodes, StoragePath(templatesDir, document[name]))
    ensures PathSpec(document, nodes, templatesDir, name).Ok? ==>
              var p := PathSpec(document, nodes, templatesDir, name).value;
              p != [] && Parent(p) == templatesDir && FileName(p) == document[name].filenameInStorage
    ensures name in document && !Exists(nodes, StoragePath(templatesDir, document[name])) ==>
              PathSpec(document, nodes, templatesDir, name) ==
              Err(TemplateFileMissing(name, templatesDir + [document[name].filenameInStorage]))
    ensures PathSpec(document, nodes, templatesDir, name).Err? ==>
              (PathSpec(document, nodes, templatesDir, name).error.TemplateNotFound? <==> name !in document)
  {
  }

  /** Recording an entry whose file exists makes the name resolve to that
      file; every other name resolves as before, provided no existing file
      was removed. */
  lemma PathAfterInsert(document: Templates, nodes: Nodes, after: Nodes, templatesDir: Path,
                        name: string, entry: TemplateEntry, now: Timestamp, other: string)
    requires Exists(after, StoragePath(templatesDir, entry))
    requires forall p | Exists(nodes, p) :: Exists(after, p)
    requires other != name && PathSpec(document, nodes, templatesDir, other).Ok?
    ensures PathSpec(Inserted(document, name, entry, now), after, templatesDir, name) ==
            Ok(Join(templatesDir, entry.filenameInStorage))
    ensures PathSpec(Inserted(document, name, entry, now), after, templatesDir, other) ==
            PathSpec(document, nodes, templatesDir, other)
  {
    var d := Inserted(document, name, entry, now);
    assert d[name].filenameInStorage == entry.filenameInStorage;
  }

  /** Once a name leaves the manifest it no longer resolves, whatever the
      filesystem holds. */
  lemma PathAfterRemoval(document: Templates, nodes: Nodes, templatesDir: Path, name: string)
    ensures PathSpec(document - {name}, nodes, templatesDir, name) == Err(TemplateNotFound(name))
  {
  }

  /** `run`: loads the manifest and looks the name up in it; the manifest
      document is only read, never saved. */
  method Run(cfg: ManifestFile, fs: FileSystem, templatesDir: Path, name: string) returns (r: Result<Path, AppError>)
    ensures r == PathSpec(cfg.document, fs.nodes, templatesDir, name)
  {
    var manifest := cfg.Load();
    var entry := manifest.GetTemplate(name);
    if entry.None? {
      return Err(TemplateNotFound(name));
    }
    var path := StoragePath(templatesDir, entry.value);
    if !Exists(fs.nodes, path) {
      return Err(TemplateFileMissing(name, path));
    }
    r := Ok(path);
  }
}
