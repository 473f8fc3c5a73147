/** `tempo edit <name>` (src/commands/edit.rs): looks the name up in the
    manifest, checks that its storage file is still there, opens it in the
    user's editor and, when the editor succeeds, sets the entry's update time
    and saves the manifest. What the editor writes into the file is the
    editor's business and is not modelled. */
module Edit {
  import opened Basics
  import opened Paths
  import opened Storage
  import opened Catalog
  import opened ConfigStore
  import opened PathCmd
  import opened Errors

  /** The command's result, the manifest document it leaves, whether it saved
      the manifest, and whether it started the editor. */
  datatype EditOutcome = EditOutcome(result: Outcome<AppError>, document: Templates,
                                     saved: bool, editorInvoked: bool)

  /** The entry with its update time set to `now`. */
  function Touched(entry: TemplateEntry, now: Timestamp): TemplateEntry
  {
    entry.(updatedAt := now)
  }

  /** What the command does; `editorSucceeds` is how `edit::edit_file` ends
      and `now` what `Utc::now()` returns afterwards. */
  function EditSpec(document: Templates, nodes: Nodes, templatesDir: Path, name: string,
                    editorSucceeds: bool, now: Timestamp): EditOutcome
  {
    if name !in document then
      EditOutcome(Fail(TemplateNotFound(name)), document, false, false)
    else
      var path := StoragePath(templatesDir, document[name]);
      if !Exists(nodes, path) then
        EditOutcome(Fail(TemplateFileMissing(name, path)), document, false, false)
      else if !editorSucceeds then
        EditOutcome(Fail(EditorFailed(path)), document, false, true)
      else
        EditOutcome(Pass, document[name := Touched(document[name], now)], true, true)
  }

  /** `edit` and `path` resolve a name the same way: the editor is started
      exactly when `path` would succeed, on the path `path` prints, and the
      errors before the editor are the ones `path` reports. */
  lemma EditAgreesWithPath(document: Templates, nodes: Nodes, templatesDir: Path, name: string,
                           editorSucceeds: bool, now: Timestamp)
    ensures var o := EditSpec(document, nodes, templatesDir, name, editorSucceeds, now);
            var p := PathSpec(document, nodes, templatesDir, name);
            && (o.editorInvoked <==> p.Ok?)
            && (p.Err? ==> o.result == Fail(p.error) && o.document == document && !o.saved)
            && (p.Ok? && !editorSucceeds ==> o.result == Fail(EditorFailed(p.value)))
  {
    PathResolution(document, nodes, templatesDir, name);
  }

  /** A missing storage file is reported as `TemplateFileMissing` with its
      path, whatever the editor would have done, and the editor is not started. */
  lemma MissingFileSkipsEditor(document: Templates, nodes: Nodes, templatesDir: Path, name: string,
                               editorSucceeds: bool, now: Timestamp)
    requires name in document && !Exists(nodes, StoragePath(templatesDir, document[name]))
    ensures var o := EditSpec(document, nodes, templatesDir, name, editorSucceeds, now);
            && o == EditSpec(document, nodes, templatesDir, name, !editorSucceeds, now)
            && o.result == Fail(TemplateFileMissing(name, templatesDir + [document[name].filenameInStorage]))
            && !o.editorInvoked
  {
  }

  /** An editor failure yields `EditorFailed` and leaves the manifest neither
      changed nor saved. */
  lemma EditorFailureKeepsManifest(document: Templates, nodes: Nodes, templatesDir: Path, name: string,
                                   now: Timestamp)
    ensures var o := EditSpec(document, nodes, templatesDir, name, false, now);
            && o.result.Fail?
            && o.document == document && !o.saved
            && (o.editorInvoked ==> o.result.error == EditorFailed(StoragePath(templatesDir, document[name])))
  {
  }

  /** On editor success only the entry's update time changes: it becomes
      `now`; its creation time, its storage file and every other entry stay,
      the manifest is saved, and `path` still resolves the name to the same file. */
  lemma SuccessOnlyTouchesUpdateTime(document: Templates, nodes: Nodes, templatesDir: Path, name: string,
                                     now: Timestamp)
    ensures var o := EditSpec(document, nodes, templatesDir, name, true, now);
            o.result == Pass ==>
              && name in document
              && o.saved
              && o.document.Keys == document.Keys
              && o.document[name].updatedAt == now
              && o.document[name].createdAt == document[name].createdAt
              && SameButTimestamps(o.document[name], document[name])
              && (forall other | other in document && other != name :: o.document[other] == document[other])
              && PathSpec(o.document, nodes, templatesDir, name) == PathSpec(document, nodes, templatesDir, name)
  {
  }

  /** `run`: the manifest is loaded, the entry looked up, the file's presence
      checked and the editor run; on success `get_template_mut` sets the
      update time and the manifest is saved. The command never writes the
      storage file itself, which is why `fs` is only read. */
  method Run(cfg: ManifestFile, fs: FileSystem, templatesDir: Path, name: string,
             editorSucceeds: bool, now: Timestamp) returns (r: Outcome<AppError>, editorInvoked: bool)
    modifies cfg
    ensures var o := EditSpec(old(cfg.document), fs.nodes, templatesDir, name, editorSucceeds, now);
            && r == o.result && editorInvoked == o.editorInvoked
            && cfg.document == o.document
            && cfg.saves == old(cfg.saves) + (if o.saved then 1 else 0)
  {
    var manifest := cfg.Load();
    var entry := manifest.GetTemplate(name);
    if entry.None? {
      return Fail(TemplateNotFound(name)), false;
    }
    var path := StoragePath(templatesDir, entry.value);
    if !Exists(fs.nodes, path) {
      return Fail(TemplateFileMissing(name, path)), false;
    }
    editorInvoked := true;
    if !editorSucceeds {
      return Fail(EditorFailed(path)), editorInvoked;
    }
    var found := manifest.UpdateTemplate(name, e => Touched(e, now));
    if found {
      cfg.Save(manifest);
    }
    r := Pass;
  }
}
