/** `tempo remove <name>` (src/commands/remove.rs): looks the name up in the
    manifest, asks for confirmation unless `force` is set, deletes the storage
    file if there is one, then drops the entry and saves the manifest. */
module Remove {
  import opened Basics
  import opened Paths
  import opened Storage
  import opened Text
  import opened Catalog
  import opened ConfigStore
  import opened PathCmd
  import opened Errors

  const REMOVE_ACTION := "remove"

  /** The command's result, the manifest document and filesystem it leaves,
      whether it saved the manifest, and whether it warned that the storage
      file was already gone. */
  datatype RemoveOutcome = RemoveOutcome(result: Outcome<AppError>, document: Templates, nodes: Nodes,
                                         saved: bool, warned: bool)

  /** What the command does; `answer` is the line read from standard input
      (read only when asking), `removePermitted` whether the host lets
      `fs::remove_file` delete the storage file. */
  function RemoveSpec(document: Templates, nodes: Nodes, templatesDir: Path, name: string,
                      force: bool, quiet: bool, answer: string, removePermitted: bool): RemoveOutcome
  {
    if name !in document then
      RemoveOutcome(Fail(TemplateNotFound(name)), document, nodes, false, false)
    else if !force && quiet then
      RemoveOutcome(Fail(ConfirmationNeededInQuietMode(REMOVE_ACTION, name)), document, nodes, false, false)
    else if !force && !Confirmed(answer) then
      RemoveOutcome(Pass, document, nodes, false, false)
    else
      var path := StoragePath(templatesDir, document[name]);
      if !Exists(nodes, path) then
        RemoveOutcome(Pass, document - {name}, nodes, true, true)
      else if removePermitted && IsFile(nodes, path) then
        RemoveOutcome(Pass, document - {name}, nodes - {path}, true, false)
      else
        RemoveOutcome(Fail(FileRemove(path)), document, nodes, false, false)
  }

  /** The command goes past the confirmation step. */
  predicate Proceeds(force: bool, quiet: bool, answer: string)
  {
    force || (!quiet && Confirmed(answer))
  }

  /** An unknown name, a quiet run without `force`, and a declined
      confirmation all leave the manifest, the files and the saved document
      alone; only the first two are errors. A declined answer is any line
      other than "y" or "Y" around whitespace. */
  lemma GatingChangesNothing(document: Templates, nodes: Nodes, templatesDir: Path, name: string,
                             force: bool, quiet: bool, answer: string, removePermitted: bool)
    ensures var o := RemoveSpec(document, nodes, templatesDir, name, force, quiet, answer, removePermitted);
            && (name !in document ==> o.result == Fail(TemplateNotFound(name)))
            && (name in document && !force && quiet ==>
                  o.result == Fail(ConfirmationNeededInQuietMode(REMOVE_ACTION, name)))
            && (name in document && !force && !quiet && Trim(answer) != "y" && Trim(answer) != "Y" ==>
                  o.result == Pass)
            && (name !in document || !Proceeds(force, quiet, answer) ==>
                  o.document == document && o.nodes == nodes && !o.saved && !o.warned)
  {
    ConfirmedIff(answer);
  }

  /** When the command proceeds and the file can go, exactly that entry leaves
      the manifest, the manifest is saved, the storage file is gone, and the
      warning is given exactly when there was no file to delete. */
  lemma ProceedingRemoves(document: Templates, nodes: Nodes, templatesDir: Path, name: string,
                          force: bool, quiet: bool, answer: string, removePermitted: bool)
    requires WellFormed(nodes)
    requires name in document && Proceeds(force, quiet, answer)
    requires var path := StoragePath(templatesDir, document[name]);
             !Exists(nodes, path) || (removePermitted && IsFile(nodes, path))
    ensures var o := RemoveSpec(document, nodes, templatesDir, name, force, quiet, answer, removePermitted);
            var path := StoragePath(templatesDir, document[name]);
            && o.result == Pass
            && o.saved
            && o.document.Keys == document.Keys - {name}
            && (forall other | other in o.document :: o.document[other] == document[other])
            && !Exists(o.nodes, path)
            && o.nodes == nodes - {path}
            && (o.warned <==> !Exists(nodes, path))
            && WellFormed(o.nodes)
  {
    var path := StoragePath(templatesDir, document[name]);
    if IsFile(nodes, path) {
      RemoveWellFormed(nodes, path);
    } else {
      assert nodes - {path} == nodes;
    }
  }

  /** A storage file that cannot be deleted ends the command with `FileRemove`
      before the manifest is changed or saved. */
  lemma FileRemoveFailureKeepsManifest(document: Templates, nodes: Nodes, templatesDir: Path, name: string,
                                       force: bool, quiet: bool, answer: string, removePermitted: bool)
    ensures var o := RemoveSpec(document, nodes, templatesDir, name, force, quiet, answer, removePermitted);
            o.result.Fail? && o.result.error.FileRemove? ==>
              && name in document
              && Proceeds(force, quiet, answer)
              && o.result.error.path == StoragePath(templatesDir, document[name])
              && !(removePermitted && IsFile(nodes, o.result.error.path))
              && o.document == document && o.nodes == nodes && !o.saved
  {
  }

  /** After a removal that saved the manifest, `path name` reports
      `TemplateNotFound`, and another name resolves as before unless it
      shared the removed file. */
  lemma RemovedNameNoLongerResolves(document: Templates, nodes: Nodes, templatesDir: Path, name: string,
                                    force: bool, quiet: bool, answer: string, removePermitted: bool, other: string)
    requires other != name
    requires other in document && name in document ==>
               document[other].filenameInStorage != document[name].filenameInStorage
    ensures var o := RemoveSpec(document, nodes, templatesDir, name, force, quiet, answer, removePermitted);
            o.saved ==>
              && PathSpec(o.document, o.nodes, templatesDir, name) == Err(TemplateNotFound(name))
              && PathSpec(o.document, o.nodes, templatesDir, other) == PathSpec(document, nodes, templatesDir, other)
  {
    var o := RemoveSpec(document, nodes, templatesDir, name, force, quiet, answer, removePermitted);
    if o.saved && other in document {
      var path := StoragePath(templatesDir, document[name]);
      var otherPath := StoragePath(templatesDir, document[other]);
      assert otherPath != path by {
        assert otherPath[|templatesDir|] != path[|templatesDir|];
      }
      assert Exists(o.nodes, otherPath) == Exists(nodes, otherPath);
    }
  }

  /** `run`: the manifest is loaded, the entry looked up and cloned, the user
      asked, the file deleted, the entry removed and the manifest saved; the
      second result says whether the missing-file warning was given. */
  method Run(cfg: ManifestFile, fs: FileSystem, templatesDir: Path, name: string,
             force: bool, quiet: bool, answer: string, removePermitted: bool)
      returns (r: Outcome<AppError>, warned: bool)
    modifies cfg, fs
    ensures var o := RemoveSpec(old(cfg.document), old(fs.nodes), templatesDir, name,
                                force, quiet, answer, removePermitted);
            && r == o.result && warned == o.warned
            && cfg.document == o.document && fs.nodes == o.nodes
            && cfg.saves == old(cfg.saves) + (if o.saved then 1 else 0)
  {
    var manifest := cfg.Load();
    var entry := manifest.GetTemplate(name);
    if entry.None? {
      return Fail(TemplateNotFound(name)), false;
    }
    var path := StoragePath(templatesDir, entry.value);
    if !force {
      if !quiet {
        if !Confirmed(answer) {
          return Pass, false;
        }
      } else {
        return Fail(ConfirmationNeededInQuietMode(REMOVE_ACTION, name)), false;
      }
    }
    warned := false;
    if Exists(fs.nodes, path) {
      var deleted := fs.RemoveFile(path, removePermitted);
      if !deleted {
        return Fail(FileRemove(path)), false;
      }
    } else {
      warned := true;
    }
    var _ := manifest.RemoveTemplate(name);
    cfg.Save(manifest);
    r := Pass;
  }
}
