# tempo: a verified model of the template catalogue

`tempo` is a command-line template catalogue. It keeps reusable file snippets
in a `templates` directory, records each under a user-chosen name in a
manifest, and writes a template into a destination file under one of several
write strategies. This project models in Dafny the catalogue's core and proves
what its code promises:

- the manifest, a map from template name to entry;
- the two ways a name is resolved: a scan of the templates directory (`apply`,
  `show`) and a manifest lookup (`path`, `edit`, `remove`);
- the decision table of `apply` and the content it writes;
- the commands `add`, `remove`, `edit`, `path`, `list` and `show`;
- the error variants of `AppError` and of `add`'s own error type.

The filesystem is a map from paths (sequences of components; `[]` is the root,
always a directory) to `File(content) | Dir`, held by the class
`Storage.FileSystem`. Its primitive operations (`Write`, `AppendTo`,
`RemoveFile`, `CreateDirAll`, `Copy`) succeed exactly when a predicate on the
map holds. Whatever the host decides is a parameter:

- what `read_dir` yields: the entries in the host's order, and which of them cannot be read (`Lookup.DirRead`). A `DirRead` is any sequence of names. The predicate `Lookup.Enumerates` ties it to the filesystem: every entry read is a child of the directory, and when every entry was read, every child appears. The lemmas that speak about the directory's contents rather than the listing assume it;
- the clock (`now`);
- the editor's exit (`editorSucceeds`);
- the confirmation line typed at the prompt (`answer`);
- whether standard output is a terminal (`isTty`);
- whether the host permits a copy or a removal (`copyPermitted`, `removePermitted`).

The persisted manifest document is the class `ConfigStore.ManifestFile`, which
also counts its saves.

Each command has a specification function (`AddSpec`, `RemoveSpec`, …)
giving the result and the new state, and lemmas stating the properties the
code promises. Every command except `show` also has an imperative `Run`
method that follows the Rust code step by step and is proved to equal its
specification function. `show` is a lookup, a read and a print, so it has
only `Show.ShowSpec`.

File stems and extensions follow the rules of Rust's `Path::file_stem` and
`Path::extension`. The name is split at its last dot, and a name whose only dot
is its first character has no extension.

Where the code differs from the tool's own description of itself, the model
follows the code:

- `add` does not insert the template into the manifest (see Findings).
- `list` sorts by raw file name, so "Zeta" comes before "alpha" (`List.OrderExamples`). It does not sort case-insensitively.
- `list` lists the files in the templates directory, not the manifest's entries.
- `add . Makefile` and `add .. Makefile` join "." or ".." to the templates directory, which names that directory or its parent. The add is refused as an existing template, and with `--force` it fails with an I/O error (`Add.DotNamesNeverStore`).
- A forced `add` whose source is the stored template itself leaves that template empty, because `fs::copy` truncates the destination it is reading from (`Add.ForcedSelfAddEmptiesTemplate`).
- Prepending template "B" to a file holding "A" gives "B\nA": exactly one newline is inserted. It gives "B\n\nA" only when the template itself ends in a newline (`Apply.MergeExamples`).

`src/commands/apply.rs` and `src/commands/list.rs` import `AppError` from
`crate::commands::error`. That file is not part of this model; its variants
are taken to be those of `src/error.rs`.

## Model

| member | source | states |
|---|---|---|
| Paths.FileStem | src/commands/list.rs:44-47 | the stem is a prefix of the file name, empty only for the empty name, and the whole name when no dot follows the first character |
| Paths.Extension | src/commands/list.rs:49-52 | an extension is the dot-free suffix after a dot that is not the name's first character; there is none exactly when no dot follows the first character |
| Paths.LastDot | src/utils.rs:19 | the position found holds a dot, no dot follows it, and no position means the name has no dot |
| Paths.StemAndExtension | src/commands/list.rs:44-52 | with an extension, the stem is non-empty, the extension has no dot and stem + "." + extension is the name; without one, the stem is the whole name; there is no extension exactly when no character after the first is a dot |
| Paths.SplitJoined | src/commands/add.rs:91-95 | a name built as stem + "." + extension splits back into that stem and extension |
| Paths.StemExamples | src/commands/list.rs:111-122 | stem and extension of "alpha.txt", "gamma_tpl", ".bashrc", "a.tar.gz" and "notes." |
| Text.TrimStartBlank | src/commands/add.rs:74 | trimming the start empties a string exactly when it is all whitespace, and leaves a non-whitespace first character otherwise |
| Text.TrimEndBlank | src/commands/add.rs:74 | trimming the end empties a string exactly when it is all whitespace, and leaves a non-whitespace last character otherwise |
| Text.TrimProperties | src/commands/add.rs:74-78 | `trim()` is empty exactly when the name is whitespace only; otherwise it neither starts nor ends with whitespace |
| Text.LowerAsciiString | src/commands/remove.rs:43 | ASCII lower-casing keeps the length and maps every character on its own; this is narrower than Rust's Unicode `to_lowercase` (see Left out) |
| Text.ConfirmedIff | src/commands/remove.rs:43 | the answer confirms exactly when, trimmed, it is "y" or "Y" |
| Text.ConfirmationExamples | src/commands/remove.rs:43 | "y\n" and "  Y \n" confirm; "\n", "yes\n" and "n\n" do not |
| Storage.WithDirs | src/commands/apply.rs:96-98 | `create_dir_all` adds exactly the missing ancestors, keeps every existing entry, and leaves every ancestor a directory when none of them is a file |
| Storage.AncestorsAreDirs | src/commands/apply.rs:96-97 | in a well-formed tree every ancestor of a directory is a directory |
| Storage.WithDirsWellFormed | src/commands/apply.rs:98 | creating the missing directories keeps the tree well formed |
| Storage.WriteWellFormed | src/commands/apply.rs:106 | writing a file that may be written keeps the tree well formed |
| Storage.RemoveWellFormed | src/commands/remove.rs:64 | removing a file keeps the tree well formed |
| Storage.FileSystem.Write | src/commands/apply.rs:70 | `fs::write` succeeds exactly on an existing file or a new name in an existing directory, and then stores exactly the content |
| Storage.FileSystem.AppendTo | src/commands/apply.rs:73-74 | appending succeeds exactly on an existing file and leaves old content followed by the new |
| Storage.FileSystem.RemoveFile | src/commands/remove.rs:64 | `fs::remove_file` succeeds exactly on a permitted regular file and then removes only it |
| Storage.FileSystem.CreateDirAll | src/commands/apply.rs:98 | `fs::create_dir_all` succeeds exactly when no ancestor is a file, and adds the missing directories |
| Storage.FileSystem.Copy | src/commands/add.rs:113 | `fs::copy` succeeds exactly when permitted from a regular file to a writable path; the destination then holds the source's bytes, or nothing when it is the source itself |
| Catalog.NewEntry | src/manifest.rs:45-57 | a new entry has creation time = update time = now, the given filename and extension, no description, source path or language, and no tags |
| Catalog.Inserted | src/manifest.rs:78-85 | after `add_template` the keys are the old keys plus the name; other entries are unchanged; a fresh name gets the entry as given; an existing name keeps its creation time, gets now as update time and otherwise the new entry |
| Catalog.RemoveUndoesInsert | src/manifest.rs:78-91 | removing a name after adding it leaves the other entries exactly as before |
| Catalog.CreationTimeSurvivesReAdds | src/manifest.rs:79-81 | any number of re-adds keep the first creation time |
| Catalog.Manifest.constructor | src/manifest.rs:70-74 | `Manifest::new()` has no entries |
| Catalog.Manifest.FromDocument | src/config.rs:123-126 | a parsed document gives a manifest holding exactly its entries |
| Catalog.Manifest.AddTemplate | src/manifest.rs:78-85 | the templates become `Inserted` of the old templates |
| Catalog.Manifest.RemoveTemplate | src/manifest.rs:89-91 | returns the prior entry or none; the name is then absent and other entries unchanged |
| Catalog.Manifest.GetTemplate | src/manifest.rs:94-96 | returns the stored entry exactly when the name is present; reads only |
| Catalog.Manifest.UpdateTemplate | src/manifest.rs:99-101 | a change through `get_template_mut` affects only that name's entry, and only when it exists |
| ConfigStore.ManifestFile.Load | src/config.rs:100-127 | the loaded manifest holds exactly the saved document's entries; an empty document loads as `Manifest::new()` |
| ConfigStore.ManifestFile.Save | src/config.rs:131-157 | the saved document becomes the manifest's entries, and the save is counted |
| Lookup.ScanCharacterized | src/utils.rs:12-26 | the scan returns the first matching entry when no unreadable entry precedes it; `ReadDir` exactly when an unreadable entry comes first; `TemplateNotFound` exactly when nothing matches and everything was read |
| Lookup.ScanFindsFirstStop | src/utils.rs:12-22 | when the first entry that stops the scan is a match, the scan returns that entry's path |
| Lookup.NotFoundMeansNoSuchFile | src/utils.rs:12-26 | over a listing of the directory, `TemplateNotFound` comes exactly when every entry was read and no regular file in the directory has the name as its stem |
| Lookup.FoundIsTemplateFile | src/utils.rs:17-21 | a found path is a regular file directly in the templates directory whose stem is exactly the name; errors are `ReadDir(dir)` or `TemplateNotFound(name)` |
| Lookup.FindTemplatePath | src/utils.rs:6-27 | the `for` loop with early returns computes the scan (the copy at src/commands/apply.rs:11-32 is the same code) |
| Apply.StrategyPrecedence | src/commands/apply.rs:68-92 | on an existing file each strategy flag selects its own outcome; with none, `force` overwrites and its absence refuses |
| Apply.ForceYieldsToStrategy | src/commands/apply.rs:82 | with a strategy flag set, `force` changes nothing |
| Apply.ForceIsOverwrite | src/commands/apply.rs:82-88 | forced overwrite and overwrite both leave exactly the template |
| Apply.AppendKeepsOriginal | src/commands/apply.rs:71-74 | append leaves the old content followed by the template, with no separator |
| Apply.PrependSeparatesOnce | src/commands/apply.rs:75-81 | prepend leaves the template, one newline, then the old content |
| Apply.MergeExamples | src/commands/apply.rs:68-81 | concrete results of overwrite, append and prepend |
| Apply.LookupFailureTouchesNothing | src/commands/apply.rs:44-45 | a failed lookup returns its error and writes nothing |
| Apply.FoundTemplateIsPlaced | src/commands/apply.rs:53 | a found template is readable and its content is what gets written |
| Apply.CreatesAbsentDestination | src/commands/apply.rs:93-107 | an absent destination is created with exactly the template content whatever the flags; its missing ancestors become directories and nothing existing changes |
| Apply.DirectoryIsRefused | src/commands/apply.rs:59-65 | a directory destination yields `DestinationIsDirectory` and nothing is written |
| Apply.ExistingFileOutcomes | src/commands/apply.rs:67-92 | the content or error for each strategy on an existing file; `DestinationFileExists` leaves the file unchanged |
| Apply.PlaceKeepsWellFormed | src/commands/apply.rs:58-107 | writing the destination keeps the tree well formed |
| Apply.Run | src/commands/apply.rs:35-117 | the command's result and filesystem equal `ApplySpec` |
| Add.ValidationOrder | src/commands/add.rs:55-78 | a missing source, then a non-file source, then a separator in the name, then a blank name are refused in that order, each leaving storage unchanged |
| Add.StorageFilenameSplits | src/commands/add.rs:85-95 | with a non-empty source extension the storage filename has the name as stem and the unchanged extension; otherwise it is the name |
| Add.ExistingStorageNeedsForce | src/commands/add.rs:97-109 | an existing storage path, "." and ".." included, without `force` yields `TemplateAlreadyExists` and changes nothing |
| Add.SuccessStoresSource | src/commands/add.rs:97-123 | on success the storage filename is a plain name, never "." or ".."; the storage file holds exactly the source's bytes, or nothing when the source is that file; nothing else changes; the tree stays well formed |
| Add.ForcedSelfAddEmptiesTemplate | src/commands/add.rs:107-113 | a forced add from the stored template itself succeeds and empties it |
| Add.DotNamesNeverStore | src/commands/add.rs:91-130 | a name "." or ".." with an extensionless source changes nothing, giving `TemplateAlreadyExists` when the templates directory exists and `force` is off and `IoError` otherwise |
| Add.SuccessCondition | src/commands/add.rs:97-123 | in an existing templates directory, a validated add that is not refused succeeds exactly when the copy is permitted and the storage path is a plain name that is not a directory |
| Add.CopyFailureCleansUp | src/commands/add.rs:124-130 | a failed copy yields `IoError` and leaves no file at a plain destination, even one that was there before; with "." or ".." nothing changes |
| Add.AddedTemplateMatchesScan | src/commands/add.rs:91-97 | the directory entry of a template just added matches the name in the scan exactly when the source has an extension or the name has no dot after its first character |
| Add.AddedTemplateIsFound | src/commands/add.rs:91-123 | a template just added whose entry matches is what the scan returns unless an earlier entry stops it: an unreadable entry or another regular file with the same stem |
| Add.DottedNameWithoutExtension | src/commands/add.rs:91-97 | "v1.2" added from "Makefile" is stored as "v1.2", which the scan does not find as "v1.2" |
| Add.Run | src/commands/add.rs:40-132 | the command's result and filesystem equal `AddSpec` |
| PathCmd.PathResolution | src/commands/path_cmd.rs:11-34 | success exactly for a recorded name whose file exists, printing templates dir + filename; a missing file yields `TemplateFileMissing` with that path; `TemplateNotFound` exactly for unknown names |
| PathCmd.PathAfterInsert | src/commands/path_cmd.rs:11-19 | after an entry is recorded whose file exists, the name resolves to its file and other names resolve as before |
| PathCmd.PathAfterRemoval | src/commands/path_cmd.rs:11-14 | a name removed from the manifest resolves to `TemplateNotFound` |
| PathCmd.Run | src/commands/path_cmd.rs:7-37 | the printed path or error equals `PathSpec` of the loaded manifest; the manifest is never modified or saved |
| RecordedAdd.AddedNameIsNotInManifest | src/commands/add.rs:113-123 | adding "x" from "a.txt" succeeds and stores "x.txt", yet `path x` then fails with `TemplateNotFound` |
| RecordedAdd.RecordedAddResolves | src/commands/add.rs:113-123 | with the entry recorded, a successful add makes `path name` print the stored file, keeps a re-added name's creation time and other names' paths, and a failed add neither changes nor saves the manifest |
| RecordedAdd.RunRecorded | src/commands/add.rs:40-132 | the add as written followed by `add_template` and a save on success equals `AddRecordedSpec` |
| Remove.GatingChangesNothing | src/commands/remove.rs:20-60 | an unknown name, a quiet run without `force` and a declined answer change nothing and save nothing, with their respective results |
| Remove.ProceedingRemoves | src/commands/remove.rs:62-81 | once confirmed, the storage file is gone, exactly that entry leaves the manifest, it is saved, and the warning is given exactly when the file was already missing |
| Remove.FileRemoveFailureKeepsManifest | src/commands/remove.rs:63-67 | `FileRemove` is returned before the manifest is changed or saved |
| Remove.RemovedNameNoLongerResolves | src/commands/remove.rs:77-81 | after a saved removal the name no longer resolves, and other names resolve as before |
| Remove.Run | src/commands/remove.rs:10-92 | the result, warning, manifest, saves and filesystem equal `RemoveSpec` |
| Edit.EditAgreesWithPath | src/commands/edit.rs:22-44 | the editor is started exactly when `path` would succeed, and the earlier errors are `path`'s |
| Edit.MissingFileSkipsEditor | src/commands/edit.rs:38-44 | a missing file yields `TemplateFileMissing` with its path whatever the editor would do, and the editor is not started |
| Edit.EditorFailureKeepsManifest | src/commands/edit.rs:75-81 | an editor failure yields `EditorFailed` and the manifest is neither changed nor saved |
| Edit.SuccessOnlyTouchesUpdateTime | src/commands/edit.rs:54-58 | on success only the entry's update time changes, to now, and the manifest is saved |
| Edit.Run | src/commands/edit.rs:10-83 | the result, manifest and saves equal `EditSpec`; the storage file is only read |
| Show.ShowSpec | src/commands/show.rs:6-18 | the command fails exactly when the directory scan fails, with the scan's `ReadDir` or `TemplateNotFound`; reading a found template never fails |
| Show.PrintedProperties | src/commands/show.rs:11-15 | the output is the content verbatim plus one newline exactly when on a terminal and the content lacks one |
| Show.ShowUsesScan | src/commands/show.rs:6-9 | lookup errors are the command's errors; a found template is always read and printed |
| Show.ShowMatchesApply | src/commands/show.rs:7-11 | off a terminal, `show` prints exactly what `apply` writes to an absent destination |
| List.NameLeqTotal | src/commands/list.rs:37 | any two file names are ordered one way or the other |
| List.NameLeqTransitive | src/commands/list.rs:37 | the file-name order is transitive |
| List.NameLeqAntisymmetric | src/commands/list.rs:37 | names ordered both ways are equal |
| List.InsertByNameMultiset | src/commands/list.rs:37 | inserting adds exactly the one name |
| List.InsertByNameSorted | src/commands/list.rs:37 | inserting into a sorted sequence keeps it sorted |
| List.SortByNameCorrect | src/commands/list.rs:37 | the sort yields a sorted permutation of the names |
| List.FilesCharacterized | src/commands/list.rs:23-26 | a name is collected exactly when an entry by that name is a regular file; unreadable entries are skipped |
| List.LineRoundTrip | src/commands/list.rs:44-62 | a line shows the stem and the extension, and the extension exactly when it is non-empty; stem + "." + extension is the file name |
| List.LineOfJoined | src/commands/list.rs:44-62 | the line of stem + "." + extension shows that stem and extension |
| List.LinesOf | src/commands/list.rs:39-63 | exactly one line per listed file |
| List.ListsEveryFile | src/commands/list.rs:23-34 | over a listing of the directory in which every entry was read, the collected names are exactly the directory's regular files, and "No templates found" comes exactly when there is none |
| List.NoFilesIffNothingKept | src/commands/list.rs:28-34 | "No templates found" comes exactly when no entry is a readable regular file |
| List.ListingProperties | src/commands/list.rs:23-63 | a readable directory is always listed, its lines follow a sorted permutation of the collected files, one each, all regular files |
| List.OrderExamples | src/commands/list.rs:37 | the order is by raw characters: upper case first, a prefix before its extensions |
| List.ListingExample | src/commands/list.rs:111-122 | three files, a subdirectory and an unreadable entry list as "alpha (.txt)", "beta (.rs)", "gamma_tpl" |
| List.Run | src/commands/list.rs:12-67 | the collect loop, the sort and the line loop compute `ListSpec` |

## Left out

- Configuration-directory discovery, TOML parsing and serialisation, and the errors they raise (`ConfigError`). The manifest document is a value that always loads, and `save_manifest` always succeeds. `get_templates_dir` is a parameter.
- Add.AddSpec: takes the templates directory as given. `get_templates_dir` (src/config.rs:81-89) creates it before the command copies anything, and its creation errors are not modelled. Where the directory is missing, the model's add fails with `IoError` instead; `Add.SuccessCondition` states success for an existing templates directory.
- Text.LowerAsciiString: lower-cases ASCII letters only, where src/commands/remove.rs:43 uses Rust's Unicode `to_lowercase`. That function can change the length ("İ" becomes two characters) and lowers "É" to "é", which the model keeps. The confirmation outcome is the same, since "y" is the lowering only of "y" and "Y" (`Text.ConfirmedIff`).
- Storage.FileSystem.Copy: the truncation of a file copied onto itself is Unix behaviour; other platforms are not modelled.
- Console output: colours, progress messages and `--verbose` lines. The outputs of `path`, `show` and `list` and the missing-file warning of `remove` are results.
- Reading the confirmation line, and flushing standard output before it, can fail with `Io`. The answer is taken as given.
- The editor's changes to the template file are not modelled; `edit` only reads the filesystem.
- Byte-level I/O failures other than the ones modelled, such as a failing read of the template or a write that fails part-way through `prepend`. Non-UTF-8 file names are also left out.
- Apply.Run: requires at most one strategy flag, which clap's argument group guarantees (src/cli.rs:67-85).
- Add.AddSpec: assumes the clean-up `remove_file` after a failed copy succeeds on a regular file. Its error is ignored in the code.
- Lookup.Scan: takes entry names to be plain components, never "." or "..".
- PathCmd.PathSpec: takes the storage filenames in a manifest to be plain components, as `add` would make them (`Add.SuccessStoresSource`); a hand-edited manifest naming "." or ".." is not modelled.
- List.Run: models the in-place `sort_by_key` as the pure insertion sort `SortByName` on the collected names, since equal keys are equal names and stability is unobservable.
- `src/main.rs` is a stale dispatcher and `src/cli.rs` is argument parsing; neither is part of this model. Nor are the test modules, which use the real configuration directory.

## Findings

| source | as written | input that shows it | evidently intended | confidence | as-written member | corrected member |
|---|---|---|---|---|---|---|
| src/commands/add.rs:113-123 | a successful add copies the file and returns without loading, updating or saving the manifest | `add x src/a.txt` with an empty manifest, then `path x` gives `TemplateNotFound` | record `TemplateEntry::new("x.txt", "txt")` under "x" and save the manifest, so that `path`, `edit` and `remove` see the template | not executed; high | RecordedAdd.AddedNameIsNotInManifest | RecordedAdd.RecordedAddResolves |

`RecordedAdd.RunRecorded` is the corrected command. It is the add that fills
the manifest documents read by `path`, `edit` and `remove`.
