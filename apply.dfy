/** `tempo apply` (src/commands/apply.rs): find a template by directory scan and
    write its content to a destination under one of the write strategies. */
module Apply {
  import opened Basics
  import opened Paths
  import opened Storage
  import opened Errors
  import opened Lookup

  const APPLY_ACTION := "apply template"

  /** The write-strategy flags of `ApplyArgs`. */
  datatype Strategy = Strategy(overwrite: bool, append: bool, prepend: bool)

  /** clap's `write_strategy` group admits at most one of the three flags. */
  predicate AtMostOneStrategy(s: Strategy)
  {
    (if s.overwrite then 1 else 0) + (if s.append then 1 else 0) + (if s.prepend then 1 else 0) <= 1
  }

  predicate NoStrategy(s: Strategy)
  {
    !s.overwrite && !s.append && !s.prepend
  }

  /** What the destination path holds before the write. */
  datatype DestState = Absent | Directory | RegularFile(content: string)

  function DestStateOf(nodes: Nodes, dest: Path): DestState
  {
    if !Exists(nodes, dest) then Absent
    else if IsDir(nodes, dest) then Directory
    else RegularFile(nodes[dest].content)
  }

  /** The one outcome the destination's state and the flags select. */
  datatype Decision = Create | RejectDirectory | Overwrite | Append | Prepend | ForceOverwrite | RejectExisting

  /** The decision table: an absent destination is created whatever the flags,
      a directory is refused, and an existing file takes the first of
      overwrite, append, prepend and force that is set, or is refused. */
  function Decide(dest: DestState, s: Strategy, force: bool): Decision
  {
    match dest
    case Absent => Create
    case Directory => RejectDirectory
    case RegularFile(_) =>
      if s.overwrite then Overwrite
      else if s.append then Append
      else if s.prepend then Prepend
      else if force then ForceOverwrite
      else RejectExisting
  }

  /** The new content of an existing destination holding `existing`. */
  function Merged(d: Decision, template: string, existing: string): string
  {
    match d
    case Append => existing + template
    case Prepend => template + "\n" + existing
    case _ => template
  }

  /** Each explicit strategy selects its own outcome on an existing file, and
      `force` counts only when no strategy is given. */
  lemma StrategyPrecedence(content: string, s: Strategy, force: bool)
    requires AtMostOneStrategy(s)
    ensures Decide(RegularFile(content), s, force) == Overwrite <==> s.overwrite
    ensures Decide(RegularFile(content), s, force) == Append <==> s.append
    ensures Decide(RegularFile(content), s, force) == Prepend <==> s.prepend
    ensures Decide(RegularFile(content), s, force) == ForceOverwrite <==> NoStrategy(s) && force
    ensures Decide(RegularFile(content), s, force) == RejectExisting <==> NoStrategy(s) && !force
  {
  }

  /** An explicit strategy wins over `force`: setting it changes nothing. */
  lemma ForceYieldsToStrategy(dest: DestState, s: Strategy)
    requires !NoStrategy(s)
    ensures Decide(dest, s, true) == Decide(dest, s, false)
  {
  }

  /** Forcing writes exactly what overwriting writes. */
  lemma ForceIsOverwrite(template: string, existing: string)
    ensures Merged(ForceOverwrite, template, existing) == Merged(Overwrite, template, existing) == template
  {
  }

  /** Appending keeps the old content as it was and adds the template right
      after it, with no separator. */
  lemma AppendKeepsOriginal(template: string, existing: string)
    ensures var r := Merged(Append, template, existing);
            |r| == |existing| + |template| && r[..|existing|] == existing && r[|existing|..] == template
  {
  }

  /** Prepending puts the template first, then exactly one newline, then the
      old content unchanged. */
  lemma PrependSeparatesOnce(template: string, existing: string)
    ensures var r := Merged(Prepend, template, existing);
            |r| == |template| + 1 + |existing| &&
            r[..|template|] == template && r[|template|] == '\n' && r[|template| + 1..] == existing
  {
    var r := Merged(Prepend, template, existing);
    assert r == (template + "\n") + existing;
    assert r[..|template| + 1] == template + "\n";
  }

  /** The catalogue's own write examples. */
  lemma MergeExamples()
    ensures Merged(Overwrite, "NEW", "ORIGINAL") == "NEW"
    ensures Merged(Append, "B", "A\n") == "A\nB"
    ensures Merged(Prepend, "B", "A") == "B\nA"
    ensures Merged(Prepend, "B\n", "A") == "B\n\nA"
  {
  }

  /** The destination and the command's result after the write. */
  datatype ApplyOutcome = ApplyOutcome(result: Outcome<AppError>, nodes: Nodes)

  /** Creating an absent destination: missing parent directories first, then the file. */
  function CreateNew(nodes: Nodes, dest: Path, template: string): ApplyOutcome
    requires !Exists(nodes, dest)
  {
    var parent := Parent(dest);
    if !Exists(nodes, parent) && !CanCreateDirs(nodes, parent) then ApplyOutcome(Fail(Io), nodes)
    else
      var prepared := if Exists(nodes, parent) then nodes else WithDirs(nodes, parent);
      if CanWrite(prepared, dest) then ApplyOutcome(Pass, prepared[dest := File(template)])
      else ApplyOutcome(Fail(Io), prepared)
  }

  /** Writing `template` to `dest` as the decision table says. */
  function Place(nodes: Nodes, dest: Path, template: string, s: Strategy, force: bool): ApplyOutcome
  {
    var state := DestStateOf(nodes, dest);
    match Decide(state, s, force)
    case Create => CreateNew(nodes, dest, template)
    case RejectDirectory => ApplyOutcome(Fail(DestinationIsDirectory(APPLY_ACTION, dest)), nodes)
    case RejectExisting => ApplyOutcome(Fail(DestinationFileExists(dest)), nodes)
    case Overwrite => ApplyOutcome(Pass, nodes[dest := File(Merged(Overwrite, template, state.content))])
    case Append => ApplyOutcome(Pass, nodes[dest := File(Merged(Append, template, state.content))])
    case Prepend => ApplyOutcome(Pass, nodes[dest := File(Merged(Prepend, template, state.content))])
    case ForceOverwrite => ApplyOutcome(Pass, nodes[dest := File(Merged(ForceOverwrite, template, state.content))])
  }

  /** What `tempo apply` does: look the template up, read it, place it. */
  function ApplySpec(nodes: Nodes, templatesDir: Path, read: DirRead, templateName: string,
                     dest: Path, s: Strategy, force: bool): ApplyOutcome
  {
    match Find(nodes, templatesDir, read, templateName)
    case Err(e) => ApplyOutcome(Fail(e), nodes)
    case Ok(templateFile) =>
      if IsFile(nodes, templateFile) then Place(nodes, dest, nodes[templateFile].content, s, force)
      else ApplyOutcome(Fail(Io), nodes)
  }

  /** A failed lookup ends the command with the lookup's error before the
      destination is looked at. */
  lemma LookupFailureTouchesNothing(nodes: Nodes, templatesDir: Path, read: DirRead, templateName: string,
                                    dest: Path, s: Strategy, force: bool)
    requires Find(nodes, templatesDir, read, templateName).Err?
    ensures ApplySpec(nodes, templatesDir, read, templateName, dest, s, force) ==
            ApplyOutcome(Fail(Find(nodes, templatesDir, read, templateName).error), nodes)
    ensures ApplySpec(nodes, templatesDir, read, templateName, dest, s, force).result.error
            in {ReadDir(templatesDir), TemplateNotFound(templateName)}
  {
    FoundIsTemplateFile(nodes, templatesDir, read, templateName);
  }

  /** A found template is always readable, and its content is what gets placed. */
  lemma FoundTemplateIsPlaced(nodes: Nodes, templatesDir: Path, read: DirRead, templateName: string,
                              dest: Path, s: Strategy, force: bool)
    requires Find(nodes, templatesDir, read, templateName).Ok?
    ensures var found := Find(nodes, templatesDir, read, templateName).value;
            IsFile(nodes, found) &&
            ApplySpec(nodes, templatesDir, read, templateName, dest, s, force) ==
            Place(nodes, dest, nodes[found].content, s, force)
  {
    FoundIsTemplateFile(nodes, templatesDir, read, templateName);
  }

  /** An absent destination whose ancestors are no regular files is created
      with exactly the template's content, whatever the flags: every ancestor
      ends up a directory, the missing ones are created, and nothing that
      existed changes. */
  lemma CreatesAbsentDestination(nodes: Nodes, dest: Path, template: string, s: Strategy, force: bool)
    requires WellFormed(nodes)
    requires !Exists(nodes, dest)
    requires CanCreateDirs(nodes, Parent(dest))
    ensures var o := Place(nodes, dest, template, s, force);
            && o.result == Pass
            && o.nodes[dest] == File(template)
            && (forall q | q in Prefixes(Parent(dest)) :: IsDir(o.nodes, q))
            && (forall q | q in nodes :: q in o.nodes && o.nodes[q] == nodes[q])
            && o.nodes.Keys <= nodes.Keys + Prefixes(dest)
  {
    var parent := Parent(dest);
    assert Prefixes(dest) == Prefixes(parent) + {dest} by {
      forall q | q in Prefixes(dest) ensures q in Prefixes(parent) + {dest} {
        var k :| 1 <= k <= |dest| && q == dest[..k];
        if k < |dest| { assert q == parent[..k]; } else { assert q == dest; }
      }
      forall q | q in Prefixes(parent) ensures q in Prefixes(dest) {
        var k :| 1 <= k <= |parent| && q == parent[..k];
        assert q == dest[..k];
      }
      assert dest == dest[..|dest|];
    }
    if Exists(nodes, parent) {
      if parent != [] {
        assert parent == parent[..|parent|];
        assert parent in Prefixes(parent);
      }
      AncestorsAreDirs(nodes, parent);
    }
  }

  /** A directory destination is refused and nothing is written. */
  lemma DirectoryIsRefused(nodes: Nodes, dest: Path, template: string, s: Strategy, force: bool)
    requires IsDir(nodes, dest)
    ensures Place(nodes, dest, template, s, force) ==
            ApplyOutcome(Fail(DestinationIsDirectory(APPLY_ACTION, dest)), nodes)
  {
  }

  /** On an existing regular file: overwrite and force leave exactly the
      template, append leaves old ++ template, prepend leaves
      template ++ "\n" ++ old, and with neither a strategy nor force the
      command fails and the file is untouched. No other path changes. */
  lemma ExistingFileOutcomes(nodes: Nodes, dest: Path, template: string, s: Strategy, force: bool)
    requires IsFile(nodes, dest)
    ensures var existing := nodes[dest].content;
            var o := Place(nodes, dest, template, s, force);
            && (s.overwrite ==> o == ApplyOutcome(Pass, nodes[dest := File(template)]))
            && (!s.overwrite && s.append ==> o == ApplyOutcome(Pass, nodes[dest := File(existing + template)]))
            && (!s.overwrite && !s.append && s.prepend ==>
                  o == ApplyOutcome(Pass, nodes[dest := File(template + "\n" + existing)]))
            && (NoStrategy(s) && force ==> o == ApplyOutcome(Pass, nodes[dest := File(template)]))
            && (NoStrategy(s) && !force ==> o == ApplyOutcome(Fail(DestinationFileExists(dest)), nodes))
  {
    assert DestStateOf(nodes, dest) == RegularFile(nodes[dest].content);
  }

  /** Placing a template keeps a filesystem well-formed and changes no path
      other than the destination, apart from creating missing directories. */
  lemma PlaceKeepsWellFormed(nodes: Nodes, dest: Path, template: string, s: Strategy, force: bool)
    requires WellFormed(nodes)
    ensures var o := Place(nodes, dest, template, s, force);
            && WellFormed(o.nodes)
            && (forall q | q in nodes && q != dest :: q in o.nodes && o.nodes[q] == nodes[q])
            && (forall q | q in o.nodes && q !in nodes :: q == dest || q in Prefixes(dest))
  {
    var o := Place(nodes, dest, template, s, force);
    var state := DestStateOf(nodes, dest);
    match Decide(state, s, force)
    case Create =>
      var parent := Parent(dest);
      if Exists(nodes, parent) {
        if CanWrite(nodes, dest) { WriteWellFormed(nodes, dest, template); }
      } else if CanCreateDirs(nodes, parent) {
        WithDirsWellFormed(nodes, parent);
        var prepared := WithDirs(nodes, parent);
        if CanWrite(prepared, dest) { WriteWellFormed(prepared, dest, template); }
        forall q | q in Prefixes(parent) ensures q in Prefixes(dest) {
          var k :| 1 <= k <= |parent| && q == parent[..k];
          assert q == dest[..k];
        }
      }
    case RejectDirectory =>
    case RejectExisting =>
    case _ =>
      WriteWellFormed(nodes, dest, Merged(Decide(state, s, force), template, state.content));
  }

  /** `run` for `tempo apply`. Reading the template and writing the
      destination go through the filesystem's primitives; their `?` turns
      a failure into `AppError::Io`. */
  method Run(fs: FileSystem, templatesDir: Path, read: DirRead, templateName: string,
             dest: Path, s: Strategy, force: bool) returns (r: Outcome<AppError>)
    requires AtMostOneStrategy(s)
    modifies fs
    ensures ApplyOutcome(r, fs.nodes) ==
            ApplySpec(old(fs.nodes), templatesDir, read, templateName, dest, s, force)
  {
    var found := FindTemplatePath(fs, templatesDir, read, templateName);
    if found.Err? {
      return Fail(found.error);
    }
    var templateFile := found.value;
    if !IsFile(fs.nodes, templateFile) {
      return Fail(Io);
    }
    var content := fs.nodes[templateFile].content;

    var ok: bool;
    if Exists(fs.nodes, dest) {
      if IsDir(fs.nodes, dest) {
        return Fail(DestinationIsDirectory(APPLY_ACTION, dest));
      }
      if s.overwrite {
        ok := fs.Write(dest, content);
      } else if s.append {
        ok := fs.AppendTo(dest, content);
      } else if s.prepend {
        var original := fs.nodes[dest].content;
        ok := fs.Write(dest, content + "\n" + original);
      } else if force {
        ok := fs.Write(dest, content);
      } else {
        return Fail(DestinationFileExists(dest));
      }
    } else {
      var parent := Parent(dest);
      if !Exists(fs.nodes, parent) {
        var created := fs.CreateDirAll(parent);
        if !created {
          return Fail(Io);
        }
      }
      ok := fs.Write(dest, content);
    }
    r := if ok then Pass else Fail(Io);
  }
}
