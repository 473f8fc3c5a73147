/** `tempo show <name>` (src/commands/show.rs): finds the template by the
    directory scan and prints its content verbatim, adding one newline when
    standard output is a terminal and the content does not already end in one. */
module Show {
  import opened Basics
  import opened Paths
  import opened Storage
  import opened Errors
  import opened Lookup
  import Apply

  predicate EndsWithNewline(s: string)
  {
    s != [] && s[|s| - 1] == '\n'
  }

  /** What is written to standard output for `content`; `isTty` is what
      `atty::is(Stdout)` says. */
  function Printed(content: string, isTty: bool): string
  {
    if isTty && !EndsWithNewline(content) then content + "\n" else content
  }

  /** What the command does: the printed text, or the error it ends with.
      It fails exactly when the scan does, with the scan's error; reading a
      template the scan found never fails. */
  function ShowSpec(nodes: Nodes, templatesDir: Path, read: DirRead, name: string, isTty: bool): (r: Result<string, AppError>)
    ensures r.Ok? <==> Find(nodes, templatesDir, read, name).Ok?
    ensures r.Err? ==> r.error == Find(nodes, templatesDir, read, name).error &&
                       r.error in {ReadDir(templatesDir), TemplateNotFound(name)}
  {
    FoundIsTemplateFile(nodes, templatesDir, read, name);
    match Find(nodes, templatesDir, read, name)
    case Err(e) => Err(e)
    case Ok(templateFile) =>
      if IsFile(nodes, templateFile) then Ok(Printed(nodes[templateFile].content, isTty))
      else Err(Io)
  }

  /** The output starts with the content verbatim and adds at most one
      character, a newline, which is added exactly when the output is a
      terminal and the content lacks a trailing newline; content that already
      ends in a newline is printed unchanged. On a terminal the output always
      ends in a newline. */
  lemma PrintedProperties(content: string, isTty: bool)
    ensures |Printed(content, isTty)| - |content| in {0, 1}
    ensures Printed(content, isTty)[..|content|] == content
    ensures |Printed(content, isTty)| == |content| + 1 <==> isTty && !EndsWithNewline(content)
    ensures |Printed(content, isTty)| == |content| + 1 ==> Printed(content, isTty)[|content|] == '\n'
    ensures EndsWithNewline(content) || !isTty ==> Printed(content, isTty) == content
    ensures isTty ==> EndsWithNewline(Printed(content, isTty))
  {
  }

  /** A lookup failure is the command's error; a found template is always
      read, and what is printed is that file's content as `Printed` gives it. */
  lemma ShowUsesScan(nodes: Nodes, templatesDir: Path, read: DirRead, name: string, isTty: bool)
    ensures Find(nodes, templatesDir, read, name).Err? ==>
              ShowSpec(nodes, templatesDir, read, name, isTty) == Err(Find(nodes, templatesDir, read, name).error) &&
              ShowSpec(nodes, templatesDir, read, name, isTty).error in {ReadDir(templatesDir), TemplateNotFound(name)}
    ensures Find(nodes, templatesDir, read, name).Ok? ==>
              var p := Find(nodes, templatesDir, read, name).value;
              IsFile(nodes, p) && ShowSpec(nodes, templatesDir, read, name, isTty) == Ok(Printed(nodes[p].content, isTty))
    ensures ShowSpec(nodes, templatesDir, read, name, isTty).Ok? <==> Find(nodes, templatesDir, read, name).Ok?
  {
    FoundIsTemplateFile(nodes, templatesDir, read, name);
  }

  /** `show` off a terminal prints exactly what `apply` writes to an absent
      destination: the two commands find the same template and copy its
      content unchanged. */
  lemma ShowMatchesApply(nodes: Nodes, templatesDir: Path, read: DirRead, name: string,
                         dest: Path, s: Apply.Strategy, force: bool)
    requires WellFormed(nodes)
    requires !Exists(nodes, dest) && CanCreateDirs(nodes, Parent(dest))
    requires ShowSpec(nodes, templatesDir, read, name, false).Ok?
    ensures var o := Apply.ApplySpec(nodes, templatesDir, read, name, dest, s, force);
            o.result == Pass && o.nodes[dest] == File(ShowSpec(nodes, templatesDir, read, name, false).value)
  {
    ShowUsesScan(nodes, templatesDir, read, name, false);
    var p := Find(nodes, templatesDir, read, name).value;
    Apply.FoundTemplateIsPlaced(nodes, templatesDir, read, name, dest, s, force);
    Apply.CreatesAbsentDestination(nodes, dest, nodes[p].content, s, force);
  }
}
