/** `tempo list` (src/commands/list.rs): the regular files of the templates
    directory, sorted by raw file name, one line each showing the file stem
    and, when it is not empty, the extension. */
module List {
  import opened Basics
  import opened Paths
  import opened Storage
  import opened Errors
  import opened Lookup

  /** The order of `sort_by_key(file_name)`: character by character, a proper
      prefix first. Comparing characters by code point is comparing their
      UTF-8 encodings byte by byte, so this is the order of the raw names;
      upper case sorts before lower case. */
  predicate NameLeq(a: string, b: string)
    decreases |a|
  {
    a == [] || (b != [] && (a[0] < b[0] || (a[0] == b[0] && NameLeq(a[1..], b[1..]))))
  }

  lemma {:induction false} NameLeqTotal(a: string, b: string)
    ensures NameLeq(a, b) || NameLeq(b, a)
    decreases |a|
  {
    if a != [] && b != [] && a[0] == b[0] {
      NameLeqTotal(a[1..], b[1..]);
    }
  }

  lemma {:induction false} NameLeqTransitive(a: string, b: string, c: string)
    requires NameLeq(a, b) && NameLeq(b, c)
    ensures NameLeq(a, c)
    decreases |a|
  {
    if a != [] && a[0] == b[0] && b[0] == c[0] {
      NameLeqTransitive(a[1..], b[1..], c[1..]);
    }
  }

  lemma {:induction false} NameLeqAntisymmetric(a: string, b: string)
    requires NameLeq(a, b) && NameLeq(b, a)
    ensures a == b
    decreases |a|
  {
    if a != [] {
      NameLeqAntisymmetric(a[1..], b[1..]);
      assert a == [a[0]] + a[1..] && b == [b[0]] + b[1..];
    }
  }

  predicate SortedByName(s: seq<string>)
  {
    forall i, j | 0 <= i < j < |s| :: NameLeq(s[i], s[j])
  }

  /** `x` put in front of the first name it does not come after. */
  function InsertByName(x: string, s: seq<string>): seq<string>
  {
    if s == [] then [x]
    else if NameLeq(x, s[0]) then [x] + s
    else [s[0]] + InsertByName(x, s[1..])
  }

  /** The names sorted by `NameLeq`, as `sort_by_key` leaves them. */
  function SortByName(s: seq<string>): seq<string>
  {
    if s == [] then [] else InsertByName(s[0], SortByName(s[1..]))
  }

  lemma {:induction false} InsertByNameMultiset(x: string, s: seq<string>)
    ensures multiset(InsertByName(x, s)) == multiset(s) + multiset{x}
  {
    if s != [] && !NameLeq(x, s[0]) {
      InsertByNameMultiset(x, s[1..]);
      assert s == [s[0]] + s[1..];
    }
  }

  lemma SortedTail(s: seq<string>)
    requires SortedByName(s) && s != []
    ensures SortedByName(s[1..])
  {
    forall i, j | 0 <= i < j < |s[1..]| ensures NameLeq(s[1..][i], s[1..][j]) {
      assert s[1..][i] == s[i + 1] && s[1..][j] == s[j + 1];
    }
  }

  lemma SortedCons(x: string, s: seq<string>)
    requires SortedByName(s)
    requires forall y | y in s :: NameLeq(x, y)
    ensures SortedByName([x] + s)
  {
    var r := [x] + s;
    forall i, j | 0 <= i < j < |r| ensures NameLeq(r[i], r[j]) {
      assert r[j] == s[j - 1];
      if i > 0 {
        assert r[i] == s[i - 1];
      }
    }
  }

  lemma {:induction false} InsertByNameSorted(x: string, s: seq<string>)
    requires SortedByName(s)
    ensures SortedByName(InsertByName(x, s))
  {
    if s == [] {
    } else if NameLeq(x, s[0]) {
      forall y | y in s ensures NameLeq(x, y) {
        var j :| 0 <= j < |s| && s[j] == y;
        if j > 0 { NameLeqTransitive(x, s[0], s[j]); }
      }
      SortedCons(x, s);
    } else {
      var tail := InsertByName(x, s[1..]);
      SortedTail(s);
      InsertByNameSorted(x, s[1..]);
      InsertByNameMultiset(x, s[1..]);
      NameLeqTotal(x, s[0]);
      forall y | y in tail ensures NameLeq(s[0], y) {
        assert y in multiset(tail);
        if y != x {
          assert y in multiset(s[1..]);
          var j :| 0 <= j < |s[1..]| && s[1..][j] == y;
          assert s[j + 1] == y;
        }
      }
      SortedCons(s[0], tail);
    }
  }

  /** The sort yields a sorted permutation of its input. */
  lemma {:induction false} SortByNameCorrect(s: seq<string>)
    ensures SortedByName(SortByName(s))
    ensures multiset(SortByName(s)) == multiset(s)
  {
    if s != [] {
      SortByNameCorrect(s[1..]);
      InsertByNameSorted(s[0], SortByName(s[1..]));
      InsertByNameMultiset(s[0], SortByName(s[1..]));
      assert s == [s[0]] + s[1..];
    }
  }

  /** An entry the listing keeps: readable, and a regular file. */
  predicate Kept(nodes: Nodes, dir: Path, e: DirEntry)
  {
    e.Entry? && IsFile(nodes, Join(dir, e.name))
  }

  /** The names of the kept entries, in iteration order. */
  function Files(nodes: Nodes, dir: Path, entries: seq<DirEntry>): seq<string>
  {
    if entries == [] then []
    else
      var last := entries[|entries| - 1];
      Files(nodes, dir, entries[..|entries| - 1]) + (if Kept(nodes, dir, last) then [last.name] else [])
  }

  /** A name is collected exactly when some entry by that name is a regular
      file; unreadable entries and everything that is not a regular file are
      skipped. */
  lemma {:induction false} FilesCharacterized(nodes: Nodes, dir: Path, entries: seq<DirEntry>)
    ensures forall x :: x in Files(nodes, dir, entries) <==> Entry(x) in entries && IsFile(nodes, Join(dir, x))
  {
    if entries != [] {
      var init := entries[..|entries| - 1];
      FilesCharacterized(nodes, dir, init);
      assert entries == init + [entries[|entries| - 1]];
    }
  }

  /** One line of the listing: the file stem, and the extension shown as
      "(.ext)" when there is one. */
  datatype Line = Line(stem: string, extension: Option<string>)

  /** The line for a file name; an empty extension is not shown. */
  function LineOf(fileName: string): Line
  {
    var shown := match Extension(fileName)
                 case Some(e) => if e == "" then None else Some(e)
                 case None => None;
    Line(FileStem(fileName), shown)
  }

  /** A line gives the file name back: stem, ".", extension when the extension
      is shown, and otherwise the stem alone or followed by a bare dot. */
  lemma LineRoundTrip(fileName: string)
    ensures LineOf(fileName).extension.Some? ==>
              var e := LineOf(fileName).extension.value;
              e != "" && '.' !in e && LineOf(fileName).stem != "" && LineOf(fileName).stem + "." + e == fileName
    ensures LineOf(fileName).extension.None? ==>
              fileName == LineOf(fileName).stem || fileName == LineOf(fileName).stem + "."
    ensures LineOf(fileName).extension.Some? <==> Extension(fileName).Some? && Extension(fileName).value != ""
  {
    StemAndExtension(fileName);
  }

  /** What the command prints: the "No templates found" message, or one line per file. */
  datatype Listing = NoTemplates | Lines(lines: seq<Line>)

  function LinesOf(names: seq<string>): (r: seq<Line>)
    ensures |r| == |names|
  {
    seq(|names|, i requires 0 <= i < |names| => LineOf(names[i]))
  }

  /** What the command does; a directory that cannot be read is an `Io` error. */
  function ListSpec(nodes: Nodes, templatesDir: Path, read: DirRead): Result<Listing, AppError>
  {
    match read
    case ReadFailed => Err(Io)
    case Listed(entries) =>
      var files := Files(nodes, templatesDir, entries);
      if files == [] then Ok(NoTemplates)
      else Ok(Lines(LinesOf(SortByName(files))))
  }

  /** The listing is empty exactly when no entry is a readable regular file. */
  lemma NoFilesIffNothingKept(nodes: Nodes, dir: Path, entries: seq<DirEntry>)
    ensures Files(nodes, dir, entries) == [] <==> forall i | 0 <= i < |entries| :: !Kept(nodes, dir, entries[i])
  {
    FilesCharacterized(nodes, dir, entries);
    var files := Files(nodes, dir, entries);
    if files != [] {
      assert files[0] in files;
    }
  }

  /** A readable directory is always listed. The "No templates found" message
      comes exactly when no entry is a readable regular file. Otherwise the
      lines follow a sorted permutation of the collected names, one line per
      name, and every listed name is a regular file of the directory. */
  lemma ListingProperties(nodes: Nodes, templatesDir: Path, entries: seq<DirEntry>)
    ensures ListSpec(nodes, templatesDir, Listed(entries)).Ok?
    ensures ListSpec(nodes, templatesDir, Listed(entries)).value == NoTemplates <==>
              forall i | 0 <= i < |entries| :: !Kept(nodes, templatesDir, entries[i])
    ensures ListSpec(nodes, templatesDir, Listed(entries)).value.Lines? ==>
              var names := SortByName(Files(nodes, templatesDir, entries));
              var lines := ListSpec(nodes, templatesDir, Listed(entries)).value.lines;
              && SortedByName(names)
              && multiset(names) == multiset(Files(nodes, templatesDir, entries))
              && |lines| == |names|
              && (forall i | 0 <= i < |names| :: lines[i] == LineOf(names[i]))
              && (forall x | x in names :: Entry(x) in entries && IsFile(nodes, Join(templatesDir, x)))
  {
    var files := Files(nodes, templatesDir, entries);
    NoFilesIffNothingKept(nodes, templatesDir, entries);
    FilesCharacterized(nodes, templatesDir, entries);
    SortByNameCorrect(files);
    var names := SortByName(files);
    forall x | x in names ensures x in files {
      assert x in multiset(names);
    }
  }

  /** Over a listing of the directory in which every entry was read, the
      names collected are exactly the directory's regular files: the listing
      shows each of them, and says "No templates found" exactly when there is
      none. */
  lemma ListsEveryFile(nodes: Nodes, templatesDir: Path, entries: seq<DirEntry>)
    requires Enumerates(nodes, templatesDir, entries) && AllRead(entries)
    ensures forall n :: n in Files(nodes, templatesDir, entries) <==> IsFile(nodes, Join(templatesDir, n))
    ensures ListSpec(nodes, templatesDir, Listed(entries)) == Ok(NoTemplates) <==>
              forall n :: !IsFile(nodes, Join(templatesDir, n))
  {
    FilesCharacterized(nodes, templatesDir, entries);
    forall n | IsFile(nodes, Join(templatesDir, n)) ensures Entry(n) in entries {
      var p := Join(templatesDir, n);
      assert p != [] && Parent(p) == templatesDir && FileName(p) == n;
    }
    var files := Files(nodes, templatesDir, entries);
    if files != [] {
      assert files[0] in files;
    }
  }

  /** The order is the raw one: "Zeta" comes before "alpha", and a name
      comes before its extensions. */
  lemma OrderExamples()
    ensures NameLeq("Zeta", "alpha") && !NameLeq("alpha", "Zeta")
    ensures NameLeq("beta", "beta.rs") && !NameLeq("beta.rs", "beta")
  {
  }

  /** A templates directory holding three files and a subdirectory, and its
      entries in the order a host might yield them, one unreadable. */
  const EXAMPLE_NODES: Nodes := map[["tpl"] := Dir, ["tpl", "gamma_tpl"] := File(""), ["tpl", "beta.rs"] := File(""),
                                    ["tpl", "alpha.txt"] := File(""), ["tpl", "sub"] := Dir]
  const EXAMPLE_ENTRIES := [Entry("gamma_tpl"), Entry("sub"), EntryError, Entry("beta.rs"), Entry("alpha.txt")]

  lemma ExampleFiles()
    ensures Files(EXAMPLE_NODES, ["tpl"], EXAMPLE_ENTRIES) == ["gamma_tpl", "beta.rs", "alpha.txt"]
  {
    var e1 := [Entry("gamma_tpl")];
    var e2 := e1 + [Entry("sub")];
    var e3 := e2 + [EntryError];
    var e4 := e3 + [Entry("beta.rs")];
    assert EXAMPLE_ENTRIES == e4 + [Entry("alpha.txt")];
    assert e4[..3] == e3 && e3[..2] == e2 && e2[..1] == e1 && e1[..0] == [];
    var names := ["gamma_tpl", "beta.rs", "alpha.txt", "sub"];
    forall i, j | 0 <= i < j < 4 ensures ["tpl", names[i]] != ["tpl", names[j]] {
      assert names[i][0] != names[j][0];
      assert ["tpl", names[i]][1] != ["tpl", names[j]][1];
    }
    forall n | n in names ensures Join(["tpl"], n) == ["tpl", n] { }
    assert Kept(EXAMPLE_NODES, ["tpl"], Entry("gamma_tpl")) && !Kept(EXAMPLE_NODES, ["tpl"], Entry("sub"));
    assert Kept(EXAMPLE_NODES, ["tpl"], Entry("beta.rs")) && Kept(EXAMPLE_NODES, ["tpl"], Entry("alpha.txt"));
    assert Files(EXAMPLE_NODES, ["tpl"], e1) == ["gamma_tpl"];
    assert Files(EXAMPLE_NODES, ["tpl"], e3) == ["gamma_tpl"];
  }

  lemma ExampleSort()
    ensures SortByName(["gamma_tpl", "beta.rs", "alpha.txt"]) == ["alpha.txt", "beta.rs", "gamma_tpl"]
  {
    var files := ["gamma_tpl", "beta.rs", "alpha.txt"];
    assert files[1..] == ["beta.rs", "alpha.txt"] && files[1..][1..] == ["alpha.txt"];
    assert !NameLeq("beta.rs", "alpha.txt") && !NameLeq("gamma_tpl", "alpha.txt") && !NameLeq("gamma_tpl", "beta.rs");
    assert InsertByName("beta.rs", ["alpha.txt"]) == ["alpha.txt", "beta.rs"];
    assert InsertByName("gamma_tpl", ["beta.rs"]) == ["beta.rs", "gamma_tpl"];
    assert SortByName(files[1..][1..]) == ["alpha.txt"];
    assert SortByName(files[1..]) == ["alpha.txt", "beta.rs"];
  }

  /** The line of a name built from a stem and a non-empty extension. */
  lemma LineOfJoined(stem: string, ext: string)
    requires stem != [] && ext != [] && '.' !in ext
    ensures LineOf(stem + "." + ext) == Line(stem, Some(ext))
  {
    SplitJoined(stem, ext);
  }

  lemma ExampleLines()
    ensures LinesOf(["alpha.txt", "beta.rs", "gamma_tpl"]) ==
              [Line("alpha", Some("txt")), Line("beta", Some("rs")), Line("gamma_tpl", None)]
  {
    var names := ["alpha.txt", "beta.rs", "gamma_tpl"];
    var lines := LinesOf(names);
    assert lines[0] == Line("alpha", Some("txt")) by {
      LineOfJoined("alpha", "txt");
      assert "alpha" + "." + "txt" == names[0];
    }
    assert lines[1] == Line("beta", Some("rs")) by {
      LineOfJoined("beta", "rs");
      assert "beta" + "." + "rs" == names[1];
    }
    assert lines[2] == Line("gamma_tpl", None) by {
      StemExamples();
    }
  }

  /** The three files are listed as "alpha (.txt)", "beta (.rs)" and
      "gamma_tpl", in that order; the subdirectory and the unreadable entry
      are skipped. */
  lemma ListingExample()
    ensures ListSpec(EXAMPLE_NODES, ["tpl"], Listed(EXAMPLE_ENTRIES)) ==
              Ok(Lines([Line("alpha", Some("txt")), Line("beta", Some("rs")), Line("gamma_tpl", None)]))
  {
    ExampleFiles();
    ExampleSort();
    ExampleLines();
  }

  /** `run`: the kept entries are collected in iteration order, sorted, and
      turned into lines one by one. */
  method Run(fs: FileSystem, templatesDir: Path, read: DirRead) returns (r: Result<Listing, AppError>)
    ensures r == ListSpec(fs.nodes, templatesDir, read)
  {
    if read.ReadFailed? {
      return Err(Io);
    }
    var entries := read.entries;
    var files: seq<string> := [];
    for i := 0 to |entries|
      invariant files == Files(fs.nodes, templatesDir, entries[..i])
    {
      assert entries[..i + 1][..i] == entries[..i];
      var e := entries[i];
      if e.Entry? && IsFile(fs.nodes, Join(templatesDir, e.name)) {
        files := files + [e.name];
      }
    }
    assert entries[..|entries|] == entries;
    if files == [] {
      return Ok(NoTemplates);
    }
    var sorted := SortByName(files);
    var lines: seq<Line> := [];
    for i := 0 to |sorted|
      invariant |lines| == i
      invariant forall k | 0 <= k < i :: lines[k] == LineOf(sorted[k])
    {
      lines := lines + [LineOf(sorted[i])];
    }
    assert lines == LinesOf(sorted);
    r := Ok(Lines(lines));
  }
}
