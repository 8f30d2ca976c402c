/** generate_java_sorts.py: for every registered name, a folder holding the
    two sorting classes (modelled and verified in BubbleSort and QuickSort),
    a `Main.java` that runs both, and a `README.md` naming the folder. Both
    `Main.java` and `README.md` come from `str.format` with one argument,
    `name`. */
module JavaSorts {
  import opened Templates
  import opened Output

  const NameKey: string := "name"

  /** Literal text of a format string: every brace doubled. */
  type FormatText = s: string | Escaped(s) witness ""

  /** Text without any brace. */
  type BraceFreeText = s: string | Plain(s) witness ""

  /** `BUBBLE_SRC`, written as it is; `BubbleSort.Sort` is its method. */
  const BubbleSource: string        // lines 29-47
  /** `QUICK_SRC`, written as it is; `QuickSort.Sort`, `Quick` and
      `Partition` are its methods. */
  const QuickSource: string         // lines 51-78

  /** The arguments of `.format(name=name)`. */
  function Args(name: string): map<string, string>
  {
    map[NameKey := name]
  }

  // ---------------------------------------------------------------------
  // Main.java

  const MainBody: FormatText        // `MAIN_TEMPLATE` up to its last line, lines 82-105

  /** `MAIN_TEMPLATE`: Java text with doubled braces and no field; its last
      line closes the class. */
  const MainTemplate: Template := [Lit(MainBody), Lit("}}\n")]

  lemma MainReady(name: string)
    ensures FormatReady(MainTemplate, Args(name))
    ensures Expand(MainTemplate, Args(name)) == Unescape(MainBody) + "}\n"
  {
    ClosingLine("");
    assert "" + "}}\n" == "}}\n" && "" + "}\n" == "}\n";
    ExpandLitLit(MainBody, "}}\n", Args(name));
  }

  /** The `Main.java` written for `name`. */
  function MainJava(name: string): string
  {
    MainReady(name);
    Expand(MainTemplate, Args(name))
  }

  /** `MAIN_TEMPLATE.format(name=name)` succeeds, every doubled brace
      becomes one, and the text does not depend on the name: every folder
      gets the same `Main.java`. */
  lemma MainJavaFormats(name: string)
    ensures Format(Source(MainTemplate), Args(name)) == Ok(MainJava(name))
    ensures MainJava(name) == Unescape(MainBody) + "}\n"
  {
    MainReady(name);
    FormatExpands(MainTemplate, Args(name));
  }

  // ---------------------------------------------------------------------
  // README.md

  const ReadmeBody: BraceFreeText   // from the line break after the heading, lines 110-123

  /** `README_FOLDER`: a heading with the folder's name, then fixed text. */
  const ReadmeTemplate: Template := [Lit("# "), Field(NameKey), Lit(ReadmeBody)]

  lemma ReadmeReady(name: string)
    ensures FormatReady(ReadmeTemplate, Args(name))
    ensures Expand(ReadmeTemplate, Args(name)) == "# " + (name + ReadmeBody)
  {
    PlainEscaped("# ");
    PlainEscaped(ReadmeBody);
    ExpandLitFieldLit("# ", NameKey, ReadmeBody, Args(name));
  }

  /** The `README.md` written for `name`. */
  function FolderReadme(name: string): string
  {
    ReadmeReady(name);
    Expand(ReadmeTemplate, Args(name))
  }

  /** `README_FOLDER.format(name=name)` succeeds and puts the name, as it
      is, in the heading. */
  lemma FolderReadmeFormats(name: string)
    ensures Format(Source(ReadmeTemplate), Args(name)) == Ok(FolderReadme(name))
    ensures FolderReadme(name) == "# " + (name + ReadmeBody)
  {
    ReadmeReady(name);
    FormatExpands(ReadmeTemplate, Args(name));
  }

  /** Different folders get different READMEs. */
  lemma FolderReadmeInjective(n1: string, n2: string)
    requires FolderReadme(n1) == FolderReadme(n2)
    ensures n1 == n2
  {
    FolderReadmeFormats(n1);
    FolderReadmeFormats(n2);
    MiddleInjective("# ", n1, n2, ReadmeBody);
  }

  lemma MiddleInjective(a: string, x: string, y: string, b: string)
    requires a + (x + b) == a + (y + b)
    ensures x == y
  {
    var r := a + (x + b);
    assert |x| == |y|;
    assert x == r[|a|..|a| + |x|];
    assert y == (a + (y + b))[|a|..|a| + |y|];
  }

  // ---------------------------------------------------------------------
  // The folders

  function FolderFiles(name: string): Files
  {
    map[
      "src/BubbleSort.java" := BubbleSource,
      "src/QuickSort.java" := QuickSource,
      "src/Main.java" := MainJava(name),
      "README.md" := FolderReadme(name)
    ]
  }

  function FolderRels(names: seq<string>): (rels: seq<Files>)
    ensures |rels| == |names|
  {
    seq(|names|, i requires 0 <= i < |names| => FolderFiles(names[i]))
  }

  /** `main`: one folder per name, in order; `created` lists the folders
      that go into the archive. */
  method Generate(names: seq<string>) returns (created: seq<string>, files: Files)
    ensures created == names
    ensures files == Tree(names, FolderRels(names))
  {
    created, files := WriteFolders(names, FolderRels(names));
  }

  /** A folder holds exactly the three Java sources and the README. */
  lemma FolderContents(name: string, x: string)
    ensures x in FolderFiles(name) <==>
      x == "src/BubbleSort.java" || x == "src/QuickSort.java" || x == "src/Main.java" || x == "README.md"
    ensures FolderFiles(name)["src/BubbleSort.java"] == BubbleSource
    ensures FolderFiles(name)["src/QuickSort.java"] == QuickSource
    ensures FolderFiles(name)["src/Main.java"] == MainJava(name)
    ensures FolderFiles(name)["README.md"] == FolderReadme(name)
  {
  }

  /** With distinct single-component names, folder `i` of the output holds
      exactly the files laid out for `names[i]`. */
  lemma SortsLayout(names: seq<string>, i: nat, x: string)
    requires FolderNames(names) && i < |names|
    ensures Path(names[i], x) in Tree(names, FolderRels(names)) <==> x in FolderFiles(names[i])
    ensures x in FolderFiles(names[i]) ==>
      Tree(names, FolderRels(names))[Path(names[i], x)] == FolderFiles(names[i])[x]
  {
    TreeFolder(names, FolderRels(names), i, x);
    assert FolderRels(names)[i] == FolderFiles(names[i]);
  }
}
