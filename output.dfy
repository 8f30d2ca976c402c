/** The output of a generator run, seen as what ends up on disk and in the zip
    archive: a map from a path relative to the working directory to the text
    written there. A later write to the same path replaces the earlier one. */
module Output {

  type Files = map<string, string>

  predicate SlashFree(name: string)
  {
    forall i :: 0 <= i < |name| ==> name[i] != '/'
  }

  predicate Distinct(names: seq<string>)
  {
    forall i, j :: 0 <= i < j < |names| ==> names[i] != names[j]
  }

  /** The folder names a generator can lay out side by side: distinct, and
      each a single path component. */
  predicate FolderNames(names: seq<string>)
  {
    Distinct(names) && forall i :: 0 <= i < |names| ==> SlashFree(names[i])
  }

  function Path(folder: string, rel: string): string
  {
    folder + "/" + rel
  }

  /** Index of the first `/` in `s`, or `|s|`. */
  function FirstSlash(s: string, from: nat): (j: nat)
    requires from <= |s|
    ensures from <= j <= |s|
    ensures j < |s| ==> s[j] == '/'
    ensures forall k :: from <= k < j ==> s[k] != '/'
    decreases |s| - from
  {
    if from == |s| || s[from] == '/' then from else FirstSlash(s, from + 1)
  }

  /** A path under a single-component folder names the folder and the
      relative path uniquely. */
  lemma PathSplit(folder: string, rel: string)
    requires SlashFree(folder)
    ensures FirstSlash(Path(folder, rel), 0) == |folder|
    ensures Path(folder, rel)[..|folder|] == folder
    ensures Path(folder, rel)[|folder| + 1..] == rel
  {
    var s := Path(folder, rel);
    assert s[|folder|] == '/';
    assert forall k :: 0 <= k < |folder| ==> s[k] == folder[k];
  }

  lemma PathInjective(f1: string, r1: string, f2: string, r2: string)
    requires SlashFree(f1) && SlashFree(f2)
    ensures Path(f1, r1) == Path(f2, r2) ==> f1 == f2 && r1 == r2
  {
    PathSplit(f1, r1);
    PathSplit(f2, r2);
  }

  /** The files of one folder, keyed by their path below the working directory. */
  function Under(folder: string, rel: Files): (m: Files)
    ensures forall x :: x in rel ==> Path(folder, x) in m && m[Path(folder, x)] == rel[x]
    ensures forall key :: key in m ==> exists x :: x in rel && key == Path(folder, x)
  {
    PathsDiffer(folder);
    map x | x in rel :: Path(folder, x) := rel[x]
  }

  /** Below one folder, different relative paths give different paths. */
  lemma PathsDiffer(folder: string)
    ensures forall x, y :: Path(folder, x) == Path(folder, y) ==> x == y
  {
    forall x, y | Path(folder, x) == Path(folder, y)
      ensures x == y
    {
      assert Path(folder, x)[|folder| + 1..] == x;
      assert Path(folder, y)[|folder| + 1..] == y;
    }
  }

  /** The files written by the per-name loop, folder after folder. */
  function Tree(names: seq<string>, rels: seq<Files>): Files
    requires |names| == |rels|
  {
    if names == [] then map[]
    else
      var n := |names| - 1;
      Tree(names[..n], rels[..n]) + Under(names[n], rels[n])
  }

  /** With distinct folder names, folder `i` of the tree holds exactly the
      files laid out for it, with their contents. */
  lemma {:induction false} TreeFolder(names: seq<string>, rels: seq<Files>, i: nat, x: string)
    requires |names| == |rels| && FolderNames(names)
    requires i < |names|
    ensures Path(names[i], x) in Tree(names, rels) <==> x in rels[i]
    ensures x in rels[i] ==> Tree(names, rels)[Path(names[i], x)] == rels[i][x]
  {
    var n := |names| - 1;
    if i == n {
      LastFolder(names, rels, x);
    } else {
      PrefixFolderNames(names, n);
      TreeFolder(names[..n], rels[..n], i, x);
      assert names[..n][i] == names[i] && rels[..n][i] == rels[i];
      NotUnder(names[i], x, names[n], rels[n]);
    }
  }

  /** The last folder's files are those it lays out: no earlier folder has
      any file below it. */
  lemma LastFolder(names: seq<string>, rels: seq<Files>, x: string)
    requires |names| == |rels| && FolderNames(names) && names != []
    ensures var n := |names| - 1;
      (Path(names[n], x) in Tree(names, rels) <==> x in rels[n])
      && (x in rels[n] ==> Tree(names, rels)[Path(names[n], x)] == rels[n][x])
  {
    var n := |names| - 1;
    PathsDiffer(names[n]);
    NotInTree(names[..n], rels[..n], names[n], x);
  }

  lemma PrefixFolderNames(names: seq<string>, n: nat)
    requires FolderNames(names) && n <= |names|
    ensures FolderNames(names[..n])
  {
  }

  lemma NotUnder(f: string, x: string, g: string, rel: Files)
    requires SlashFree(f) && SlashFree(g) && f != g
    ensures Path(f, x) !in Under(g, rel)
  {
    forall y | y in rel
      ensures Path(f, x) != Path(g, y)
    {
      PathInjective(f, x, g, y);
    }
  }

  /** A folder not among `names` has no file in their tree. */
  lemma {:induction false} NotInTree(names: seq<string>, rels: seq<Files>, f: string, x: string)
    requires |names| == |rels|
    requires forall i :: 0 <= i < |names| ==> SlashFree(names[i]) && names[i] != f
    requires SlashFree(f)
    ensures Path(f, x) !in Tree(names, rels)
  {
    if names != [] {
      var n := |names| - 1;
      NotInTree(names[..n], rels[..n], f, x);
      NotUnder(f, x, names[n], rels[n]);
    }
  }

  /** Every file of the tree lies in one of the folders. */
  lemma {:induction false} TreeOnlyFolders(names: seq<string>, rels: seq<Files>, key: string)
    requires |names| == |rels|
    requires key in Tree(names, rels)
    ensures exists j, y :: 0 <= j < |names| && y in rels[j] && key == Path(names[j], y)
  {
    var n := |names| - 1;
    if key in Under(names[n], rels[n]) {
      var y :| y in rels[n] && key == Path(names[n], y);
      assert n < |names| && y in rels[n] && key == Path(names[n], y);
    } else {
      TreeOnlyFolders(names[..n], rels[..n], key);
      var j, y :| 0 <= j < n && y in rels[..n][j] && key == Path(names[..n][j], y);
      assert y in rels[j] && key == Path(names[j], y);
    }
  }

  /** Appending a folder extends the tree by that folder's files. */
  lemma TreeSnoc(names: seq<string>, rels: seq<Files>, name: string, rel: Files)
    requires |names| == |rels|
    ensures Tree(names + [name], rels + [rel]) == Tree(names, rels) + Under(name, rel)
  {
    assert (names + [name])[..|names|] == names;
    assert (rels + [rel])[..|rels|] == rels;
  }

  /** The loop all three generators run: for each name in turn, write that
      folder's files (`rels[i]` below `names[i]`) and append the folder to
      `created`. */
  method WriteFolders(names: seq<string>, rels: seq<Files>) returns (created: seq<string>, files: Files)
    requires |names| == |rels|
    ensures created == names
    ensures files == Tree(names, rels)
  {
    created, files := [], map[];
    ghost var laid: seq<Files> := [];
    var i := 0;
    while i < |names|
      invariant i <= |names| && |created| == |laid| == i
      invariant forall j :: 0 <= j < i ==> created[j] == names[j] && laid[j] == rels[j]
      invariant files == Tree(created, laid)
    {
      TreeSnoc(created, laid, names[i], rels[i]);
      files := files + Under(names[i], rels[i]);
      created := created + [names[i]];
      laid := laid + [rels[i]];
      i := i + 1;
    }
    assert created == names;
    assert laid == rels;
  }
}
