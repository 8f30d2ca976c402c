/** generate_sites.py: for every registered name, a static web site of five
    files whose colour hue comes from the folder's position in the list.

    `make_css`, `make_index_html` and `make_folder_readme` pass their
    f-string through `textwrap.dedent`. Each has a line at column 0
    (`:root{`, `<!doctype html>`, `# {title}`), so the common margin is empty
    and dedent changes nothing, as long as the title holds no line break.
    `make_avatar_svg` is not dedented. A builder is modelled as its fixed
    text around the slots it fills; the fixed text is opaque. */
module Sites {
  import opened Strings
  import opened Output
  import Registry

  // ---------------------------------------------------------------------
  // Hue

  /** `max(1, n)`. */
  function AtLeastOne(n: nat): (m: nat)
    ensures m >= 1 && (n >= 1 ==> m == n)
  {
    if n < 1 then 1 else n
  }

  /** `int((i * 360 / max(1, n)) % 360)`, on integers: for non-negative
      operands truncating the float equals flooring, and flooring commutes
      with the reduction modulo 360. */
  function Hue(i: nat, n: nat): (h: nat)
    ensures h < 360
  {
    (i * 360 / AtLeastOne(n)) % 360
  }

  /** Inside the list the reduction modulo 360 never applies. */
  lemma HueInRange(i: nat, n: nat)
    requires i < n
    ensures Hue(i, n) == i * 360 / n
  {
    assert i * 360 < n * 360;
    DivBelow(i * 360, n, 360);
  }

  lemma DivBelow(a: nat, n: nat, c: nat)
    requires n > 0 && a < n * c
    ensures a / n < c
  {
    var q := a / n;
    assert n * q <= a;
    assert n * (c - q) == n * c - n * q > 0;
  }

  lemma DivStep(a: nat, b: nat, n: nat)
    requires n > 0 && a + n <= b
    ensures a / n < b / n
  {
    var q, r := a / n, b / n;
    assert n * q + n <= b;
    assert b < n * r + n;
    assert n * q < n * r;
  }

  /** With at most 360 folders, each folder's hue is larger than the one
      before: the step `360 / n` is at least 1. */
  lemma HueIncreasing(i: nat, j: nat, n: nat)
    requires i < j < n <= 360
    ensures Hue(i, n) < Hue(j, n)
  {
    HueInRange(i, n);
    HueInRange(j, n);
    assert i * 360 + 360 <= j * 360;
    DivStep(i * 360, j * 360, n);
  }

  /** The 42 registered names get 42 distinct hues, from 0 up to 351. */
  lemma RegistryHues(i: nat, j: nat)
    requires i < j < |Registry.Names|
    ensures Hue(i, |Registry.Names|) < Hue(j, |Registry.Names|)
    ensures Hue(0, |Registry.Names|) == 0 && Hue(41, |Registry.Names|) == 351
  {
    assert |Registry.Names| == 42;
    HueIncreasing(i, j, 42);
  }

  // ---------------------------------------------------------------------
  // styles.css

  /** The stylesheet text after the hue: it continues with `;`. */
  type CssRules = s: string | |s| > 0 && s[0] == ';' witness ";"

  const CssHead: string := "\n:root{\n  --h:"
  const CssRest: CssRules         // from `;` after the hue to the end, lines 73-91

  /** `make_css(hue)`: the hue is the value of the `--h` custom property. */
  function Css(hue: nat): string
  {
    CssHead + Decimal(hue) + CssRest
  }

  /** The `--h` value can be read back: distinct hues give distinct
      stylesheets. */
  lemma CssInjective(h1: nat, h2: nat)
    requires Css(h1) == Css(h2)
    ensures h1 == h2
  {
    DelimitedDecimal(CssHead, h1, h2, CssRest, CssRest);
  }

  // ---------------------------------------------------------------------
  // app.js

  /** `make_js()`: the same script for every folder, lines 96-120. */
  const Js: string

  // ---------------------------------------------------------------------
  // assets/avatar.svg

  /** `name[:2] if len(name) >= 2 else name`, upper-cased. */
  function Initial(name: string): (r: string)
    ensures |r| == Min(2, |name|)
    ensures forall k :: 0 <= k < |r| ==> r[k] == UpperChar(name[k])
  {
    Upper(if |name| >= 2 then name[..2] else name)
  }

  /** The text after the hue in the SVG: it continues with a space. */
  type SvgAfterHue = s: string | |s| > 0 && s[0] == ' ' witness " "

  const SvgHead: string           // `<svg ...>` and `<rect ... fill="hsl(`, lines 125-126
  const SvgMiddle: SvgAfterHue    // from ` 70% 55%)` to the opening `<text ...>`, lines 126-127
  const SvgTail: string := "</text>\n</svg>"

  /** `make_avatar_svg(name, hue)`: the hue in the fill colour, the escaped
      initial in the text element. */
  function Avatar(name: string, hue: nat): string
  {
    SvgHead + Decimal(hue) + (SvgMiddle + HtmlEscape(Initial(name)) + SvgTail)
  }

  /** The fill hue can be read back from the avatar. */
  lemma AvatarHue(n1: string, h1: nat, n2: string, h2: nat)
    requires Avatar(n1, h1) == Avatar(n2, h2)
    ensures h1 == h2
  {
    var r1 := SvgMiddle + HtmlEscape(Initial(n1)) + SvgTail;
    var r2 := SvgMiddle + HtmlEscape(Initial(n2)) + SvgTail;
    DelimitedDecimal(SvgHead, h1, h2, r1, r2);
  }

  // ---------------------------------------------------------------------
  // index.html and README.md

  const IndexHead: string         // doctype to `<title>`, lines 133-138
  const IndexTitleEnd: string     // ` - 个人静态站</title>` to `<h1 ...>`, lines 138-147
  const IndexHeadingEnd: string   // `</h1>` to `<strong>`, lines 147-162
  const IndexAboutEnd: string     // `</strong>` to the footer's `本示例站 - `, lines 162-183
  const IndexTail: string         // `</footer>` to `</html>`, lines 183-187

  /** The fixed text of index.html around its four title slots. */
  const IndexParts: seq<string> := [IndexHead, IndexTitleEnd, IndexHeadingEnd, IndexAboutEnd, IndexTail]

  /** `make_index_html(title, name)`: the escaped title at each of the four
      slots (`name` is unused). */
  function IndexHtml(title: string): string
  {
    Splice(IndexParts, HtmlEscape(title))
  }

  /** Each of the four slots of index.html holds the escaped title, which no
      markup character of the title survives and from which the title can be
      read back. */
  lemma IndexEscapesTitle(title: string, k: nat)
    requires k < 4
    ensures var e := HtmlEscape(title);
      IndexHtml(title) == Splice(IndexParts[..k + 1], e) + e + Splice(IndexParts[k + 1..], e)
      && HtmlUnescape(e) == title
      && forall i :: 0 <= i < |e| ==> e[i] != '<' && e[i] != '>' && e[i] != '"' && e[i] != '\''
  {
    SpliceSlot(IndexParts, HtmlEscape(title), k);
    HtmlEscapeRoundTrip(title);
  }

  /** For a title without markup characters, index.html shows it verbatim. */
  lemma IndexPlainTitle(title: string)
    requires forall i :: 0 <= i < |title| ==> !HtmlSpecial(title[i])
    ensures IndexHtml(title) == Splice(IndexParts, title)
  {
  }

  const ReadmeHead: string := "\n# "
  const ReadmeMiddle: string := "\n\n这是为 `"
  const ReadmeTail: string        // from the closing backquote to the end, lines 194-202

  /** `make_folder_readme(title)`: the title as it is, in the heading and
      in the first sentence. */
  function FolderReadme(title: string): string
  {
    Splice([ReadmeHead, ReadmeMiddle, ReadmeTail], title)
  }

  /** The README carries the raw title, unescaped, twice. */
  lemma ReadmeRawTitle(title: string)
    ensures FolderReadme(title) == ReadmeHead + title + (ReadmeMiddle + title + ReadmeTail)
  {
    var parts := [ReadmeHead, ReadmeMiddle, ReadmeTail];
    assert parts[1..] == [ReadmeMiddle, ReadmeTail];
    assert parts[1..][1..] == [ReadmeTail];
    assert Splice(parts[1..][1..], title) == ReadmeTail;
    assert Splice(parts[1..], title) == ReadmeMiddle + title + ReadmeTail;
  }

  /** The title can be read back from the README: different titles give
      different READMEs. */
  lemma ReadmeTitleInjective(t1: string, t2: string)
    requires FolderReadme(t1) == FolderReadme(t2)
    ensures t1 == t2
  {
    ReadmeRawTitle(t1);
    ReadmeRawTitle(t2);
    TwiceInjective(ReadmeHead, t1, t2, ReadmeMiddle, ReadmeTail);
  }

  lemma TwiceInjective(a: string, x: string, y: string, m: string, z: string)
    requires a + x + (m + x + z) == a + y + (m + y + z)
    ensures x == y
  {
    var r := a + x + (m + x + z);
    assert |r| == |a| + 2 * |x| + |m| + |z|;
    assert |x| == |y|;
    assert x == (a + x + (m + x + z))[|a|..|a| + |x|];
    assert y == (a + y + (m + y + z))[|a|..|a| + |y|];
  }

  // ---------------------------------------------------------------------
  // The folders

  /** The files of the folder at position `i` of `n`. */
  function SiteFiles(i: nat, n: nat, name: string): Files
  {
    map[
      "styles.css" := Css(Hue(i, n)),
      "app.js" := Js,
      "index.html" := IndexHtml(name),
      "README.md" := FolderReadme(name),
      "assets/avatar.svg" := Avatar(name, Hue(i, n))
    ]
  }

  function SiteRels(names: seq<string>): (rels: seq<Files>)
    ensures |rels| == |names|
  {
    seq(|names|, i requires 0 <= i < |names| => SiteFiles(i, |names|, names[i]))
  }

  /** `main`: one site per name, in order; `created` lists the folders that
      go into the archive. */
  method Generate(names: seq<string>) returns (created: seq<string>, files: Files)
    ensures created == names
    ensures files == Tree(names, SiteRels(names))
  {
    created, files := WriteFolders(names, SiteRels(names));
  }

  /** A site holds exactly the five files; the stylesheet and the avatar use
      the same hue, and the script is the same everywhere. */
  lemma SiteContents(i: nat, n: nat, name: string, x: string)
    ensures x in SiteFiles(i, n, name) <==>
      x == "styles.css" || x == "app.js" || x == "index.html" || x == "README.md" || x == "assets/avatar.svg"
    ensures SiteFiles(i, n, name)["styles.css"] == Css(Hue(i, n))
    ensures SiteFiles(i, n, name)["assets/avatar.svg"] == Avatar(name, Hue(i, n))
    ensures SiteFiles(i, n, name)["app.js"] == Js
    ensures SiteFiles(i, n, name)["index.html"] == IndexHtml(name)
    ensures SiteFiles(i, n, name)["README.md"] == FolderReadme(name)
  {
  }

  /** With distinct single-component names, folder `i` of the output holds
      exactly the site laid out for `names[i]` at position `i`. */
  lemma SitesLayout(names: seq<string>, i: nat, x: string)
    requires FolderNames(names) && i < |names|
    ensures Path(names[i], x) in Tree(names, SiteRels(names)) <==> x in SiteFiles(i, |names|, names[i])
    ensures x in SiteFiles(i, |names|, names[i]) ==>
      Tree(names, SiteRels(names))[Path(names[i], x)] == SiteFiles(i, |names|, names[i])[x]
  {
    TreeFolder(names, SiteRels(names), i, x);
    assert SiteRels(names)[i] == SiteFiles(i, |names|, names[i]);
  }

  /** Two folders of one run never share a stylesheet or an avatar. */
  lemma SitesDiffer(names: seq<string>, i: nat, j: nat)
    requires i < j < |names| <= 360
    ensures SiteFiles(i, |names|, names[i])["styles.css"] != SiteFiles(j, |names|, names[j])["styles.css"]
    ensures SiteFiles(i, |names|, names[i])["assets/avatar.svg"]
      != SiteFiles(j, |names|, names[j])["assets/avatar.svg"]
  {
    var n := |names|;
    HueIncreasing(i, j, n);
    SiteContents(i, n, names[i], "styles.css");
    SiteContents(j, n, names[j], "styles.css");
    if Css(Hue(i, n)) == Css(Hue(j, n)) {
      CssInjective(Hue(i, n), Hue(j, n));
    }
    if Avatar(names[i], Hue(i, n)) == Avatar(names[j], Hue(j, n)) {
      AvatarHue(names[i], Hue(i, n), names[j], Hue(j, n));
    }
  }
}
