# Folder generators for 42 students, modelled in Dafny

The repository holds three batch scripts. Each one walks one hard-coded list
of 42 folder names (`Registry.Names`, the same list in all three), writes a
few files into a folder per name, and zips the folders.

* `generate_java_collections.py` (modules `JavaCollections`, `Templates`, `Strings`).
  It sums the code points of the name. Modulo 14 the sum picks one of 14
  Java collection demos (`stable_index`); modulo 97 it gives a seed. The demo
  is rendered with two `str.replace` calls, `{STUDENT}` then `{SEED}`, and is
  written as `src/Main.java`. A `README.md` names the demo number.
* `generate_sites.py` (module `Sites`). It writes a five-file static site per
  name. The colour hue comes from the folder's position in the list and is
  used by both `styles.css` and `assets/avatar.svg`. The avatar shows the
  name's upper-cased initial. `index.html` shows the HTML-escaped title four
  times, while `README.md` shows the raw title.
* `generate_java_sorts.py` (modules `JavaSorts`, `BubbleSort`, `QuickSort`, `SortSpec`).
  It writes two Java sorting classes verbatim, a `Main.java` and a `README.md`
  rendered with `str.format`. The early-exit bubble sort and the Lomuto
  quicksort are modelled as in-place methods on an `array<int>` and proved to
  sort and to permute. The inner bubble-sort loop and the partition loop
  are proved against an invariant predicate with step lemmas; the outer
  bubble-sort loop carries its invariants inline.

The shared pieces:
* `Templates` models a template as a sequence of literal parts and named
  fields. It gives `str.replace` (`Replace`) and `str.format` (`Format`,
  including its errors) on the template's text, with proofs that they fill
  exactly the fields.
* `Output` models a run's result as a map from relative path to file text.
  `WriteFolders` is the per-name loop that all three `main`s share.

## Model

| member | source | states |
|---|---|---|
| JavaCollections.DemoTemplate | generate_java_collections.py:27-267 | no contract of its own: entry `k` of `TEMPLATES`; see TemplateSlots and TemplateFields |
| JavaCollections.Checksum | generate_java_collections.py:273 | no contract of its own: `sum(ord(c) for c in name)`; see ChecksumPermutation and FanliChecksum |
| JavaCollections.StableIndex | generate_java_collections.py:271-274 | the template index is the code-point sum modulo 14 and always lies below `NUM_TEMPLATES` |
| JavaCollections.Seed | generate_java_collections.py:300 | the seed is the same sum modulo 97, always below 97 |
| JavaCollections.ChecksumPermutation | generate_java_collections.py:273 | two names with the same characters, in any order, have the same code-point sum |
| JavaCollections.AnagramsShareDemo | generate_java_collections.py:271-274 | anagrams get the same template index and the same seed |
| JavaCollections.FanliChecksum | generate_java_collections.py:273 | "fanli" sums to 522 |
| JavaCollections.FanliDemo | generate_java_collections.py:298-300 | "fanli" gets index 4, which is the LinkedHashMap cache demo (0-based), and seed 37 |
| JavaCollections.TemplateSlots | generate_java_collections.py:27-267 | every template is literal Java text with doubled braces, plus the two placeholders and nothing else |
| JavaCollections.TemplateFields | generate_java_collections.py:27-267 | every template holds `{STUDENT}` once, except template 2, which holds it twice (lines 85, 87); only template 11 holds `{SEED}`, twice |
| Templates.Replace | generate_java_collections.py:304 | no contract of its own: Python's `str.replace`, left to right and without overlaps; see ReplaceField |
| Templates.ReplaceField | generate_java_collections.py:304 | `replace("{KEY}", v)` on a template's text turns exactly its `KEY` fields into `v` and keeps every other character |
| JavaCollections.Render | generate_java_collections.py:304 | no contract of its own: `tmpl.replace("{STUDENT}", name).replace("{SEED}", str(seed))`; see RenderSubstitutes, RenderFillsPlaceholders and RenderKeepsDoubledBraces |
| JavaCollections.RenderSubstitutes | generate_java_collections.py:304 | the two replaces give the template with `{STUDENT}` bound to the name and `{SEED}` to the decimal seed, all else unchanged |
| JavaCollections.RenderFillsPlaceholders | generate_java_collections.py:304 | for a name that introduces no placeholder, no `{STUDENT}` or `{SEED}` is left anywhere in the output |
| JavaCollections.RenderIgnoresSeed | generate_java_collections.py:300-304 | every demo other than 11 renders identically whatever the seed |
| JavaCollections.ShuffleShowsSeed | generate_java_collections.py:225-237 | the shuffle demo renders differently for different seeds |
| JavaCollections.RenderKeepsDoubledBraces | generate_java_collections.py:304 | as written, the rendered `Main.java` still ends with the doubled `    }}` and `}}` lines |
| JavaCollections.RenderFormattedCloses | generate_java_collections.py:304 | rendering with `format` instead succeeds for every demo and name and ends the class with single braces |
| JavaCollections.WrittenMain | generate_java_collections.py:298-304 | no contract of its own: the `Main.java` text the loop writes for a name; see WrittenMainDiffers and FolderContents |
| JavaCollections.IntendedMain | generate_java_collections.py:298-304 | no contract of its own: the corrected `Main.java`, rendered with `format`; see IntendedMainFormats |
| JavaCollections.IntendedMainFormats | generate_java_collections.py:304 | corrected half of the finding below: formatting the chosen demo with the name and seed succeeds and gives a text closing with single braces |
| JavaCollections.WrittenMainDiffers | generate_java_collections.py:304 | for every name that introduces no placeholder, the `Main.java` the program writes differs from the formatted one |
| JavaCollections.MakeReadme | generate_java_collections.py:276-287 | no contract of its own: `make_readme`; see ReadmeHeading and ReadmeNamesTemplate |
| JavaCollections.ReadmeHeading | generate_java_collections.py:276-287 | the README's heading is `# ` followed by the name |
| JavaCollections.ReadmeNamesTemplate | generate_java_collections.py:276-287 | the README states the template number in decimal; two READMEs for the same name are equal exactly when their numbers are |
| JavaCollections.Generate | generate_java_collections.py:295-309 | `created` lists the names in order; the files written are the folders' files laid out under their names |
| JavaCollections.FolderFiles | generate_java_collections.py:301-308 | no contract of its own: the two files one iteration writes; see FolderContents |
| JavaCollections.FolderContents | generate_java_collections.py:301-308 | a folder holds exactly `src/Main.java`, the chosen demo after the two replaces with the name and the seed, and `README.md`, naming the same index |
| JavaCollections.CollectionsLayout | generate_java_collections.py:297-309 | with distinct single-component names, folder `i` of the output holds exactly the files of `names[i]` |
| Strings.Decimal | generate_java_collections.py:304 | `str(seed)` is a non-empty string of digits without a leading zero |
| Strings.DecimalRoundTrip | generate_java_collections.py:304 | reading the digits of `str(n)` back gives `n` |
| Strings.DecimalInjective | generate_java_collections.py:304 | different numbers print differently |
| Output.WriteFolders | generate_sites.py:214-226 | the per-name loop appends every name to `created` in order and writes each folder's files below it |
| Output.Tree | generate_sites.py:214-226 | no contract of its own: every folder's files placed below its name; see WriteFolders, TreeFolder and TreeOnlyFolders |
| Output.TreeFolder | generate_sites.py:216-225 | with distinct single-component names, the files under folder `i` are exactly those laid out for it |
| Output.TreeOnlyFolders | generate_sites.py:214-226 | every file the loop writes lies in one of the named folders |
| Output.PathInjective | generate_sites.py:216 | a path below a single-component folder determines the folder and the relative path |
| Sites.Hue | generate_sites.py:219 | the hue is always in `[0, 360)`, and `max(1, n)` rules out a division by zero |
| Sites.HueInRange | generate_sites.py:219 | inside the list the reduction modulo 360 never applies |
| Sites.HueIncreasing | generate_sites.py:215-219 | with at most 360 folders, the hue strictly increases with the position |
| Sites.RegistryHues | generate_sites.py:215-219 | the 42 names get 42 strictly increasing hues, from 0 to 351 |
| Sites.Css | generate_sites.py:70-93 | no contract of its own: `make_css(hue)`; see CssInjective |
| Sites.CssInjective | generate_sites.py:70-93 | the `--h` value can be read back: different hues give different stylesheets |
| Sites.Initial | generate_sites.py:124 | the initial is the first two characters (or the whole shorter name), each upper-cased |
| Strings.Upper | generate_sites.py:124 | `upper` keeps the length and upper-cases each character |
| Strings.HtmlEscape | generate_sites.py:127 | the escaped text holds none of `<`, `>`, `"`, `'` and is the text itself when no special character occurs |
| Strings.HtmlEscapeRoundTrip | generate_sites.py:127 | unescaping the five entities gives the original text back |
| Sites.Avatar | generate_sites.py:123-129 | no contract of its own: `make_avatar_svg(name, hue)`; see AvatarHue |
| Sites.AvatarHue | generate_sites.py:123-129 | the avatar's fill hue can be read back from the SVG |
| Sites.IndexHtml | generate_sites.py:131-188 | no contract of its own: `make_index_html(title, title)`; see IndexEscapesTitle and IndexPlainTitle |
| Sites.IndexEscapesTitle | generate_sites.py:131-188 | each of the four title slots of `index.html` holds the escaped title, with no markup character, from which the title can be read back |
| Sites.IndexPlainTitle | generate_sites.py:131-188 | a title without special characters appears verbatim |
| Sites.FolderReadme | generate_sites.py:190-204 | no contract of its own: `make_folder_readme(title)`; see ReadmeRawTitle and ReadmeTitleInjective |
| Sites.ReadmeRawTitle | generate_sites.py:190-204 | the README holds the raw title, unescaped, twice |
| Sites.ReadmeTitleInjective | generate_sites.py:190-204 | the title can be read back from the README: different titles give different READMEs |
| Sites.Generate | generate_sites.py:212-226 | `created` lists the names in order; the files written are the sites laid out under their names |
| Sites.SiteFiles | generate_sites.py:216-225 | no contract of its own: the five files one iteration writes; see SiteContents |
| Sites.SiteContents | generate_sites.py:216-225 | a site holds exactly the five files; the stylesheet and the avatar use the same hue; `app.js` is the same text everywhere |
| Sites.SitesLayout | generate_sites.py:215-226 | with distinct single-component names, folder `i` holds exactly the site of `names[i]` at position `i` |
| Sites.SitesDiffer | generate_sites.py:219-225 | with at most 360 names, no two folders share a stylesheet or an avatar |
| SortSpec.AdjacentToSorted | generate_java_sorts.py:44 | neighbours in order means the whole range is sorted: a pass without a swap may stop the sort |
| SortSpec.SegmentPermutation | generate_java_sorts.py:56-61 | a permutation that leaves everything outside a range in place permutes the range itself |
| SortSpec.Swap | generate_java_sorts.py:38-40 | exchanging two elements through a temporary changes exactly those two places |
| SortSpec.SwapPermutes | generate_java_sorts.py:68-70 | an exchange keeps the same elements |
| BubbleSort.Sort | generate_java_sorts.py:31-46 | ensures the array ends sorted ascending and a permutation of the input; its outer loop invariant states that after `i` passes the last `i` places hold the largest elements in order |
| BubbleSort.Pass | generate_java_sorts.py:36-43 | one pass permutes `a[0..m]` only, carries its largest element to `a[m]`, and without a swap leaves `a[0..m]` untouched and in order |
| BubbleSort.PassStep | generate_java_sorts.py:37-42 | one comparison, with its swap when the neighbours are out of order, keeps the pass invariant one place on |
| BubbleSort.PassExtends | generate_java_sorts.py:34-45 | a pass grows the sorted top part by one place, and a pass without a swap leaves the rest with neighbours in order |
| QuickSort.Sort | generate_java_sorts.py:53-55 | the array ends sorted ascending and a permutation of the input; an empty array is left alone |
| QuickSort.Quick | generate_java_sorts.py:56-61 | `quick(a, lo, hi)` sorts `a[lo..hi]`, permutes the array, touches nothing outside the range, and does nothing when `lo >= hi` |
| QuickSort.Partition | generate_java_sorts.py:62-77 | returns `p` in `[lo, hi]` holding the old `a[hi]`, with everything before it in the range at most the pivot and everything after it above; permutes and touches nothing outside the range |
| QuickSort.PartitionStep | generate_java_sorts.py:65-72 | one step of the partition loop keeps the partition invariant |
| QuickSort.PartitionEnd | generate_java_sorts.py:73-76 | the final swap puts the pivot between the two parts |
| QuickSort.QuickJoin | generate_java_sorts.py:58-60 | sorting both sides of a partitioned range sorts the whole range |
| Templates.Format | generate_java_sorts.py:142-144 | no contract of its own: Python's `str.format` with keyword arguments, including its failure on a missing key; see FormatExpands and FormatMissingKey |
| Templates.FormatExpands | generate_java_sorts.py:142-144 | `format` succeeds on a template whose fields all have arguments and yields, part by part, the unescaped literals and the values |
| Templates.FormatMissingKey | generate_java_sorts.py:142-144 | a field without an argument makes `format` fail instead of being left in place |
| JavaSorts.MainJava | generate_java_sorts.py:81-107 | no contract of its own: `MAIN_TEMPLATE.format(name=name)`; see MainJavaFormats |
| JavaSorts.MainJavaFormats | generate_java_sorts.py:81-107 | `MAIN_TEMPLATE.format(name=name)` succeeds, every doubled brace becomes one, and the text does not depend on the name |
| JavaSorts.FolderReadme | generate_java_sorts.py:109-124 | no contract of its own: `README_FOLDER.format(name=name)`; see FolderReadmeFormats and FolderReadmeInjective |
| JavaSorts.FolderReadmeFormats | generate_java_sorts.py:109-124 | `README_FOLDER.format(name=name)` succeeds and puts the name, as it is, in the heading |
| JavaSorts.FolderReadmeInjective | generate_java_sorts.py:109-124 | different folders get different READMEs |
| JavaSorts.Generate | generate_java_sorts.py:132-145 | `created` lists the names in order; the files written are the folders' files laid out under their names |
| JavaSorts.FolderFiles | generate_java_sorts.py:136-144 | no contract of its own: the four files one iteration writes; see FolderContents |
| JavaSorts.FolderContents | generate_java_sorts.py:136-144 | a folder holds exactly the two sorting classes, `Main.java` and `README.md` |
| JavaSorts.SortsLayout | generate_java_sorts.py:135-145 | with distinct single-component names, folder `i` holds exactly the files of `names[i]` |

## Left out

- Creating directories, writing files, `os.walk`, the zip archive and the final `print` are I/O. A run is modelled as the map from relative path to text that the run writes. The zip holds those entries, in an order `os.walk` chooses, only when the folders held nothing before the run. `os.walk` archives every file under a folder, so files from an earlier run, or from another of the three generators (they share the 42 folder names and the working directory), end up in the zip too. That is not modelled.
- The literal texts are opaque constants: the 14 Java demos, the CSS, the JavaScript, the HTML and SVG around their slots, the two Java sorting sources and the README bodies. Each carries only the facts the proofs use: braces doubled, no `{` before an upper-case letter, a first character. The runtime behaviour of the Java demos and of `Main.java` (`java.util`, `Random(42)`, `nextInt(100)`) is JDK code and is not modelled.
- BubbleSort.Sort: takes an `array<int>`, which cannot be null. The Java `sort` throws `NullPointerException` at `a.length` when given `null`; that error path is not modelled.
- QuickSort.Sort: takes an `array<int>`, which cannot be null, so the Java `NullPointerException` on a `null` array is not modelled. Nor is the recursion depth: with the last element as pivot, `quick` recurses about `n` levels deep on sorted or all-equal input, so a large array ends in `StackOverflowError` in Java, while the model promises a sorted result for every array. `Main` sorts 12 elements.
- Java `int` values in the sorts are only compared and moved, so unbounded integers model them exactly; overflow cannot arise.
- `Registry.Names`: its 42 entries are distinct and contain no `/`, but that is not proved for the literal list. The layout lemmas take it as a hypothesis (`Output.FolderNames`).
- Sites.Hue: Python computes `i * 360 / n` in floating point and truncates. The model uses integer division. For `0 <= i < n <= 42` the quotient is never close enough below an integer to round across it, so the two agree.
- Sites.SitesDiffer: stated for at most 360 folders, where the hue step is at least 1; beyond that, hues repeat.
- Strings.Upper: ASCII letters only. Python's `str.upper` also maps other letters (and `ß` to `SS`); the registered names are lower-case ASCII.
- Strings.HtmlUnescape: only the five entities `html.escape` produces.
- JavaCollections.MakeReadme: `textwrap.dedent` is modelled by its effect on a one-line name. A name containing a line break could change the common indentation.
- Sites.IndexHtml and Sites.FolderReadme: `textwrap.dedent` is modelled as the identity. Each of these builders, and `make_css`, has a line at column 0 (`<!doctype html>`, `# {title}`, `:root{`), so the common margin is empty. That holds as long as the title holds no line break. `make_avatar_svg` is not dedented at all.
- JavaCollections.RenderSubstitutes: requires the name to be inert (`Templates.Inert`): every `{` in it is followed, within the name, by something other than an upper-case letter. So the name holds no `{` before an upper-case letter and does not end in `{`. For a name containing `{SEED}`, the second replace would rewrite that part of the name, and a name ending in `{` could form a placeholder with the template text that follows.
- JavaCollections.RenderFillsPlaceholders: requires an inert name, for the same reason.
- JavaCollections.RenderIgnoresSeed: requires an inert name, for the same reason.
- JavaCollections.ShuffleShowsSeed: requires an inert name, for the same reason.
- JavaCollections.RenderKeepsDoubledBraces: requires an inert name, for the same reason.
- JavaCollections.WrittenMainDiffers: requires an inert name, for the same reason.
- Templates.Format: only plain field names. Format specs (`{x:>5}`), conversions (`{x!r}`), attribute and index access, and numeric fields are not modelled; none of the templates uses them.

## Findings

| source | as written | input that shows it | evidently intended | confidence | as-written member | corrected member |
|---|---|---|---|---|---|---|
| generate_java_collections.py:304 | The 14 templates write Java braces doubled, as a `str.format` template would (`public class Main {{`, closing `    }}` and `}}`). They are rendered with `str.replace`, which keeps the doubling, so the written `Main.java` is not valid Java. | any name, e.g. "fanli": its `Main.java` ends with `    }}` and `}}` | render with `tmpl.format(STUDENT=name, SEED=str(seed))`, so that the doubled braces collapse to single ones | not executed | JavaCollections.RenderKeepsDoubledBraces | JavaCollections.RenderFormattedCloses |

The folder layout (`JavaCollections.FolderFiles`) writes the `replace` output, as the program does. `JavaCollections.WrittenMainDiffers` shows that this text differs from the formatted one for every inert name. `JavaCollections.IntendedMain` is the corrected text.
