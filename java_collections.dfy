/** generate_java_collections.py: for every registered name, a folder holding
    `src/Main.java`, one of fourteen collection-framework demos chosen by the
    name's character sum, and a `README.md` naming the demo's number.

    A demo template is modelled by its slot structure: opaque literal Java
    text between the `{STUDENT}` and `{SEED}` placeholders, followed by the
    closing lines every template shares. */
module JavaCollections {
  import opened Strings
  import opened Templates
  import opened Output

  const StudentKey: string := "STUDENT"
  const SeedKey: string := "SEED"

  /** Java source text as it stands in the Python template: braces doubled
      (the templates are written in `str.format` style) and no `{` directly
      before an upper-case letter outside the placeholders. */
  type JavaText = s: string | Escaped(s) && Inert(s) witness ""

  // The literal text of each demo before and after its (first) `{STUDENT}`.
  const TodoHead: JavaText         // ArrayList to-do list, lines 30-40
  const TodoTail: JavaText         // lines 40-52
  const GradesHead: JavaText       // HashMap grade book, lines 58-67
  const GradesTail: JavaText       // lines 67-73
  const UniqueHead: JavaText       // HashSet of unique names, lines 79-85
  const UniqueMiddle: JavaText     // between its two `{STUDENT}`, lines 85-87
  const UniqueTail: JavaText       // lines 87-88
  const QueueHead: JavaText        // PriorityQueue scheduling, lines 94-102
  const QueueTail: JavaText        // lines 102-105
  const CacheHead: JavaText        // LinkedHashMap LRU-style cache, lines 111-118
  const CacheTail: JavaText        // lines 118-122
  const ContactsHead: JavaText     // TreeMap contacts, lines 128-137
  const ContactsTail: JavaText     // lines 137-138
  const HistoryHead: JavaText      // ArrayDeque command history, lines 144-153
  const HistoryTail: JavaText      // lines 153-155
  const MultiMapHead: JavaText     // Map of lists, lines 161-172
  const MultiMapTail: JavaText     // lines 172-175
  const FrequencyHead: JavaText    // Collections.frequency, lines 181-188
  const FrequencyTail: JavaText    // lines 188-191
  const LinkedListHead: JavaText   // LinkedList as a deque, lines 197-204
  const LinkedListTail: JavaText   // lines 204-206
  const TreeSetHead: JavaText      // TreeSet sorting, lines 212-219
  const TreeSetTail: JavaText      // line 219
  const ShuffleHead: JavaText      // Collections.shuffle, lines 225-232
  const ShuffleMiddle: JavaText    // up to the first `{SEED}`, lines 232-233
  const ShuffleBetween: JavaText   // between the two `{SEED}`, lines 233-234
  const ShuffleTail: JavaText      // line 234
  const FilterHead: JavaText       // Map and stream filter, lines 240-247
  const FilterTail: JavaText       // lines 247-249
  const ConcurrentHead: JavaText   // ConcurrentLinkedQueue, lines 255-262
  const ConcurrentTail: JavaText   // lines 262-264

  /** The last two lines of every template: the ends of `main` and of `Main`. */
  const MainClose: string := "    }}\n}}\n"

  const Heads: seq<JavaText> := [
    TodoHead, GradesHead, UniqueHead, QueueHead, CacheHead, ContactsHead, HistoryHead,
    MultiMapHead, FrequencyHead, LinkedListHead, TreeSetHead, ShuffleHead, FilterHead, ConcurrentHead
  ]

  const Tails: seq<JavaText> := [
    TodoTail, GradesTail, UniqueTail, QueueTail, CacheTail, ContactsTail, HistoryTail,
    MultiMapTail, FrequencyTail, LinkedListTail, TreeSetTail, ShuffleTail, FilterTail, ConcurrentTail
  ]

  /** `NUM_TEMPLATES = len(TEMPLATES)`. */
  const NumTemplates: nat := |Heads|

  /** The placeholders after the first `{STUDENT}`: a second one in the
      unique-names demo, two `{SEED}` in the shuffle demo. */
  function Middle(k: nat): Template
  {
    if k == 2 then [Lit(UniqueMiddle), Field(StudentKey)]
    else if k == 11 then [Lit(ShuffleMiddle), Field(SeedKey), Lit(ShuffleBetween), Field(SeedKey)]
    else []
  }

  function Body(k: nat): Template
    requires k < NumTemplates
  {
    [Lit(Heads[k]), Field(StudentKey)] + Middle(k) + [Lit(Tails[k])]
  }

  /** Entry `k` of the `TEMPLATES` list. */
  function DemoTemplate(k: nat): Template
    requires k < NumTemplates
  {
    Body(k) + [Lit(MainClose)]
  }

  // ---------------------------------------------------------------------
  // Choosing a demo

  /** `sum(ord(c) for c in name)`. */
  function Checksum(name: string): nat
  {
    if name == [] then 0 else (name[0] as int) + Checksum(name[1..])
  }

  /** `stable_index`: the checksum reduced modulo the number of templates. */
  function StableIndex(name: string): (k: nat)
    ensures k < NumTemplates
  {
    Checksum(name) % NumTemplates
  }

  /** The shuffle seed of `main`: the checksum reduced modulo 97. */
  function Seed(name: string): (s: nat)
    ensures s < 97
  {
    Checksum(name) % 97
  }

  lemma {:induction false} ChecksumConcat(s: string, t: string)
    ensures Checksum(s + t) == Checksum(s) + Checksum(t)
  {
    if s == [] {
      assert s + t == t;
    } else {
      assert (s + t)[0] == s[0];
      assert (s + t)[1..] == s[1..] + t;
      ChecksumConcat(s[1..], t);
    }
  }

  /** Taking one character out of a name takes its code out of the sum. */
  lemma ChecksumRemove(t: string, j: nat)
    requires j < |t|
    ensures Checksum(t) == (t[j] as int) + Checksum(t[..j] + t[j + 1..])
  {
    var left, c, right := t[..j], t[j], t[j + 1..];
    SplitAt(t, j);
    ChecksumSplice(left, c, right);
  }

  lemma SplitAt(t: string, j: nat)
    requires j < |t|
    ensures t == t[..j] + ([t[j]] + t[j + 1..])
  {
  }

  lemma ChecksumSplice(left: string, c: char, right: string)
    ensures Checksum(left + ([c] + right)) == (c as int) + Checksum(left + right)
  {
    ChecksumConcat(left, [c] + right);
    ChecksumConcat(left, right);
    assert ([c] + right)[1..] == right;
  }

  lemma MultisetRemove(t: string, j: nat)
    requires j < |t|
    ensures multiset(t[..j] + t[j + 1..]) == multiset(t) - multiset{t[j]}
  {
    assert t == t[..j] + [t[j]] + t[j + 1..];
  }

  /** The checksum ignores the order of the characters. */
  lemma {:induction false} ChecksumPermutation(s: string, t: string)
    requires multiset(s) == multiset(t)
    ensures Checksum(s) == Checksum(t)
    decreases |s|
  {
    if s == [] {
      assert |t| == |multiset(t)| == 0;
    } else {
      assert s[0] in multiset(t);
      var j :| 0 <= j < |t| && t[j] == s[0];
      ChecksumRemove(t, j);
      MultisetRemove(t, j);
      assert s == [s[0]] + s[1..];
      assert multiset(s[1..]) == multiset(s) - multiset{s[0]};
      ChecksumPermutation(s[1..], t[..j] + t[j + 1..]);
    }
  }

  /** Names that are anagrams of each other get the same demo and seed. */
  lemma AnagramsShareDemo(s: string, t: string)
    requires multiset(s) == multiset(t)
    ensures StableIndex(s) == StableIndex(t) && Seed(s) == Seed(t)
  {
    ChecksumPermutation(s, t);
  }

  /** "fanli" sums to 522. */
  lemma FanliChecksum()
    ensures Checksum("fanli") == 522
  {
    var s := "fanli";
    assert s[1..] == "anli" && s[1..][1..] == "nli";
    assert "nli"[1..] == "li" && "li"[1..] == "i" && "i"[1..] == "";
    assert Checksum("i") == 105;
    assert Checksum("li") == 108 + 105;
  }

  /** "fanli" gets demo 4 (the LinkedHashMap cache) with seed 37. */
  lemma FanliDemo()
    ensures StableIndex("fanli") == 4 && Seed("fanli") == 37
    ensures Heads[StableIndex("fanli")] == CacheHead
  {
    FanliChecksum();
  }

  // ---------------------------------------------------------------------
  // The templates' shape

  /** A part of a demo template: literal Java text, or one of the two
      placeholders. */
  predicate Slot(p: Part)
  {
    (p.Lit? && Escaped(p.text) && Inert(p.text)) || p == Field(StudentKey) || p == Field(SeedKey)
  }

  lemma MainCloseText()
    ensures Escaped(MainClose) && Inert(MainClose)
    ensures Unescape(MainClose) == "    }\n}\n"
  {
    ClosingLine("    ");
    ClosingLine("");
    assert MainClose == ("    " + "}}\n") + ("" + "}}\n");
    UnescapeConcat("    " + "}}\n", "" + "}}\n");
    InertConcat("    " + "}}\n", "" + "}}\n");
  }

  predicate Slots(t: Template)
  {
    forall i :: 0 <= i < |t| ==> Slot(t[i])
  }

  lemma SlotsConcat(t: Template, u: Template)
    requires Slots(t) && Slots(u)
    ensures Slots(t + u)
  {
    forall i | 0 <= i < |t + u|
      ensures Slot((t + u)[i])
    {
      if i < |t| {
        assert (t + u)[i] == t[i];
      } else {
        assert (t + u)[i] == u[i - |t|];
      }
    }
  }

  lemma MiddleSlots(k: nat)
    ensures Slots(Middle(k))
  {
  }

  /** A template built from Java text around the first `{STUDENT}`, further
      slots `m`, and the closing lines, consists of slots. */
  lemma ShapeSlots(h: string, m: Template, z: string)
    requires Escaped(h) && Inert(h) && Escaped(z) && Inert(z)
    requires Slots(m)
    ensures Slots([Lit(h), Field(StudentKey)] + m + [Lit(z)] + [Lit(MainClose)])
  {
    CloseSlot();
    var a: Template := [Lit(h), Field(StudentKey)];
    SlotsConcat(a, m);
    SlotsConcat(a + m, [Lit(z)]);
    SlotsConcat(a + m + [Lit(z)], [Lit(MainClose)]);
  }

  lemma CloseSlot()
    ensures Slot(Lit(MainClose))
  {
    MainCloseText();
  }

  lemma TemplateSlots(k: nat)
    requires k < NumTemplates
    ensures Slots(DemoTemplate(k))
  {
    MiddleSlots(k);
    ShapeSlots(Heads[k], Middle(k), Tails[k]);
  }

  lemma MiddleFields(k: nat)
    ensures FieldCount(Middle(k), StudentKey) == (if k == 2 then 1 else 0)
    ensures FieldCount(Middle(k), SeedKey) == (if k == 11 then 2 else 0)
  {
    var student, seed := Field(StudentKey), Field(SeedKey);
    FieldCountOne(student, StudentKey);
    FieldCountOne(student, SeedKey);
    FieldCountOne(seed, StudentKey);
    FieldCountOne(seed, SeedKey);
    if k == 2 {
      var a := Lit(UniqueMiddle);
      FieldCountOne(a, StudentKey);
      FieldCountOne(a, SeedKey);
      assert Middle(k) == [a] + [student];
      FieldCountConcat([a], [student], StudentKey);
      FieldCountConcat([a], [student], SeedKey);
    } else if k == 11 {
      var a, b := Lit(ShuffleMiddle), Lit(ShuffleBetween);
      FieldCountOne(a, StudentKey);
      FieldCountOne(a, SeedKey);
      FieldCountOne(b, StudentKey);
      FieldCountOne(b, SeedKey);
      assert Middle(k) == [a, seed] + [b, seed];
      assert [a, seed] == [a] + [seed] && [b, seed] == [b] + [seed];
      FieldCountConcat([a], [seed], StudentKey);
      FieldCountConcat([a], [seed], SeedKey);
      FieldCountConcat([b], [seed], StudentKey);
      FieldCountConcat([b], [seed], SeedKey);
      FieldCountConcat([a, seed], [b, seed], StudentKey);
      FieldCountConcat([a, seed], [b, seed], SeedKey);
    }
  }

  /** The fields of a template shape: the first `{STUDENT}` and those of `m`. */
  lemma ShapeFields(h: string, m: Template, z: string, key: string)
    requires key == StudentKey || key == SeedKey
    ensures FieldCount([Lit(h), Field(StudentKey)] + m + [Lit(z)] + [Lit(MainClose)], key)
      == (if key == StudentKey then 1 else 0) + FieldCount(m, key)
  {
    var a: Template := [Lit(h), Field(StudentKey)];
    assert a == [Lit(h)] + [Field(StudentKey)];
    FieldCountOne(Lit(h), key);
    FieldCountOne(Field(StudentKey), key);
    FieldCountOne(Lit(z), key);
    FieldCountOne(Lit(MainClose), key);
    FieldCountConcat([Lit(h)], [Field(StudentKey)], key);
    FieldCountConcat(a, m, key);
    FieldCountConcat(a + m, [Lit(z)], key);
    FieldCountConcat(a + m + [Lit(z)], [Lit(MainClose)], key);
  }

  /** Every template holds `{STUDENT}` (the unique-names demo twice), and only
      the shuffle demo, number 11, holds `{SEED}` (twice). */
  lemma TemplateFields(k: nat)
    requires k < NumTemplates
    ensures FieldCount(DemoTemplate(k), StudentKey) == (if k == 2 then 2 else 1)
    ensures FieldCount(DemoTemplate(k), SeedKey) == (if k == 11 then 2 else 0)
  {
    MiddleFields(k);
    ShapeFields(Heads[k], Middle(k), Tails[k], StudentKey);
    ShapeFields(Heads[k], Middle(k), Tails[k], SeedKey);
  }

  lemma SlotsReplaceReady(t: Template)
    requires Slots(t)
    ensures ReplaceReady(t)
  {
    assert IsKey(StudentKey) && IsKey(SeedKey);
  }

  lemma SlotsFormatReady(t: Template, args: map<string, string>)
    requires Slots(t)
    requires StudentKey in args && SeedKey in args
    ensures FormatReady(t, args)
  {
    assert IsKey(StudentKey) && IsKey(SeedKey);
  }

  // ---------------------------------------------------------------------
  // Rendering as written: two `str.replace` calls

  /** `tmpl.replace("{STUDENT}", name).replace("{SEED}", str(seed))`. */
  function Render(template: string, name: string, seed: nat): string
  {
    Replace(Replace(template, Token(StudentKey), name), Token(SeedKey), Decimal(seed))
  }

  /** The template with its placeholders bound to literal text. */
  function Bind(t: Template, name: string, seed: nat): Template
  {
    Subst(Subst(t, StudentKey, name), SeedKey, Decimal(seed))
  }

  lemma DecimalInert(n: nat)
    ensures Plain(Decimal(n)) && Inert(Decimal(n)) && Escaped(Decimal(n))
  {
    PlainEscaped(Decimal(n));
  }

  /** As long as the name itself introduces no placeholder, the two replaces
      fill exactly the template's placeholders and keep every other
      character. */
  lemma RenderSubstitutes(t: Template, name: string, seed: nat)
    requires ReplaceReady(t) && Inert(name)
    ensures Render(Source(t), name, seed) == Source(Bind(t, name, seed))
  {
    assert IsKey(StudentKey) && IsUpper(StudentKey[0]);
    assert IsKey(SeedKey) && IsUpper(SeedKey[0]);
    ReplaceField(t, StudentKey, name);
    SubstReady(t, StudentKey, name);
    ReplaceField(Subst(t, StudentKey, name), SeedKey, Decimal(seed));
  }

  /** After rendering, no `{STUDENT}` or `{SEED}` is left anywhere. */
  lemma RenderFillsPlaceholders(k: nat, name: string, seed: nat)
    requires k < NumTemplates && Inert(name)
    ensures var r := Render(Source(DemoTemplate(k)), name, seed);
      forall i :: 0 <= i <= |r| ==> !MatchAt(r, i, Token(StudentKey)) && !MatchAt(r, i, Token(SeedKey))
  {
    var t := DemoTemplate(k);
    TemplateSlots(k);
    SlotsReplaceReady(t);
    RenderSubstitutes(t, name, seed);
    BoundInert(t, name, seed);
    KeyFacts();
    InertHasNoToken(Source(Bind(t, name, seed)), StudentKey);
    InertHasNoToken(Source(Bind(t, name, seed)), SeedKey);
  }

  /** Once bound to an inert name, a template of slots is all inert text. */
  lemma BoundInert(t: Template, name: string, seed: nat)
    requires Slots(t) && Inert(name)
    ensures Inert(Source(Bind(t, name, seed)))
  {
    DecimalInert(seed);
    var u := Bind(t, name, seed);
    forall i | 0 <= i < |u|
      ensures u[i].Lit? && Inert(u[i].text)
    {
      assert Slot(t[i]);
    }
    SourceInert(u);
  }

  /** Every demo but the shuffle demo renders the same whatever the seed. */
  lemma RenderIgnoresSeed(k: nat, name: string, s1: nat, s2: nat)
    requires k < NumTemplates && k != 11 && Inert(name)
    ensures Render(Source(DemoTemplate(k)), name, s1) == Render(Source(DemoTemplate(k)), name, s2)
  {
    var t := DemoTemplate(k);
    TemplateSlots(k);
    SlotsReplaceReady(t);
    TemplateFields(k);
    RenderSubstitutes(t, name, s1);
    RenderSubstitutes(t, name, s2);
    SubstOtherCount(t, StudentKey, name, SeedKey);
    SubstUnused(Subst(t, StudentKey, name), SeedKey, Decimal(s1));
    SubstUnused(Subst(t, StudentKey, name), SeedKey, Decimal(s2));
  }

  lemma BindConcat(t: Template, u: Template, name: string, seed: nat)
    ensures Bind(t + u, name, seed) == Bind(t, name, seed) + Bind(u, name, seed)
  {
    SubstConcat(t, u, StudentKey, name);
    SubstConcat(Subst(t, StudentKey, name), Subst(u, StudentKey, name), SeedKey, Decimal(seed));
  }

  lemma KeyFacts()
    ensures StudentKey != SeedKey
    ensures IsKey(StudentKey) && IsUpper(StudentKey[0]) && IsKey(SeedKey) && IsUpper(SeedKey[0])
  {
    assert |StudentKey| != |SeedKey|;
  }

  /** Binding a single part: literals stay, placeholders take their value. */
  lemma BindOne(p: Part, name: string, seed: nat)
    ensures Source(Bind([p], name, seed))
      == if p == Field(StudentKey) then name else if p == Field(SeedKey) then Decimal(seed) else PartSource(p)
  {
    KeyFacts();
    var u := Bind([p], name, seed);
    assert |u| == 1;
    assert u == [u[0]];
    SourceOne(u[0]);
  }

  /** Binding and then spelling out a template, one part more. */
  lemma BindSnoc(t: Template, p: Part, name: string, seed: nat)
    ensures Source(Bind(t + [p], name, seed))
      == Source(Bind(t, name, seed))
         + (if p == Field(StudentKey) then name else if p == Field(SeedKey) then Decimal(seed) else PartSource(p))
  {
    BindConcat(t, [p], name, seed);
    SourceConcat(Bind(t, name, seed), Bind([p], name, seed));
    BindOne(p, name, seed);
  }

  /** Binding a demo-shaped template: the head, the name, the bound middle,
      the tail and the closing lines. */
  lemma BindShape(h: string, mid: Template, z: string, name: string, seed: nat)
    ensures Source(Bind([Lit(h), Field(StudentKey)] + mid + [Lit(z)] + [Lit(MainClose)], name, seed))
      == h + name + Source(Bind(mid, name, seed)) + z + MainClose
  {
    var a := [Lit(h), Field(StudentKey)];
    assert a == [Lit(h)] + [Field(StudentKey)];
    BindOne(Lit(h), name, seed);
    BindSnoc([Lit(h)], Field(StudentKey), name, seed);
    BindConcat(a, mid, name, seed);
    SourceConcat(Bind(a, name, seed), Bind(mid, name, seed));
    BindSnoc(a + mid, Lit(z), name, seed);
    BindSnoc(a + mid + [Lit(z)], Lit(MainClose), name, seed);
  }

  /** The middle of the shuffle demo, bound: the seed appears twice. */
  lemma ShuffleMiddleText(name: string, seed: nat)
    ensures Source(Bind(Middle(11), name, seed))
      == ShuffleMiddle + Decimal(seed) + ShuffleBetween + Decimal(seed)
  {
    var m, sd, b := Lit(ShuffleMiddle), Field(SeedKey), Lit(ShuffleBetween);
    assert Middle(11) == [m] + [sd] + [b] + [sd];
    BindOne(m, name, seed);
    BindSnoc([m], sd, name, seed);
    BindSnoc([m] + [sd], b, name, seed);
    BindSnoc([m] + [sd] + [b], sd, name, seed);
  }

  /** The bound shuffle demo, part by part. */
  lemma ShuffleText(name: string, seed: nat)
    ensures Source(Bind(DemoTemplate(11), name, seed))
      == ShuffleHead + name + (ShuffleMiddle + Decimal(seed) + ShuffleBetween + Decimal(seed))
         + ShuffleTail + MainClose
  {
    assert Heads[11] == ShuffleHead && Tails[11] == ShuffleTail;
    BindShape(ShuffleHead, Middle(11), ShuffleTail, name, seed);
    ShuffleMiddleText(name, seed);
  }

  /** In `x + (m + d + b + d) + t + c`, the first `d` starts right after `x + m`. */
  lemma FirstSeedSlice(x: string, m: string, d: string, b: string, t: string, c: string)
    ensures var r := x + (m + d + b + d) + t + c;
      |r| == |x| + |m| + 2 * |d| + |b| + |t| + |c| && r[|x| + |m|..|x| + |m| + |d|] == d
  {
    var y := m + d + b + d;
    var r := x + y + t + c;
    var k := |x| + |m|;
    assert r[k..k + |d|] == (x + y)[k..k + |d|];
    assert (x + y)[k..k + |d|] == y[|m|..|m| + |d|];
    assert y == (m + d) + (b + d);
  }

  /** Two texts of that shape which agree everywhere else and as a whole
      carry the same `d`. */
  lemma SameSlotSameValue(x: string, m: string, d1: string, d2: string, b: string, t: string, c: string)
    requires x + (m + d1 + b + d1) + t + c == x + (m + d2 + b + d2) + t + c
    ensures d1 == d2
  {
    FirstSeedSlice(x, m, d1, b, t, c);
    FirstSeedSlice(x, m, d2, b, t, c);
  }

  /** The shuffle demo, on the other hand, tells every seed apart. */
  lemma ShuffleShowsSeed(name: string, s1: nat, s2: nat)
    requires Inert(name)
    requires Render(Source(DemoTemplate(11)), name, s1) == Render(Source(DemoTemplate(11)), name, s2)
    ensures s1 == s2
  {
    var t := DemoTemplate(11);
    TemplateSlots(11);
    SlotsReplaceReady(t);
    RenderSubstitutes(t, name, s1);
    RenderSubstitutes(t, name, s2);
    ShuffleText(name, s1);
    ShuffleText(name, s2);
    SameSlotSameValue(ShuffleHead + name, ShuffleMiddle, Decimal(s1), Decimal(s2), ShuffleBetween, ShuffleTail, MainClose);
    DecimalInjective(s1, s2);
  }

  /** What the generator writes as written: the rendered text still ends in
      the doubled braces of the template, so `Main.java` closes with
      `}}` lines instead of `}` lines. */
  lemma RenderKeepsDoubledBraces(k: nat, name: string, seed: nat)
    requires k < NumTemplates && Inert(name)
    ensures var r := Render(Source(DemoTemplate(k)), name, seed);
      |r| >= |MainClose| && r[|r| - |MainClose|..] == "    }}\n}}\n"
  {
    var t := DemoTemplate(k);
    TemplateSlots(k);
    SlotsReplaceReady(t);
    RenderSubstitutes(t, name, seed);
    var b := Body(k);
    var c: Template := [Lit(MainClose)];
    assert t == b + c;
    SubstConcat(b, c, StudentKey, name);
    SubstConcat(Subst(b, StudentKey, name), Subst(c, StudentKey, name), SeedKey, Decimal(seed));
    assert Bind(t, name, seed) == Bind(b, name, seed) + c;
    SourceConcat(Bind(b, name, seed), c);
    assert c[1..] == [];
  }

  // ---------------------------------------------------------------------
  // Rendering as intended: `str.format`

  /** The keyword arguments of the intended `tmpl.format(STUDENT=name, SEED=str(seed))`. */
  function Args(name: string, seed: nat): map<string, string>
  {
    map[StudentKey := name, SeedKey := Decimal(seed)]
  }

  /** The intended rendering: `format` turns the doubled braces back into
      single ones and fills both placeholders. */
  function RenderFormatted(template: string, name: string, seed: nat): Formatted
  {
    Format(template, Args(name, seed))
  }

  /** Every demo renders without error, for every name: the placeholders take
      the name and the seed, the literal text loses its doubling, and the
      class closes with single braces. */
  lemma RenderFormattedCloses(k: nat, name: string, seed: nat)
    requires k < NumTemplates
    ensures FormatReady(DemoTemplate(k), Args(name, seed))
    ensures RenderFormatted(Source(DemoTemplate(k)), name, seed) == Ok(Expand(DemoTemplate(k), Args(name, seed)))
    ensures var r := Expand(DemoTemplate(k), Args(name, seed));
      |r| >= 8 && r[|r| - 8..] == "    }\n}\n"
  {
    var t, args := DemoTemplate(k), Args(name, seed);
    TemplateSlots(k);
    SlotsFormatReady(t, args);
    FormatExpands(t, args);
    ExpandCloses(Body(k), args);
  }

  /** Any template ending in the closing lines expands to text ending in
      single braces. */
  lemma ExpandCloses(b: Template, args: map<string, string>)
    requires FormatReady(b + [Lit(MainClose)], args)
    ensures var r := Expand(b + [Lit(MainClose)], args);
      |r| >= 8 && r[|r| - 8..] == "    }\n}\n"
  {
    var c: Template := [Lit(MainClose)];
    forall i | 0 <= i < |b|
      ensures PartFormatReady(b[i], args)
    {
      assert (b + c)[i] == b[i];
    }
    assert (b + c)[|b|] == Lit(MainClose);
    MainCloseText();
    ExpandConcat(b, c, args);
    assert c[1..] == [];
    assert Expand(c, args) == "    }\n}\n";
  }

  /** The `Main.java` that `main` writes for `name`: the chosen demo with its
      two placeholders replaced. */
  function WrittenMain(name: string): string
  {
    Render(Source(DemoTemplate(StableIndex(name))), name, Seed(name))
  }

  /** The `Main.java` the templates are written for: the chosen demo
      formatted with the name and the seed. */
  function IntendedMain(name: string): string
  {
    Demo(StableIndex(name), name, Seed(name))
  }

  /** Demo `k` formatted for `name` and `seed`. */
  function Demo(k: nat, name: string, seed: nat): string
    requires k < NumTemplates
  {
    TemplateSlots(k);
    SlotsFormatReady(DemoTemplate(k), Args(name, seed));
    Expand(DemoTemplate(k), Args(name, seed))
  }

  /** Formatting the chosen demo succeeds and gives the intended `Main.java`,
      which closes with single braces. */
  lemma IntendedMainFormats(name: string)
    ensures RenderFormatted(Source(DemoTemplate(StableIndex(name))), name, Seed(name)) == Ok(IntendedMain(name))
    ensures var r := IntendedMain(name); |r| >= 8 && r[|r| - 8..] == "    }\n}\n"
  {
    RenderFormattedCloses(StableIndex(name), name, Seed(name));
  }

  /** For every name that introduces no placeholder, the written `Main.java`
      is not the intended one: its third-last character is the second `}` of
      a doubled closing brace, where the intended text has a line break. */
  lemma WrittenMainDiffers(name: string)
    requires Inert(name)
    ensures WrittenMain(name) != IntendedMain(name)
  {
    var k, seed := StableIndex(name), Seed(name);
    RenderKeepsDoubledBraces(k, name, seed);
    IntendedMainFormats(name);
    ClosingsDiffer(WrittenMain(name), IntendedMain(name));
  }

  /** A text closing with doubled braces is not one closing with single braces. */
  lemma ClosingsDiffer(w: string, m: string)
    requires |w| >= 10 && w[|w| - 10..] == "    }}\n}}\n"
    requires |m| >= 8 && m[|m| - 8..] == "    }\n}\n"
    ensures w != m
  {
    assert w[|w| - 10..][7] == w[|w| - 3] == '}';
    assert m[|m| - 8..][5] == m[|m| - 3] == '\n';
  }

  // ---------------------------------------------------------------------
  // The README

  const ReadmeRun: string :=
    "\n\n运行：\n    javac -d bin src/*.java\n    java -cp bin Main\n\n程序说明在 Main.java 的注释中。\n"

  /** `make_readme(name, idx)` after dedenting (exact for a one-line name). */
  function MakeReadme(name: string, idx: nat): string
  {
    "# " + name + "\n\n这是为 " + name + " 生成的集合框架控制台小程序（模板 #" + Decimal(idx) + "）。" + ReadmeRun
  }

  /** The README opens with the name as its heading. */
  lemma ReadmeHeading(name: string, idx: nat)
    ensures var r := MakeReadme(name, idx); |r| >= 2 + |name| && r[..2] == "# " && r[2..2 + |name|] == name
  {
  }

  /** The README names the demo number, and different numbers give different
      READMEs. */
  lemma {:induction false} ReadmeNamesTemplate(name: string, i: nat, j: nat)
    ensures MakeReadme(name, i) == MakeReadme(name, j) <==> i == j
  {
    var p := "# " + name + "\n\n这是为 " + name + " 生成的集合框架控制台小程序（模板 #";
    var q := "）。" + ReadmeRun;
    var di, dj := Decimal(i), Decimal(j);
    assert MakeReadme(name, i) == p + di + q;
    assert MakeReadme(name, j) == p + dj + q;
    if MakeReadme(name, i) == MakeReadme(name, j) {
      assert |di| == |dj|;
      assert (p + di + q)[|p|..|p| + |di|] == di;
      assert (p + dj + q)[|p|..|p| + |dj|] == dj;
      DecimalInjective(i, j);
    }
  }

  // ---------------------------------------------------------------------
  // The folders

  /** The two files of one folder. */
  function FolderFiles(name: string): Files
  {
    map["src/Main.java" := WrittenMain(name), "README.md" := MakeReadme(name, StableIndex(name))]
  }

  /** The files of each folder, in the order of the names. */
  function FolderRels(names: seq<string>): (rels: seq<Files>)
    ensures |rels| == |names|
  {
    seq(|names|, i requires 0 <= i < |names| => FolderFiles(names[i]))
  }

  lemma FolderRelsAt(names: seq<string>, i: nat)
    requires i < |names|
    ensures FolderRels(names)[i] == FolderFiles(names[i])
  {
  }

  /** `main`: one folder per name, in order; `created` lists the folders
      that go into the archive. */
  method Generate(names: seq<string>) returns (created: seq<string>, files: Files)
    ensures created == names
    ensures files == Tree(names, FolderRels(names))
  {
    created, files := WriteFolders(names, FolderRels(names));
  }

  /** A folder holds `src/Main.java`, the demo its checksum picks with the
      name and the seed put in by the two replaces, and `README.md`, naming
      the same demo number. */
  lemma FolderContents(name: string, x: string)
    ensures x in FolderFiles(name) <==> x == "src/Main.java" || x == "README.md"
    ensures FolderFiles(name)["src/Main.java"] == Render(Source(DemoTemplate(StableIndex(name))), name, Seed(name))
    ensures FolderFiles(name)["README.md"] == MakeReadme(name, StableIndex(name))
  {
  }

  /** With distinct single-component names, folder `i` of the output holds
      exactly the files laid out for `names[i]`. */
  lemma CollectionsLayout(names: seq<string>, i: nat, x: string)
    requires FolderNames(names) && i < |names|
    ensures Path(names[i], x) in Tree(names, FolderRels(names)) <==> x in FolderFiles(names[i])
    ensures x in FolderFiles(names[i]) ==>
      Tree(names, FolderRels(names))[Path(names[i], x)] == FolderFiles(names[i])[x]
  {
    TreeFolder(names, FolderRels(names), i, x);
    FolderRelsAt(names, i);
  }
}
