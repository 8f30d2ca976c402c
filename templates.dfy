/** The two ways the generators fill a template: Python's `str.replace`
    (generate_java_collections.py) and `str.format` (generate_java_sorts.py).

    A template is described by its parts: literal text, written as it stands in
    the Python source, and named fields `{KEY}`. `Source` gives the Python
    string; `Replace` and `Format` are the two string operations; `Subst` and
    `Expand` say, part by part, what each operation produces. */
module Templates {
  import opened Strings

  datatype Part = Lit(text: string) | Field(key: string)

  type Template = seq<Part>

  /** A field name: non-empty and free of braces. */
  predicate IsKey(key: string)
  {
    |key| > 0 && forall i :: 0 <= i < |key| ==> key[i] != '{' && key[i] != '}'
  }

  /** A string with no brace at all. */
  predicate Plain(s: string)
  {
    forall i :: 0 <= i < |s| ==> s[i] != '{' && s[i] != '}'
  }

  function Token(key: string): string { "{" + key + "}" }

  function PartSource(p: Part): string
  {
    match p
    case Lit(text) => text
    case Field(key) => Token(key)
  }

  /** The template as the Python source spells it. */
  function Source(t: Template): string
  {
    if t == [] then "" else PartSource(t[0]) + Source(t[1..])
  }

  /** Number of `Field(key)` parts. */
  function FieldCount(t: Template, key: string): nat
  {
    if t == [] then 0
    else (if t[0] == Field(key) then 1 else 0) + FieldCount(t[1..], key)
  }

  lemma {:induction false} FieldCountConcat(t: Template, u: Template, key: string)
    ensures FieldCount(t + u, key) == FieldCount(t, key) + FieldCount(u, key)
  {
    if t == [] {
      assert t + u == u;
    } else {
      assert (t + u)[0] == t[0];
      assert (t + u)[1..] == t[1..] + u;
      FieldCountConcat(t[1..], u, key);
    }
  }

  lemma FieldCountOne(p: Part, key: string)
    ensures FieldCount([p], key) == if p == Field(key) then 1 else 0
  {
    assert [p][1..] == [];
  }

  lemma SourceOne(p: Part)
    ensures Source([p]) == PartSource(p)
  {
    assert [p][1..] == [];
  }

  lemma SourceCons(p: Part, u: Template)
    ensures Source([p] + u) == PartSource(p) + Source(u)
  {
    assert ([p] + u)[0] == p;
    assert ([p] + u)[1..] == u;
  }

  lemma {:induction false} SourceConcat(t: Template, u: Template)
    ensures Source(t + u) == Source(t) + Source(u)
  {
    if t == [] {
      assert t + u == u;
    } else {
      assert (t + u)[0] == t[0];
      assert (t + u)[1..] == t[1..] + u;
      SourceConcat(t[1..], u);
    }
  }

  // ---------------------------------------------------------------------
  // str.replace

  predicate MatchAt(s: string, i: nat, p: string)
  {
    i + |p| <= |s| && s[i..i + |p|] == p
  }

  /** Python's `s.replace(p, r)` for a non-empty `p`: scanning left to right,
      each occurrence of `p` that does not overlap an earlier replaced one
      becomes `r`; the replacement text is not scanned again. */
  function Replace(s: string, p: string, r: string): string
    requires |p| > 0
    decreases |s|
  {
    if |s| < |p| then s
    else if s[..|p|] == p then r + Replace(s[|p|..], p, r)
    else [s[0]] + Replace(s[1..], p, r)
  }

  /** Text before which no occurrence of `p` starts is copied unchanged. */
  lemma {:induction false} ReplaceSkip(a: string, b: string, p: string, r: string)
    requires |p| > 0
    requires forall i :: 0 <= i < |a| ==> !MatchAt(a + b, i, p)
    ensures Replace(a + b, p, r) == a + Replace(b, p, r)
  {
    if a == [] {
      assert a + b == b;
    } else {
      var s := a + b;
      assert !MatchAt(s, 0, p);
      if |s| < |p| {
        assert Replace(b, p, r) == b;
      } else {
        assert s[0] == a[0];
        assert s[..|p|] != p;
        assert s[1..] == a[1..] + b;
        forall i | 0 <= i < |a[1..]|
          ensures !MatchAt(a[1..] + b, i, p)
        {
          assert !MatchAt(s, i + 1, p);
          if i + |p| <= |a[1..] + b| {
            assert (a[1..] + b)[i..i + |p|] == s[i + 1..i + 1 + |p|];
          }
        }
        ReplaceSkip(a[1..], b, p, r);
        assert [a[0]] + a[1..] == a;
      }
    }
  }

  lemma ReplaceHit(b: string, p: string, r: string)
    requires |p| > 0
    ensures Replace(p + b, p, r) == r + Replace(b, p, r)
  {
    assert (p + b)[..|p|] == p;
    assert (p + b)[|p|..] == b;
  }

  /** Literal text in which every `{` is followed, in the same text, by
      something other than an upper-case letter: no placeholder `{KEY}` with
      an upper-case KEY can start in it, nor straddle its end. */
  predicate Inert(s: string)
  {
    forall i :: 0 <= i < |s| && s[i] == '{' ==> i + 1 < |s| && !IsUpper(s[i + 1])
  }

  lemma InertSkips(a: string, b: string, key: string)
    requires Inert(a) && IsKey(key) && IsUpper(key[0])
    ensures forall i :: 0 <= i < |a| ==> !MatchAt(a + b, i, Token(key))
  {
    var p := Token(key);
    forall i | 0 <= i < |a|
      ensures !MatchAt(a + b, i, p)
    {
      if i + |p| <= |a + b| {
        var w := (a + b)[i..i + |p|];
        if a[i] == '{' {
          assert w[1] == a[i + 1] && !IsUpper(w[1]);
          assert w[1] != p[1];
        } else {
          assert w[0] == a[i] && w[0] != p[0];
        }
      }
    }
  }

  lemma InertConcat(a: string, b: string)
    requires Inert(a) && Inert(b)
    ensures Inert(a + b)
  {
    forall i | 0 <= i < |a + b| && (a + b)[i] == '{'
      ensures i + 1 < |a + b| && !IsUpper((a + b)[i + 1])
    {
      if i < |a| {
        assert a[i] == '{';
      } else {
        assert b[i - |a|] == '{';
      }
    }
  }

  /** An inert text contains no upper-case placeholder at all. */
  lemma InertHasNoToken(s: string, key: string)
    requires Inert(s) && IsKey(key) && IsUpper(key[0])
    ensures forall i :: 0 <= i <= |s| ==> !MatchAt(s, i, Token(key))
  {
    InertSkips(s, [], key);
    assert s + [] == s;
  }

  /** A placeholder for one key never matches the placeholder for another. */
  lemma TokenSkips(k: string, b: string, key: string)
    requires IsKey(k) && IsKey(key) && k != key
    ensures forall i :: 0 <= i < |Token(k)| ==> !MatchAt(Token(k) + b, i, Token(key))
  {
    var s, p := Token(k) + b, Token(key);
    forall i | 0 <= i < |Token(k)|
      ensures !MatchAt(s, i, p)
    {
      if i + |p| <= |s| {
        var w := s[i..i + |p|];
        if i > 0 {
          assert w[0] == s[i];
          if i <= |k| {
            assert s[i] == k[i - 1];
          }
          assert w[0] != p[0];
        } else if |k| < |key| {
          assert w[|k| + 1] == '}' && p[|k| + 1] == key[|k|];
          assert w[|k| + 1] != p[|k| + 1];
        } else if |k| > |key| {
          assert p[|key| + 1] == '}' && w[|key| + 1] == k[|key|];
          assert w[|key| + 1] != p[|key| + 1];
        } else {
          var j :| 0 <= j < |k| && k[j] != key[j];
          assert w[j + 1] == k[j] && p[j + 1] == key[j];
          assert w[j + 1] != p[j + 1];
        }
      }
    }
  }

  /** Ready for `replace`: inert literals and well-formed field names. */
  predicate PartReplaceReady(p: Part)
  {
    match p
    case Lit(text) => Inert(text)
    case Field(key) => IsKey(key)
  }

  predicate ReplaceReady(t: Template)
  {
    forall i :: 0 <= i < |t| ==> PartReplaceReady(t[i])
  }

  /** The template with every `Field(key)` turned into the literal `v`. */
  function Subst(t: Template, key: string, v: string): (u: Template)
    ensures |u| == |t|
    ensures forall i :: 0 <= i < |t| ==> u[i] == (if t[i] == Field(key) then Lit(v) else t[i])
  {
    if t == [] then []
    else [if t[0] == Field(key) then Lit(v) else t[0]] + Subst(t[1..], key, v)
  }

  /** `Source(t).replace("{KEY}", v)` substitutes exactly the `KEY` fields and
      leaves every other character where it was. */
  lemma {:induction false} ReplaceField(t: Template, key: string, v: string)
    requires ReplaceReady(t) && IsKey(key) && IsUpper(key[0])
    ensures Replace(Source(t), Token(key), v) == Source(Subst(t, key, v))
  {
    if t != [] {
      var rest := Source(t[1..]);
      assert PartReplaceReady(t[0]);
      assert ReplaceReady(t[1..]);
      ReplaceField(t[1..], key, v);
      assert Subst(t, key, v)[1..] == Subst(t[1..], key, v);
      match t[0]
      case Lit(text) =>
        InertSkips(text, rest, key);
        ReplaceSkip(text, rest, Token(key), v);
      case Field(k) =>
        if k == key {
          ReplaceHit(rest, Token(key), v);
        } else {
          TokenSkips(k, rest, key);
          ReplaceSkip(Token(k), rest, Token(key), v);
        }
    }
  }

  lemma SubstConcat(t: Template, u: Template, key: string, v: string)
    ensures Subst(t + u, key, v) == Subst(t, key, v) + Subst(u, key, v)
  {
  }

  /** Substituting one key leaves the fields of every other key in place. */
  lemma {:induction false} SubstOtherCount(t: Template, key: string, v: string, other: string)
    requires other != key
    ensures FieldCount(Subst(t, key, v), other) == FieldCount(t, other)
  {
    if t != [] {
      SubstOtherCount(t[1..], key, v, other);
      assert Subst(t, key, v)[1..] == Subst(t[1..], key, v);
    }
  }

  lemma SubstReady(t: Template, key: string, v: string)
    requires ReplaceReady(t) && Inert(v)
    ensures ReplaceReady(Subst(t, key, v))
  {
  }

  /** Substituting a key the template does not use changes nothing. */
  lemma {:induction false} SubstUnused(t: Template, key: string, v: string)
    requires FieldCount(t, key) == 0
    ensures Subst(t, key, v) == t
  {
    if t != [] {
      SubstUnused(t[1..], key, v);
    }
  }

  lemma {:induction false} SubstCount(t: Template, key: string, v: string)
    ensures FieldCount(Subst(t, key, v), key) == 0
  {
    if t != [] {
      SubstCount(t[1..], key, v);
      assert Subst(t, key, v)[1..] == Subst(t[1..], key, v);
    }
  }

  /** A template without fields whose literals are inert has inert text. */
  lemma {:induction false} SourceInert(t: Template)
    requires forall i :: 0 <= i < |t| ==> t[i].Lit? && Inert(t[i].text)
    ensures Inert(Source(t))
  {
    if t != [] {
      SourceInert(t[1..]);
      InertConcat(t[0].text, Source(t[1..]));
    }
  }

  // ---------------------------------------------------------------------
  // str.format

  datatype FormatError =
    | SingleOpenBrace      // "Single '{' encountered in format string"
    | SingleCloseBrace     // "Single '}' encountered in format string"
    | UnclosedField        // "expected '}' before end of string"
    | BraceInField         // "unexpected '{' in field name"
    | PositionalField      // `{}` asks for a positional argument; none is given
    | UnknownField(key: string)  // KeyError

  datatype Formatted = Ok(text: string) | Err(error: FormatError)

  function Prefix(x: string, f: Formatted): Formatted
  {
    match f
    case Ok(y) => Ok(x + y)
    case Err(e) => Err(e)
  }

  lemma PrefixEmpty(f: Formatted)
    ensures Prefix("", f) == f
  {
    if f.Ok? {
      assert "" + f.text == f.text;
    }
  }

  lemma PrefixPrefix(x: string, y: string, f: Formatted)
    ensures Prefix(x, Prefix(y, f)) == Prefix(x + y, f)
  {
    if f.Ok? {
      assert x + (y + f.text) == (x + y) + f.text;
    }
  }

  /** The first index at or after `i` that holds a brace, or `|s|`. */
  function FieldEnd(s: string, i: nat): (j: nat)
    requires i <= |s|
    ensures i <= j <= |s|
    ensures j < |s| ==> s[j] == '{' || s[j] == '}'
    ensures forall k :: i <= k < j ==> s[k] != '{' && s[k] != '}'
    decreases |s| - i
  {
    if i == |s| || s[i] == '{' || s[i] == '}' then i else FieldEnd(s, i + 1)
  }

  /** Python's `s.format(**args)` for plain field names: `{{` and `}}` stand
      for one brace each, `{name}` for `args[name]`. */
  function Format(s: string, args: map<string, string>): Formatted
    decreases |s|
  {
    if s == [] then Ok("")
    else if s[0] == '{' then
      if |s| == 1 then Err(SingleOpenBrace)
      else if s[1] == '{' then Prefix("{", Format(s[2..], args))
      else
        var j := FieldEnd(s, 1);
        if j == |s| then Err(UnclosedField)
        else if s[j] == '{' then Err(BraceInField)
        else if j == 1 then Err(PositionalField)
        else if s[1..j] !in args then Err(UnknownField(s[1..j]))
        else Prefix(args[s[1..j]], Format(s[j + 1..], args))
    else if s[0] == '}' then
      if |s| > 1 && s[1] == '}' then Prefix("}", Format(s[2..], args))
      else Err(SingleCloseBrace)
    else Prefix([s[0]], Format(s[1..], args))
  }

  /** Literal text of a format string: every brace is doubled. */
  predicate Escaped(s: string)
    decreases |s|
  {
    if s == [] then true
    else if s[0] == '{' || s[0] == '}' then |s| >= 2 && s[1] == s[0] && Escaped(s[2..])
    else Escaped(s[1..])
  }

  /** What `format` makes of escaped literal text: `{{` becomes `{` and `}}` becomes `}`. */
  function Unescape(s: string): string
    requires Escaped(s)
    decreases |s|
  {
    if s == [] then ""
    else if s[0] == '{' || s[0] == '}' then [s[0]] + Unescape(s[2..])
    else [s[0]] + Unescape(s[1..])
  }

  /** How a brace is written in format-string literal text: doubled. */
  function Escape(x: string): string
  {
    if x == [] then ""
    else (if x[0] == '{' || x[0] == '}' then [x[0], x[0]] else [x[0]]) + Escape(x[1..])
  }

  lemma {:induction false} EscapeRoundTrip(x: string)
    ensures Escaped(Escape(x)) && Unescape(Escape(x)) == x
  {
    if x != [] {
      EscapeRoundTrip(x[1..]);
      var e := Escape(x);
      if x[0] == '{' || x[0] == '}' {
        assert e[2..] == Escape(x[1..]);
      } else {
        assert e[1..] == Escape(x[1..]);
      }
    }
  }

  lemma {:induction false} UnescapeRoundTrip(s: string)
    requires Escaped(s)
    ensures Escape(Unescape(s)) == s
  {
    if s != [] {
      if s[0] == '{' || s[0] == '}' {
        UnescapeRoundTrip(s[2..]);
        assert s == [s[0], s[0]] + s[2..];
      } else {
        UnescapeRoundTrip(s[1..]);
        assert s == [s[0]] + s[1..];
      }
    }
  }

  /** Text without braces is literal text that `format` copies unchanged. */
  lemma {:induction false} PlainEscaped(s: string)
    requires Plain(s)
    ensures Escaped(s) && Unescape(s) == s && Inert(s)
  {
    if s != [] {
      PlainEscaped(s[1..]);
    }
  }

  lemma {:induction false} EscapeConcat(x: string, y: string)
    ensures Escape(x + y) == Escape(x) + Escape(y)
  {
    if x == [] {
      assert x + y == y;
    } else {
      assert (x + y)[0] == x[0];
      assert (x + y)[1..] == x[1..] + y;
      EscapeConcat(x[1..], y);
    }
  }

  /** Escaped texts concatenate: the result is escaped and unescapes piece
      by piece. */
  lemma UnescapeConcat(a: string, b: string)
    requires Escaped(a) && Escaped(b)
    ensures Escaped(a + b) && Unescape(a + b) == Unescape(a) + Unescape(b)
  {
    var x, y := Unescape(a), Unescape(b);
    UnescapeRoundTrip(a);
    UnescapeRoundTrip(b);
    EscapeConcat(x, y);
    EscapeRoundTrip(x + y);
  }

  /** A line holding `indent` and a doubled closing brace. */
  lemma ClosingLine(indent: string)
    requires Plain(indent)
    ensures Escaped(indent + "}}\n") && Inert(indent + "}}\n")
    ensures Unescape(indent + "}}\n") == indent + "}\n"
  {
    var c := "}}\n";
    assert c[2..] == "\n" && "\n"[1..] == [];
    assert Escaped(c) && Unescape(c) == "}\n";
    PlainEscaped(indent);
    UnescapeConcat(indent, c);
    InertConcat(indent, c);
  }

  lemma {:induction false} FormatLiteral(a: string, b: string, args: map<string, string>)
    requires Escaped(a)
    ensures Format(a + b, args) == Prefix(Unescape(a), Format(b, args))
    decreases |a|
  {
    if a == [] {
      assert a + b == b;
      PrefixEmpty(Format(b, args));
    } else {
      var s := a + b;
      if a[0] == '{' || a[0] == '}' {
        assert s[0] == a[0] && s[1] == a[1] == a[0];
        assert s[2..] == a[2..] + b;
        FormatLiteral(a[2..], b, args);
        assert Format(s, args) == Prefix([a[0]], Format(s[2..], args));
        PrefixPrefix([a[0]], Unescape(a[2..]), Format(b, args));
      } else {
        assert s[0] == a[0];
        assert s[1..] == a[1..] + b;
        FormatLiteral(a[1..], b, args);
        assert Format(s, args) == Prefix([a[0]], Format(s[1..], args));
        PrefixPrefix([a[0]], Unescape(a[1..]), Format(b, args));
      }
    }
  }

  lemma FormatToken(key: string, b: string, args: map<string, string>)
    requires IsKey(key) && key in args
    ensures Format(Token(key) + b, args) == Prefix(args[key], Format(b, args))
  {
    var s := Token(key) + b;
    var n := |key| + 1;
    assert s[n] == '}';
    assert forall k :: 1 <= k < n ==> s[k] == key[k - 1];
    var j := FieldEnd(s, 1);
    assert j == n;
    assert s[1..j] == key;
    assert s[j + 1..] == b;
  }

  /** Ready for `format` with `args`: escaped literals, and every field named
      by a key of `args`. */
  predicate PartFormatReady(p: Part, args: map<string, string>)
  {
    match p
    case Lit(text) => Escaped(text)
    case Field(key) => IsKey(key) && key in args
  }

  predicate FormatReady(t: Template, args: map<string, string>)
  {
    forall i :: 0 <= i < |t| ==> PartFormatReady(t[i], args)
  }

  function Expand(t: Template, args: map<string, string>): string
    requires FormatReady(t, args)
  {
    if t == [] then ""
    else
      (match t[0]
       case Lit(text) => Unescape(text)
       case Field(key) => args[key])
      + Expand(t[1..], args)
  }

  lemma {:induction false} ExpandConcat(t: Template, u: Template, args: map<string, string>)
    requires FormatReady(t, args) && FormatReady(u, args)
    ensures FormatReady(t + u, args)
    ensures Expand(t + u, args) == Expand(t, args) + Expand(u, args)
  {
    if t == [] {
      assert t + u == u;
    } else {
      assert (t + u)[0] == t[0];
      assert (t + u)[1..] == t[1..] + u;
      assert FormatReady(t[1..], args);
      ExpandConcat(t[1..], u, args);
    }
  }

  /** A literal, a field and a literal expand to the unescaped literals
      around the field's value. */
  lemma ExpandLitFieldLit(a: string, key: string, b: string, args: map<string, string>)
    requires Escaped(a) && Escaped(b) && IsKey(key) && key in args
    ensures FormatReady([Lit(a), Field(key), Lit(b)], args)
    ensures Expand([Lit(a), Field(key), Lit(b)], args) == Unescape(a) + (args[key] + Unescape(b))
  {
    var t := [Lit(a), Field(key), Lit(b)];
    assert PartFormatReady(t[0], args) && PartFormatReady(t[1], args) && PartFormatReady(t[2], args);
    assert t[1..] == [Field(key), Lit(b)] && t[1..][1..] == [Lit(b)] && t[1..][1..][1..] == [];
    assert Expand(t[1..][1..], args) == Unescape(b) + "";
    assert Expand(t[1..], args) == args[key] + Unescape(b);
  }

  /** Two literals expand to their unescaped texts. */
  lemma ExpandLitLit(a: string, b: string, args: map<string, string>)
    requires Escaped(a) && Escaped(b)
    ensures FormatReady([Lit(a), Lit(b)], args)
    ensures Expand([Lit(a), Lit(b)], args) == Unescape(a) + Unescape(b)
  {
    var t := [Lit(a), Lit(b)];
    assert PartFormatReady(t[0], args) && PartFormatReady(t[1], args);
    assert t[1..] == [Lit(b)] && t[1..][1..] == [];
    assert Expand(t[1..], args) == Unescape(b) + "";
  }

  /** `format` succeeds on a ready template and yields, part by part, the
      unescaped literals and the field values. */
  lemma {:induction false} FormatExpands(t: Template, args: map<string, string>)
    requires FormatReady(t, args)
    ensures Format(Source(t), args) == Ok(Expand(t, args))
  {
    if t != [] {
      assert PartFormatReady(t[0], args);
      assert FormatReady(t[1..], args);
      FormatExpands(t[1..], args);
      match t[0]
      case Lit(text) => FormatLiteral(text, Source(t[1..]), args);
      case Field(key) => FormatToken(key, Source(t[1..]), args);
    }
  }

  /** A field the arguments do not name makes `format` fail (Python raises
      KeyError); nothing is silently left unfilled. */
  lemma {:induction false} FormatMissingKey(t: Template, args: map<string, string>, k: nat)
    requires k < |t| && t[k].Field? && IsKey(t[k].key) && t[k].key !in args
    requires forall i :: 0 <= i < k ==> PartFormatReady(t[i], args)
    ensures Format(Source(t), args).Err?
  {
    var rest := Source(t[1..]);
    if k == 0 {
      var key := t[0].key;
      var s := Token(key) + rest;
      var n := |key| + 1;
      assert s[n] == '}';
      assert forall j :: 1 <= j < n ==> s[j] == key[j - 1];
      assert FieldEnd(s, 1) == n;
      assert s[1..n] == key;
    } else {
      assert PartFormatReady(t[0], args);
      FormatMissingKey(t[1..], args, k - 1);
      match t[0]
      case Lit(text) => FormatLiteral(text, rest, args);
      case Field(key) => FormatToken(key, rest, args);
    }
  }
}
