/** Small string functions the three generators rely on: Python's `str(int)`,
    `str.upper` on ASCII, `html.escape`, and the splicing of one value into the
    slots of an f-string. */
module Strings {

  predicate IsDigit(c: char) { '0' <= c <= '9' }

  predicate IsUpper(c: char) { 'A' <= c <= 'Z' }

  predicate IsLower(c: char) { 'a' <= c <= 'z' }

  function Min(a: int, b: int): int { if a < b then a else b }

  function DigitChar(d: nat): (c: char)
    requires d < 10
    ensures IsDigit(c) && (c as int) - ('0' as int) == d
  {
    (('0' as int) + d) as char
  }

  /** Python's `str(n)` for a non-negative integer: its decimal digits, most
      significant first, without leading zeros. */
  function Decimal(n: nat): (s: string)
    ensures |s| > 0
    ensures forall i :: 0 <= i < |s| ==> IsDigit(s[i])
    ensures s[0] == '0' ==> n == 0
    decreases n
  {
    if n < 10 then [DigitChar(n)] else Decimal(n / 10) + [DigitChar(n % 10)]
  }

  /** The number a string of decimal digits denotes (the inverse of Decimal). */
  function DecimalValue(s: string): nat
    requires forall i :: 0 <= i < |s| ==> IsDigit(s[i])
  {
    if s == [] then 0
    else
      assert IsDigit(s[|s| - 1]);
      DecimalValue(s[..|s| - 1]) * 10 + ((s[|s| - 1] as int) - ('0' as int))
  }

  lemma {:induction false} DecimalRoundTrip(n: nat)
    ensures DecimalValue(Decimal(n)) == n
    decreases n
  {
    if n >= 10 {
      DecimalRoundTrip(n / 10);
      var s := Decimal(n);
      assert s[..|s| - 1] == Decimal(n / 10);
    }
  }

  /** Distinct numbers print differently. */
  lemma DecimalInjective(m: nat, n: nat)
    requires Decimal(m) == Decimal(n)
    ensures m == n
  {
    DecimalRoundTrip(m);
    DecimalRoundTrip(n);
  }

  /** Python's `str.upper`, restricted to the ASCII letters. */
  function UpperChar(c: char): (u: char)
    ensures IsLower(c) ==> IsUpper(u) && (u as int) == (c as int) - 32
    ensures !IsLower(c) ==> u == c
  {
    if IsLower(c) then ((c as int) - 32) as char else c
  }

  function Upper(s: string): (r: string)
    ensures |r| == |s|
    ensures forall i :: 0 <= i < |s| ==> r[i] == UpperChar(s[i])
  {
    if s == [] then [] else [UpperChar(s[0])] + Upper(s[1..])
  }

  /** The five characters `html.escape(s, quote=True)` rewrites. */
  predicate HtmlSpecial(c: char) { c == '&' || c == '<' || c == '>' || c == '"' || c == '\'' }

  function EscapeChar(c: char): (r: string)
    ensures !HtmlSpecial(c) ==> r == [c]
    ensures forall i :: 0 <= i < |r| ==> r[i] != '<' && r[i] != '>' && r[i] != '"' && r[i] != '\''
  {
    match c
    case '&' => "&amp;"
    case '<' => "&lt;"
    case '>' => "&gt;"
    case '"' => "&quot;"
    case '\'' => "&#x27;"
    case _ => [c]
  }

  /** Python's `html.escape(s)`: every special character becomes its entity. */
  function HtmlEscape(s: string): (r: string)
    ensures forall i :: 0 <= i < |r| ==> r[i] != '<' && r[i] != '>' && r[i] != '"' && r[i] != '\''
    ensures (forall i :: 0 <= i < |s| ==> !HtmlSpecial(s[i])) ==> r == s
    ensures |r| >= |s|
  {
    if s == [] then [] else EscapeChar(s[0]) + HtmlEscape(s[1..])
  }

  /** The inverse of HtmlEscape: Python's `html.unescape` restricted to the
      five entities HtmlEscape produces. */
  function HtmlUnescape(r: string): string
    decreases |r|
  {
    if r == [] then []
    else if |r| >= 5 && r[..5] == "&amp;" then "&" + HtmlUnescape(r[5..])
    else if |r| >= 4 && r[..4] == "&lt;" then "<" + HtmlUnescape(r[4..])
    else if |r| >= 4 && r[..4] == "&gt;" then ">" + HtmlUnescape(r[4..])
    else if |r| >= 6 && r[..6] == "&quot;" then "\"" + HtmlUnescape(r[6..])
    else if |r| >= 6 && r[..6] == "&#x27;" then "'" + HtmlUnescape(r[6..])
    else [r[0]] + HtmlUnescape(r[1..])
  }

  /** Unescaping undoes the escape of the first character. */
  lemma UnescapeEscapeChar(c: char, rest: string)
    ensures HtmlUnescape(EscapeChar(c) + rest) == [c] + HtmlUnescape(rest)
  {
    match c
    case '&' => UnescapeAmp(rest);
    case '<' => UnescapeLt(rest);
    case '>' => UnescapeGt(rest);
    case '"' => UnescapeQuot(rest);
    case '\'' => UnescapeApos(rest);
    case _ => UnescapeOther(c, rest);
  }

  lemma UnescapeAmp(rest: string)
    ensures HtmlUnescape("&amp;" + rest) == "&" + HtmlUnescape(rest)
  {
    var r := "&amp;" + rest;
    assert r[..5] == "&amp;";
    assert r[5..] == rest;
  }

  lemma UnescapeLt(rest: string)
    ensures HtmlUnescape("&lt;" + rest) == "<" + HtmlUnescape(rest)
  {
    var r := "&lt;" + rest;
    assert r[..4] == "&lt;" && r[1] == 'l';
    assert r[4..] == rest;
  }

  lemma UnescapeGt(rest: string)
    ensures HtmlUnescape("&gt;" + rest) == ">" + HtmlUnescape(rest)
  {
    var r := "&gt;" + rest;
    assert r[..4] == "&gt;" && r[1] == 'g';
    assert r[4..] == rest;
  }

  lemma UnescapeQuot(rest: string)
    ensures HtmlUnescape("&quot;" + rest) == "\"" + HtmlUnescape(rest)
  {
    var r := "&quot;" + rest;
    assert r[..6] == "&quot;" && r[1] == 'q';
    assert r[6..] == rest;
  }

  lemma UnescapeApos(rest: string)
    ensures HtmlUnescape("&#x27;" + rest) == "'" + HtmlUnescape(rest)
  {
    var r := "&#x27;" + rest;
    assert r[..6] == "&#x27;" && r[1] == '#';
    assert r[6..] == rest;
  }

  lemma UnescapeOther(c: char, rest: string)
    requires c != '&'
    ensures HtmlUnescape([c] + rest) == [c] + HtmlUnescape(rest)
  {
    var r := [c] + rest;
    assert r[0] == c && r[1..] == rest;
    assert |r| >= 4 ==> r[..4][0] == c;
    assert |r| >= 5 ==> r[..5][0] == c;
    assert |r| >= 6 ==> r[..6][0] == c;
  }

  /** Escaping loses nothing: the title can be read back from the page. */
  lemma {:induction false} HtmlEscapeRoundTrip(s: string)
    ensures HtmlUnescape(HtmlEscape(s)) == s
  {
    if s != [] {
      UnescapeEscapeChar(s[0], HtmlEscape(s[1..]));
      HtmlEscapeRoundTrip(s[1..]);
      assert s == [s[0]] + s[1..];
    }
  }

  /** A decimal number written between a fixed prefix and a non-digit can be
      read back: equal texts carry equal numbers. */
  lemma DelimitedDecimal(p: string, m: nat, n: nat, r1: string, r2: string)
    requires |r1| > 0 && !IsDigit(r1[0]) && |r2| > 0 && !IsDigit(r2[0])
    requires p + Decimal(m) + r1 == p + Decimal(n) + r2
    ensures m == n
  {
    var d1, d2 := Decimal(m), Decimal(n);
    var t := p + d1 + r1;
    assert forall k :: 0 <= k < |d1| ==> t[|p| + k] == d1[k];
    assert forall k :: 0 <= k < |d2| ==> t[|p| + k] == d2[k];
    assert t[|p| + |d1|] == r1[0];
    assert t[|p| + |d2|] == r2[0];
    assert |d1| == |d2|;
    assert d1 == d2;
    DecimalInjective(m, n);
  }

  /** `parts[0] + v + parts[1] + v + ... + parts[n-1]`: an f-string whose only
      interpolated expression `v` appears in `|parts| - 1` slots. */
  function Splice(parts: seq<string>, v: string): string
    requires |parts| > 0
  {
    if |parts| == 1 then parts[0] else parts[0] + v + Splice(parts[1..], v)
  }

  /** Slot `k` of a splice holds exactly `v`: the text splits into the parts
      before the slot, `v`, and the parts after it. */
  lemma {:induction false} SpliceSlot(parts: seq<string>, v: string, k: nat)
    requires k + 1 < |parts|
    ensures Splice(parts, v) == Splice(parts[..k + 1], v) + v + Splice(parts[k + 1..], v)
  {
    if k > 0 {
      SpliceSlot(parts[1..], v, k - 1);
      assert parts[1..][..k] == parts[1..k + 1];
      assert parts[1..][k..] == parts[k + 1..];
      assert parts[..k + 1][1..] == parts[1..k + 1];
    } else {
      assert parts[..1] == [parts[0]];
    }
  }
}
