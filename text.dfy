/**
 * String helpers the window manager and its stores rely on: the HTML escapes used
 * for taskbar labels, JavaScript's `String.prototype.trim`, and decimal integer
 * text (window ids are "w" + a decimal counter; localStorage holds decimal scores).
 */
module Text {
  import opened Wrappers

  // ---------------------------------------------------------------------------
  // Character-by-character rewriting

  /** Every character of s rewritten by f, concatenated. */
  function FlatMap(s: string, f: char -> string): string
  {
    if s == [] then [] else f(s[0]) + FlatMap(s[1..], f)
  }

  lemma {:induction false} FlatMapAppend(a: string, b: string, f: char -> string)
    ensures FlatMap(a + b, f) == FlatMap(a, f) + FlatMap(b, f)
  {
    if a == [] {
      assert a + b == b;
    } else {
      assert (a + b)[0] == a[0] && (a + b)[1..] == a[1..] + b;
      FlatMapAppend(a[1..], b, f);
    }
  }

  /** `s.replaceAll(c, rep)` for a one-character pattern. */
  function ReplaceAll(s: string, c: char, rep: string): (r: string)
    ensures c !in s ==> r == s
    ensures c !in rep ==> c !in r
  {
    if s == [] then []
    else (if s[0] == c then rep else [s[0]]) + ReplaceAll(s[1..], c, rep)
  }

  lemma {:induction false} ReplaceAllAppend(a: string, b: string, c: char, rep: string)
    ensures ReplaceAll(a + b, c, rep) == ReplaceAll(a, c, rep) + ReplaceAll(b, c, rep)
  {
    if a == [] {
      assert a + b == b;
    } else {
      assert (a + b)[0] == a[0] && (a + b)[1..] == a[1..] + b;
      ReplaceAllAppend(a[1..], b, c, rep);
    }
  }

  // ---------------------------------------------------------------------------
  // escapeHtml of script_bundle_fixed.js, script_fixed.js and test/script_music_v3.js:
  // a regex over [&<>"] with one entity per match.

  function Entity(c: char): string
  {
    match c
    case '&' => "&amp;"
    case '<' => "&lt;"
    case '>' => "&gt;"
    case '"' => "&quot;"
    case _ => [c]
  }

  predicate IsMarkup(c: char) { c == '&' || c == '<' || c == '>' || c == '"' }

  /** No character that could open a tag or close an attribute value. */
  predicate NoRawMarkup(s: string)
  {
    forall i :: 0 <= i < |s| ==> s[i] != '<' && s[i] != '>' && s[i] != '"'
  }

  function EscapeHtml(s: string): (r: string)
    ensures NoRawMarkup(r)
    ensures |s| <= |r|
    ensures (forall i :: 0 <= i < |s| ==> !IsMarkup(s[i])) ==> r == s
  {
    if s == [] then [] else Entity(s[0]) + EscapeHtml(s[1..])
  }

  /** Decoding of the four entities EscapeHtml writes; any other text is kept. */
  function Unescape(s: string): string
  {
    if s == [] then []
    else if s[0] != '&' then [s[0]] + Unescape(s[1..])
    else if |s| >= 5 && s[..5] == "&amp;" then "&" + Unescape(s[5..])
    else if |s| >= 4 && s[..4] == "&lt;" then "<" + Unescape(s[4..])
    else if |s| >= 4 && s[..4] == "&gt;" then ">" + Unescape(s[4..])
    else if |s| >= 6 && s[..6] == "&quot;" then "\"" + Unescape(s[6..])
    else [s[0]] + Unescape(s[1..])
  }

  /** The escape loses nothing: decoding the label gives back the title. */
  lemma {:induction false} UnescapeEscapeHtml(s: string)
    ensures Unescape(EscapeHtml(s)) == s
  {
    if s != [] {
      assert EscapeHtml(s) == Entity(s[0]) + EscapeHtml(s[1..]);
      UnescapeEntity(s[0], EscapeHtml(s[1..]));
      UnescapeEscapeHtml(s[1..]);
      assert s == [s[0]] + s[1..];
    }
  }

  lemma UnescapeEntity(c: char, rest: string)
    ensures Unescape(Entity(c) + rest) == [c] + Unescape(rest)
  {
    if c == '&' {
      assert Entity(c) == "&amp;";
      UnescapeAmp(rest);
    } else if c == '<' {
      assert Entity(c) == "&lt;";
      UnescapeShort('l', '<', rest);
    } else if c == '>' {
      assert Entity(c) == "&gt;";
      UnescapeShort('g', '>', rest);
    } else if c == '"' {
      assert Entity(c) == "&quot;";
      UnescapeQuot(rest);
    } else {
      assert Entity(c) == [c];
      UnescapePlain(c, rest);
    }
  }

  /** A character that does not start an entity decodes to itself. */
  lemma UnescapePlain(c: char, rest: string)
    requires c != '&'
    ensures Unescape([c] + rest) == [c] + Unescape(rest)
  {
    var t := [c] + rest;
    assert t[0] == c && t[1..] == rest;
  }

  lemma UnescapeAmp(rest: string)
    ensures Unescape("&amp;" + rest) == "&" + Unescape(rest)
  {
    var t := "&amp;" + rest;
    assert t[..5] == "&amp;" && t[5..] == rest;
  }

  /** The two four-character entities, `&lt;` and `&gt;`, told apart by their letter. */
  lemma UnescapeShort(letter: char, c: char, rest: string)
    requires (letter == 'l' && c == '<') || (letter == 'g' && c == '>')
    ensures Unescape(['&', letter, 't', ';'] + rest) == [c] + Unescape(rest)
  {
    var t := ['&', letter, 't', ';'] + rest;
    assert t[1] == letter;
    assert t[..4] == ['&', letter, 't', ';'] && t[4..] == rest;
  }

  lemma UnescapeQuot(rest: string)
    ensures Unescape("&quot;" + rest) == "\"" + Unescape(rest)
  {
    var t := "&quot;" + rest;
    assert t[1] == 'q';
    assert t[..6] == "&quot;" && t[6..] == rest;
  }

  /** t begins with one of the four entities EscapeHtml writes. */
  predicate StartsEntity(t: string)
  {
    (|t| >= 5 && t[..5] == "&amp;") || (|t| >= 4 && (t[..4] == "&lt;" || t[..4] == "&gt;"))
    || (|t| >= 6 && t[..6] == "&quot;")
  }

  /** Every `&` of s begins an entity: no raw ampersand is left. */
  predicate AmpersandsEscaped(s: string)
  {
    forall i :: 0 <= i < |s| && s[i] == '&' ==> StartsEntity(s[i..])
  }

  /** The escaped label holds no raw `&` either: each one begins the entity written for a
      markup character. */
  lemma {:induction false} EscapeHtmlEscapesAmpersands(s: string)
    ensures AmpersandsEscaped(EscapeHtml(s))
  {
    if s != [] {
      var e, rest := Entity(s[0]), EscapeHtml(s[1..]);
      EscapeHtmlEscapesAmpersands(s[1..]);
      assert EscapeHtml(s) == e + rest;
      forall i | 0 <= i < |e + rest| && (e + rest)[i] == '&'
        ensures StartsEntity((e + rest)[i..])
      {
        if i < |e| {
          assert (e + rest)[i] == e[i];
          assert i == 0;
          assert (e + rest)[i..][..|e|] == e;
        } else {
          assert (e + rest)[i..] == rest[i - |e|..];
        }
      }
    }
  }

  // ---------------------------------------------------------------------------
  // escapeHtml / escapeAttr of script_music.js: chains of replaceAll.

  function EscapeHtmlChain(s: string): string
  {
    ReplaceAll(ReplaceAll(ReplaceAll(ReplaceAll(ReplaceAll(s,
      '&', "&amp;"), '<', "&lt;"), '>', "&gt;"), '"', "&quot;"), '\'', "&#039;")
  }

  function EscapeAttrChain(s: string): string
  {
    ReplaceAll(EscapeHtmlChain(s), '`', "&#096;")
  }

  function EntityWithApostrophe(c: char): string
  {
    if c == '\'' then "&#039;" else Entity(c)
  }

  function AttrEntity(c: char): string
  {
    if c == '`' then "&#096;" else EntityWithApostrophe(c)
  }

  /** The chain as a whole maps each character independently: no later replaceAll
      rewrites an entity an earlier one produced. */
  lemma {:induction false} EscapeHtmlChainPerChar(s: string)
    ensures EscapeHtmlChain(s) == FlatMap(s, EntityWithApostrophe)
  {
    if s != [] {
      var c, rest := s[0], s[1..];
      assert s == [c] + rest;
      ChainAppend(c, rest);
      EscapeHtmlChainPerChar(rest);
      ChainOneChar(c);
    }
  }

  lemma ChainAppend(c: char, rest: string)
    ensures EscapeHtmlChain([c] + rest) == EscapeHtmlChain([c]) + EscapeHtmlChain(rest)
  {
    var s0 := [c] + rest;
    ReplaceAllAppend([c], rest, '&', "&amp;");
    var a1, b1 := ReplaceAll([c], '&', "&amp;"), ReplaceAll(rest, '&', "&amp;");
    ReplaceAllAppend(a1, b1, '<', "&lt;");
    var a2, b2 := ReplaceAll(a1, '<', "&lt;"), ReplaceAll(b1, '<', "&lt;");
    ReplaceAllAppend(a2, b2, '>', "&gt;");
    var a3, b3 := ReplaceAll(a2, '>', "&gt;"), ReplaceAll(b2, '>', "&gt;");
    ReplaceAllAppend(a3, b3, '"', "&quot;");
    var a4, b4 := ReplaceAll(a3, '"', "&quot;"), ReplaceAll(b3, '"', "&quot;");
    ReplaceAllAppend(a4, b4, '\'', "&#039;");
  }

  lemma ReplaceAllOne(c: char, x: char, rep: string)
    ensures ReplaceAll([c], x, rep) == if c == x then rep else [c]
  {
    assert [c][1..] == [];
  }

  lemma ChainOneChar(c: char)
    ensures EscapeHtmlChain([c]) == EntityWithApostrophe(c)
  {
    ReplaceAllOne(c, '&', "&amp;");
    if c == '&' {
      ChainAmp();
    } else {
      ReplaceAllOne(c, '<', "&lt;");
      if c == '<' {
        ChainLt();
      } else {
        ReplaceAllOne(c, '>', "&gt;");
        if c == '>' {
          ChainGt();
        } else {
          ReplaceAllOne(c, '"', "&quot;");
          ReplaceAllOne(c, '\'', "&#039;");
          if c == '"' {
            var e := "&quot;";
            assert '\'' !in e;
          }
        }
      }
    }
  }

  /** The entity the first replacement writes passes the later ones unchanged. */
  lemma ChainAmp()
    ensures ReplaceAll(ReplaceAll(ReplaceAll(ReplaceAll("&amp;", '<', "&lt;"), '>', "&gt;"), '"', "&quot;"),
                       '\'', "&#039;") == "&amp;"
  {
    var e := "&amp;";
    assert '<' !in e && '>' !in e && '"' !in e && '\'' !in e;
  }

  lemma ChainLt()
    ensures ReplaceAll(ReplaceAll(ReplaceAll("&lt;", '>', "&gt;"), '"', "&quot;"), '\'', "&#039;") == "&lt;"
  {
    var e := "&lt;";
    assert '>' !in e && '"' !in e && '\'' !in e;
  }

  lemma ChainGt()
    ensures ReplaceAll(ReplaceAll("&gt;", '"', "&quot;"), '\'', "&#039;") == "&gt;"
  {
    var e := "&gt;";
    assert '"' !in e && '\'' !in e;
  }

  /** escapeAttr additionally rewrites the backtick, character by character. */
  lemma {:induction false} EscapeAttrChainPerChar(s: string)
    ensures EscapeAttrChain(s) == FlatMap(s, AttrEntity)
  {
    EscapeHtmlChainPerChar(s);
    ReplaceAfterFlatMap(s);
  }

  lemma {:induction false} ReplaceAfterFlatMap(s: string)
    ensures ReplaceAll(FlatMap(s, EntityWithApostrophe), '`', "&#096;") == FlatMap(s, AttrEntity)
  {
    if s != [] {
      var head := EntityWithApostrophe(s[0]);
      var tail := FlatMap(s[1..], EntityWithApostrophe);
      assert FlatMap(s, EntityWithApostrophe) == head + tail;
      ReplaceAllAppend(head, tail, '`', "&#096;");
      ReplaceAfterFlatMap(s[1..]);
      BacktickEntity(s[0]);
    }
  }

  lemma BacktickEntity(c: char)
    ensures ReplaceAll(EntityWithApostrophe(c), '`', "&#096;") == AttrEntity(c)
  {
    if c == '`' {
      ReplaceAllOne(c, '`', "&#096;");
    } else if c == '\'' {
      var e := "&#039;";
      assert '`' !in e;
    } else if c == '&' {
      var e := "&amp;";
      assert '`' !in e;
    } else if c == '<' {
      var e := "&lt;";
      assert '`' !in e;
    } else if c == '>' {
      var e := "&gt;";
      assert '`' !in e;
    } else if c == '"' {
      var e := "&quot;";
      assert '`' !in e;
    } else {
      ReplaceAllOne(c, '`', "&#096;");
    }
  }

  /** The two escapes of the code base agree except on the apostrophe. */
  lemma {:induction false} ChainAgreesWithRegexEscape(s: string)
    requires '\'' !in s
    ensures EscapeHtmlChain(s) == EscapeHtml(s)
  {
    EscapeHtmlChainPerChar(s);
    FlatMapWithoutApostrophe(s);
  }

  lemma {:induction false} FlatMapWithoutApostrophe(s: string)
    requires '\'' !in s
    ensures FlatMap(s, EntityWithApostrophe) == EscapeHtml(s)
  {
    if s != [] {
      assert s[0] in s;
      assert forall x :: x in s[1..] ==> x in s;
      FlatMapWithoutApostrophe(s[1..]);
    }
  }

  // ---------------------------------------------------------------------------
  // String.prototype.trim: WhiteSpace and LineTerminator code points of ECMAScript.

  predicate IsJsSpace(c: char)
  {
    c == ' ' || c == '\t' || c == '\n' || c == '\r' || c == '\U{000B}' || c == '\U{000C}'
    || c == '\U{00A0}' || c == '\U{1680}' || ('\U{2000}' <= c <= '\U{200A}')
    || c == '\U{2028}' || c == '\U{2029}' || c == '\U{202F}' || c == '\U{205F}'
    || c == '\U{3000}' || c == '\U{FEFF}'
  }

  predicate AllSpace(s: string) { forall i :: 0 <= i < |s| ==> IsJsSpace(s[i]) }

  function TrimStart(s: string): (r: string)
    ensures |r| <= |s|
    ensures r == [] <==> AllSpace(s)
    ensures r != [] ==> !IsJsSpace(r[0])
  {
    if s == [] then s
    else if IsJsSpace(s[0]) then TrimStart(s[1..])
    else s
  }

  function TrimEnd(s: string): (r: string)
    ensures |r| <= |s|
    ensures r == [] <==> AllSpace(s)
    ensures r != [] ==> !IsJsSpace(r[|r| - 1])
  {
    if s == [] then s
    else if IsJsSpace(s[|s| - 1]) then TrimEnd(s[..|s| - 1])
    else s
  }

  /** trimStart removes a prefix: what is left is a suffix of the text. */
  lemma {:induction false} TrimStartSuffix(s: string)
    ensures TrimStart(s) == s[|s| - |TrimStart(s)|..]
  {
    if s != [] && IsJsSpace(s[0]) {
      TrimStartSuffix(s[1..]);
      assert s[1..][|s| - 1 - |TrimStart(s[1..])|..] == s[|s| - |TrimStart(s)|..];
    }
  }

  /** trimEnd removes a suffix: what is left is a prefix of the text. */
  lemma {:induction false} TrimEndPrefix(s: string)
    ensures TrimEnd(s) == s[..|TrimEnd(s)|]
  {
    if s != [] && IsJsSpace(s[|s| - 1]) {
      TrimEndPrefix(s[..|s| - 1]);
      assert s[..|s| - 1][..|TrimEnd(s)|] == s[..|TrimEnd(s)|];
    }
  }

  function Trim(s: string): (r: string)
    ensures r == [] <==> AllSpace(s)
    ensures r != [] ==> !IsJsSpace(r[0]) && !IsJsSpace(r[|r| - 1])
    ensures |r| <= |s|
  {
    var t := TrimStart(s);
    assert AllSpace(t) ==> t == [] by {
      if t != [] {
        assert !IsJsSpace(t[0]);
      }
    }
    TrimEndPrefix(t);
    TrimEnd(t)
  }

  // ---------------------------------------------------------------------------
  // Decimal text

  predicate IsDigit(c: char) { '0' <= c <= '9' }

  predicate AllDigits(s: string) { forall i :: 0 <= i < |s| ==> IsDigit(s[i]) }

  function DigitChar(d: nat): char
    requires d < 10
  {
    ['0','1','2','3','4','5','6','7','8','9'][d]
  }

  function DigitValue(c: char): nat
    requires IsDigit(c)
  {
    (c as int) - ('0' as int)
  }

  /** `String(n)` for a non-negative integer. */
  function NatToString(n: nat): (r: string)
    ensures r != [] && AllDigits(r)
    decreases n
  {
    if n < 10 then [DigitChar(n)] else NatToString(n / 10) + [DigitChar(n % 10)]
  }

  /** `String(i)` for any integer. */
  function IntToString(i: int): (r: string)
    ensures r != []
  {
    if i < 0 then "-" + NatToString(-i) else NatToString(i)
  }

  /** Value of a string of decimal digits (leading zeros allowed). */
  function DigitsValue(s: string): nat
    requires AllDigits(s)
  {
    if s == [] then 0 else DigitsValue(s[..|s| - 1]) * 10 + DigitValue(s[|s| - 1])
  }

  lemma {:induction false} DigitsValueNatToString(n: nat)
    ensures DigitsValue(NatToString(n)) == n
    decreases n
  {
    var s := NatToString(n);
    if n < 10 {
      assert s[..|s| - 1] == [];
    } else {
      DigitsValueNatToString(n / 10);
      assert s[..|s| - 1] == NatToString(n / 10);
    }
  }

  /** Different counters give different decimal texts. */
  lemma NatToStringInjective(a: nat, b: nat)
    requires NatToString(a) == NatToString(b)
    ensures a == b
  {
    DigitsValueNatToString(a);
    DigitsValueNatToString(b);
  }

  /** The integers `Number(s)` yields for text made of an optional sign and decimal
      digits, surrounded by JavaScript whitespace; text that trims to nothing is 0. */
  function JsNumber(s: string): (r: Option<int>)
  {
    var t := Trim(s);
    if t == [] then Some(0)
    else if t[0] == '-' && |t| > 1 && AllDigits(t[1..]) then Some(0 - DigitsValue(t[1..]))
    else if t[0] == '+' && |t| > 1 && AllDigits(t[1..]) then Some(DigitsValue(t[1..]))
    else if AllDigits(t) then Some(DigitsValue(t))
    else None
  }

  /** Reading back what `String(i)` wrote yields i. */
  lemma {:induction false} JsNumberIntToString(i: int)
    ensures JsNumber(IntToString(i)) == Some(i)
  {
    var s := IntToString(i);
    if i < 0 {
      var n: nat := -i;
      assert s == "-" + NatToString(n);
      JsNumberNegative(n);
    } else {
      assert s == NatToString(i);
      JsNumberNat(i);
    }
  }

  lemma JsNumberNat(n: nat)
    ensures JsNumber(NatToString(n)) == Some(n)
  {
    var d := NatToString(n);
    assert IsDigit(d[0]) && IsDigit(d[|d| - 1]);
    TrimKeeps(d);
    DigitsValueNatToString(n);
  }

  lemma JsNumberNegative(n: nat)
    requires n > 0
    ensures JsNumber("-" + NatToString(n)) == Some(0 - n)
  {
    var d := NatToString(n);
    var s := "-" + d;
    assert s[0] == '-' && s[1..] == d && s[|s| - 1] == d[|d| - 1];
    assert IsDigit(d[|d| - 1]);
    TrimKeeps(s);
    DigitsValueNatToString(n);
  }

  /** The longest prefix of s made of decimal digits. */
  function DigitPrefix(s: string): (r: string)
    ensures |r| <= |s| && r == s[..|r|] && AllDigits(r)
    ensures |r| < |s| ==> !IsDigit(s[|r|])
  {
    if s == [] || !IsDigit(s[0]) then []
    else [s[0]] + DigitPrefix(s[1..])
  }

  /** `parseInt(s, 10)`: leading whitespace, an optional sign, then as many digits as
      there are; None (NaN) when there is no digit. */
  function ParseIntPrefix(s: string): (r: Option<int>)
  {
    var t := TrimStart(s);
    var neg := t != [] && t[0] == '-';
    var body := if t != [] && (t[0] == '-' || t[0] == '+') then t[1..] else t;
    var d := DigitPrefix(body);
    if d == [] then None
    else if neg then Some(0 - DigitsValue(d))
    else Some(DigitsValue(d))
  }

  /** A CSS length such as "120px" or "4vw" parses to its number. */
  lemma {:induction false} ParseIntPrefixUnit(n: nat, unit: string)
    requires unit == [] || !IsDigit(unit[0])
    ensures ParseIntPrefix(NatToString(n) + unit) == Some(n)
  {
    var d := NatToString(n);
    var s := d + unit;
    assert s[0] == d[0];
    assert IsDigit(s[0]);
    assert !IsJsSpace(s[0]);
    assert TrimStart(s) == s;
    assert s[0] != '-' && s[0] != '+';
    DigitPrefixOf(d, unit);
    DigitsValueNatToString(n);
  }

  /** A negative CSS length such as "-12px" parses to its number. */
  lemma ParseIntPrefixNegUnit(n: nat, unit: string)
    requires unit == [] || !IsDigit(unit[0])
    ensures ParseIntPrefix("-" + NatToString(n) + unit) == Some(0 - n)
  {
    var d := NatToString(n);
    MinusFirst(d, unit);
    DigitPrefixOf(d, unit);
    DigitsValueNatToString(n);
  }

  /** Text starting with a minus sign is its own TrimStart, and the sign comes off. */
  lemma MinusFirst(d: string, rest: string)
    ensures var s := "-" + d + rest;
            s[0] == '-' && TrimStart(s) == s && s[1..] == d + rest
  {
    var s := "-" + d + rest;
    assert s[0] == '-' && !IsJsSpace(s[0]);
  }

  lemma {:induction false} DigitPrefixOf(d: string, rest: string)
    requires AllDigits(d)
    requires rest == [] || !IsDigit(rest[0])
    ensures DigitPrefix(d + rest) == d
  {
    if d == [] {
      assert d + rest == rest;
    } else {
      assert (d + rest)[0] == d[0] && (d + rest)[1..] == d[1..] + rest;
      DigitPrefixOf(d[1..], rest);
      assert [d[0]] + d[1..] == d;
    }
  }

  /** Text that starts and ends with something other than whitespace is its own trim. */
  lemma TrimKeeps(s: string)
    requires s != [] && !IsJsSpace(s[0]) && !IsJsSpace(s[|s| - 1])
    ensures Trim(s) == s
  {
  }
}
