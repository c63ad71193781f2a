/** The page's `escapeHtml`: the text of a cat record is run through five
    global character replacements before it is spliced into card markup. */
module HtmlEscape {

  /** One pass `s.replace(/c/g, entity)`: every occurrence of `c` becomes
      `entity`, every other character is copied. */
  function ReplaceAll(s: string, c: char, entity: string): string
  {
    if s == [] then []
    else (if s[0] == c then entity else [s[0]]) + ReplaceAll(s[1..], c, entity)
  }

  /** A pass writes nothing but the input's other characters and the
      characters of its entity. */
  lemma {:induction false} ReplaceAllChars(s: string, c: char, entity: string)
    ensures forall x :: x in ReplaceAll(s, c, entity) ==> (x in s && x != c) || x in entity
  {
    if s != [] {
      ReplaceAllChars(s[1..], c, entity);
    }
  }

  /** A pass leaves text without its character unchanged. */
  lemma {:induction false} ReplaceAllAbsent(s: string, c: char, entity: string)
    requires c !in s
    ensures ReplaceAll(s, c, entity) == s
  {
    if s != [] {
      ReplaceAllAbsent(s[1..], c, entity);
    }
  }

  /** The five `.replace` passes of `escapeHtml`, in source order. */
  function Passes(s: string): string
  {
    ReplaceAll(ReplaceAll(ReplaceAll(ReplaceAll(ReplaceAll(s, '&', "&amp;"), '<', "&lt;"), '>', "&gt;"), '"', "&quot;"), '\'', "&#039;")
  }

  /** `escapeHtml(text)`: a falsy text (here the empty string) gives `''`,
      otherwise the five passes run in source order, `&` first. */
  function EscapeHtml(text: string): string
  {
    if text == "" then "" else Passes(text)
  }

  /** The characters that `EscapeHtml` rewrites. */
  predicate Special(c: char)
  {
    c == '&' || c == '<' || c == '>' || c == '"' || c == '\''
  }

  predicate HasSpecial(s: string)
  {
    exists i :: 0 <= i < |s| && Special(s[i])
  }

  /** The entity each character stands for in escaped text. */
  function Entity(c: char): string
  {
    match c
    case '&' => "&amp;"
    case '<' => "&lt;"
    case '>' => "&gt;"
    case '"' => "&quot;"
    case '\'' => "&#039;"
    case _ => [c]
  }

  /** Reference definition: escape each character on its own and concatenate. */
  function EscapeEach(s: string): string
  {
    if s == [] then [] else Entity(s[0]) + EscapeEach(s[1..])
  }

  predicate StartsWith(s: string, p: string)
  {
    |p| <= |s| && s[..|p|] == p
  }

  /** Decoding of the five entities, as an HTML parser does when it reads an
      attribute value or `innerHTML`; any other character is kept. The
      parser's preprocessing of its input (carriage returns folded into line
      feeds, NUL replaced) is not part of this decoder. */
  function Unescape(s: string): string
    decreases |s|
  {
    if s == [] then []
    else if StartsWith(s, "&amp;") then "&" + Unescape(s[5..])
    else if StartsWith(s, "&lt;") then "<" + Unescape(s[4..])
    else if StartsWith(s, "&gt;") then ">" + Unescape(s[4..])
    else if StartsWith(s, "&quot;") then "\"" + Unescape(s[6..])
    else if StartsWith(s, "&#039;") then "'" + Unescape(s[6..])
    else [s[0]] + Unescape(s[1..])
  }

  // ---------------------------------------------------------------------
  // The five passes equal the per-character escape

  lemma {:induction false} ReplaceAllAppend(a: string, b: string, c: char, entity: string)
    ensures ReplaceAll(a + b, c, entity) == ReplaceAll(a, c, entity) + ReplaceAll(b, c, entity)
  {
    if a == [] {
      assert a + b == b;
    } else {
      assert (a + b)[0] == a[0];
      assert (a + b)[1..] == a[1..] + b;
      ReplaceAllAppend(a[1..], b, c, entity);
    }
  }

  lemma {:induction false} PassesAppend(a: string, b: string)
    ensures Passes(a + b) == Passes(a) + Passes(b)
  {
    var a1, b1 := ReplaceAll(a, '&', "&amp;"), ReplaceAll(b, '&', "&amp;");
    ReplaceAllAppend(a, b, '&', "&amp;");
    var a2, b2 := ReplaceAll(a1, '<', "&lt;"), ReplaceAll(b1, '<', "&lt;");
    ReplaceAllAppend(a1, b1, '<', "&lt;");
    var a3, b3 := ReplaceAll(a2, '>', "&gt;"), ReplaceAll(b2, '>', "&gt;");
    ReplaceAllAppend(a2, b2, '>', "&gt;");
    var a4, b4 := ReplaceAll(a3, '"', "&quot;"), ReplaceAll(b3, '"', "&quot;");
    ReplaceAllAppend(a3, b3, '"', "&quot;");
    ReplaceAllAppend(a4, b4, '\'', "&#039;");
  }

  lemma ReplaceAllSingle(x: char, c: char, entity: string)
    ensures ReplaceAll([x], c, entity) == if x == c then entity else [x]
  {
    assert [x][1..] == [];
  }

  /** The passes after the one that wrote an entity leave it alone. */
  lemma LaterPassesKeep(e: string, from: nat)
    requires from <= 4
    requires from <= 0 ==> '<' !in e
    requires from <= 1 ==> '>' !in e
    requires from <= 2 ==> '"' !in e
    requires from <= 3 ==> '\'' !in e
    ensures from <= 0 ==> ReplaceAll(e, '<', "&lt;") == e
    ensures from <= 1 ==> ReplaceAll(e, '>', "&gt;") == e
    ensures from <= 2 ==> ReplaceAll(e, '"', "&quot;") == e
    ensures from <= 3 ==> ReplaceAll(e, '\'', "&#039;") == e
  {
    if from <= 0 { ReplaceAllAbsent(e, '<', "&lt;"); }
    if from <= 1 { ReplaceAllAbsent(e, '>', "&gt;"); }
    if from <= 2 { ReplaceAllAbsent(e, '"', "&quot;"); }
    if from <= 3 { ReplaceAllAbsent(e, '\'', "&#039;"); }
  }

  /** On a single character the passes produce its entity. This is where the
      order matters: the entity a later pass writes starts with `&`, which
      the first pass has already dealt with, and no entity contains a
      character that a later pass rewrites. */
  lemma PassesChar(c: char)
    ensures Passes([c]) == Entity(c)
  {
    var s1 := ReplaceAll([c], '&', "&amp;");
    ReplaceAllSingle(c, '&', "&amp;");
    if c == '&' {
      var e: string := "&amp;";
      assert s1 == e;
      LaterPassesKeep(e, 0);
    } else {
      assert s1 == [c];
      PassesCharAfterAmp(c);
    }
  }

  lemma PassesCharAfterAmp(c: char)
    requires c != '&'
    ensures ReplaceAll(ReplaceAll(ReplaceAll(ReplaceAll([c], '<', "&lt;"), '>', "&gt;"), '"', "&quot;"), '\'', "&#039;") == Entity(c)
  {
    var s2 := ReplaceAll([c], '<', "&lt;");
    ReplaceAllSingle(c, '<', "&lt;");
    if c == '<' {
      var e: string := "&lt;";
      assert s2 == e;
      LaterPassesKeep(e, 1);
    } else {
      assert s2 == [c];
      PassesCharAfterLt(c);
    }
  }

  lemma PassesCharAfterLt(c: char)
    requires c != '&' && c != '<'
    ensures ReplaceAll(ReplaceAll(ReplaceAll([c], '>', "&gt;"), '"', "&quot;"), '\'', "&#039;") == Entity(c)
  {
    var s3 := ReplaceAll([c], '>', "&gt;");
    ReplaceAllSingle(c, '>', "&gt;");
    ReplaceAllSingle(c, '"', "&quot;");
    ReplaceAllSingle(c, '\'', "&#039;");
    if c == '>' {
      var e: string := "&gt;";
      assert s3 == e;
      LaterPassesKeep(e, 2);
    } else if c == '"' {
      var e: string := "&quot;";
      assert s3 == [c];
      LaterPassesKeep(e, 3);
    }
  }

  lemma {:induction false} PassesIsPerChar(s: string)
    ensures Passes(s) == EscapeEach(s)
  {
    if s != [] {
      assert s == [s[0]] + s[1..];
      PassesAppend([s[0]], s[1..]);
      PassesChar(s[0]);
      PassesIsPerChar(s[1..]);
    }
  }

  /** The chained replacements of `escapeHtml` escape each character
      independently: nothing an earlier pass wrote is rewritten later. */
  lemma EscapeHtmlIsPerChar(text: string)
    ensures EscapeHtml(text) == EscapeEach(text)
  {
    PassesIsPerChar(text);
  }

  // ---------------------------------------------------------------------
  // Properties of the per-character escape, carried over to EscapeHtml

  lemma {:induction false} EscapeEachSafe(s: string)
    ensures '<' !in EscapeEach(s) && '>' !in EscapeEach(s)
    ensures '"' !in EscapeEach(s) && '\'' !in EscapeEach(s)
  {
    if s != [] {
      EscapeEachSafe(s[1..]);
      var e := Entity(s[0]);
      assert '<' !in e && '>' !in e && '"' !in e && '\'' !in e;
    }
  }

  /** Escaped text holds no `<`, `>`, `"` or `'`: it cannot open a tag or
      close the attribute it is placed in. */
  lemma EscapeHtmlSafe(text: string)
    ensures '<' !in EscapeHtml(text) && '>' !in EscapeHtml(text)
    ensures '"' !in EscapeHtml(text) && '\'' !in EscapeHtml(text)
  {
    EscapeHtmlIsPerChar(text);
    EscapeEachSafe(text);
  }

  lemma {:induction false} EscapeEachLength(s: string)
    ensures |EscapeEach(s)| >= |s|
    ensures |EscapeEach(s)| == |s| <==> !HasSpecial(s)
    ensures EscapeEach(s) == s <==> !HasSpecial(s)
  {
    if s != [] {
      EscapeEachLength(s[1..]);
      var e := Entity(s[0]);
      assert s == [s[0]] + s[1..];
      assert Special(s[0]) ==> |e| > 1;
      assert !Special(s[0]) ==> e == [s[0]];
      if HasSpecial(s[1..]) {
        var i :| 0 <= i < |s[1..]| && Special(s[1..][i]);
        assert Special(s[i + 1]);
      }
      if HasSpecial(s) && !Special(s[0]) {
        var i :| 0 <= i < |s| && Special(s[i]);
        assert Special(s[1..][i - 1]);
      }
      if EscapeEach(s) == s {
        assert |EscapeEach(s)| == |s|;
      }
    }
  }

  /** Escaping never shortens the text, and leaves it unchanged exactly when
      it holds none of the five special characters. */
  lemma EscapeHtmlLength(text: string)
    ensures |EscapeHtml(text)| >= |text|
    ensures |EscapeHtml(text)| == |text| <==> !HasSpecial(text)
    ensures EscapeHtml(text) == text <==> !HasSpecial(text)
  {
    EscapeHtmlIsPerChar(text);
    EscapeEachLength(text);
  }

  /** The falsy input gives `''`, and it is the only input that does. */
  lemma EscapeHtmlEmpty(text: string)
    ensures EscapeHtml(text) == "" <==> text == ""
  {
    EscapeHtmlLength(text);
  }

  /** An entity is recognised by its first characters and decodes to the
      character it stands for. */
  lemma {:induction false} UnescapeEntity(c: char, t: string)
    ensures Unescape(Entity(c) + t) == [c] + Unescape(t)
  {
    match c
    case '&' => UnescapeAmp(t);
    case '<' => UnescapeLt(t);
    case '>' => UnescapeGt(t);
    case '"' => UnescapeQuot(t);
    case '\'' => UnescapeApos(t);
    case _ => UnescapeOther(c, t);
  }

  lemma UnescapeAmp(t: string)
    ensures Unescape("&amp;" + t) == "&" + Unescape(t)
  {
    var s := "&amp;" + t;
    assert s[..5] == "&amp;" && s[5..] == t;
  }

  lemma UnescapeLt(t: string)
    ensures Unescape("&lt;" + t) == "<" + Unescape(t)
  {
    var s := "&lt;" + t;
    assert !StartsWith(s, "&amp;") by { assert s[1] == 'l'; }
    assert s[..4] == "&lt;" && s[4..] == t;
  }

  lemma UnescapeGt(t: string)
    ensures Unescape("&gt;" + t) == ">" + Unescape(t)
  {
    var s := "&gt;" + t;
    assert !StartsWith(s, "&amp;") && !StartsWith(s, "&lt;") by { assert s[1] == 'g'; }
    assert s[..4] == "&gt;" && s[4..] == t;
  }

  lemma UnescapeQuot(t: string)
    ensures Unescape("&quot;" + t) == "\"" + Unescape(t)
  {
    var s := "&quot;" + t;
    assert !StartsWith(s, "&amp;") && !StartsWith(s, "&lt;") && !StartsWith(s, "&gt;") by { assert s[1] == 'q'; }
    assert s[..6] == "&quot;" && s[6..] == t;
  }

  lemma UnescapeApos(t: string)
    ensures Unescape("&#039;" + t) == "'" + Unescape(t)
  {
    var s := "&#039;" + t;
    assert !StartsWith(s, "&amp;") && !StartsWith(s, "&lt;") && !StartsWith(s, "&gt;") by { assert s[1] == '#'; }
    assert !StartsWith(s, "&quot;") by { assert s[1] == '#'; }
    assert s[..6] == "&#039;" && s[6..] == t;
  }

  lemma UnescapeOther(c: char, t: string)
    requires c != '&'
    ensures Unescape([c] + t) == [c] + Unescape(t)
  {
    var s := [c] + t;
    assert s[0] == c && s[1..] == t;
  }

  lemma {:induction false} UnescapeEscapeEach(s: string)
    ensures Unescape(EscapeEach(s)) == s
  {
    if s != [] {
      UnescapeEntity(s[0], EscapeEach(s[1..]));
      UnescapeEscapeEach(s[1..]);
    }
  }

  /** Decoding the entities gives back the original text: a value without
      carriage return or NUL that the page writes into a `data-*` attribute
      reads back unchanged from `dataset` (the parser's preprocessing of
      those two characters is outside `Unescape`). */
  lemma UnescapeEscapeHtml(text: string)
    ensures Unescape(EscapeHtml(text)) == text
  {
    EscapeHtmlIsPerChar(text);
    UnescapeEscapeEach(text);
  }

  /** `escapeHtml` is not idempotent: escaping an escaped text again changes
      it exactly when the original held a special character. */
  lemma EscapeHtmlNotIdempotent(text: string)
    ensures EscapeHtml(EscapeHtml(text)) == EscapeHtml(text) <==> !HasSpecial(text)
  {
    var once := EscapeHtml(text);
    EscapeHtmlLength(text);
    EscapeHtmlLength(once);
    if HasSpecial(text) {
      var i :| 0 <= i < |text| && Special(text[i]);
      EscapeHtmlIsPerChar(text);
      EscapeEachHasAmp(text, i);
      var j :| 0 <= j < |once| && once[j] == '&';
      assert Special(once[j]);
    }
  }

  lemma {:induction false} EscapeEachHasAmp(s: string, i: int)
    requires 0 <= i < |s| && Special(s[i])
    ensures '&' in EscapeEach(s)
  {
    if i == 0 {
      assert Entity(s[0])[0] == '&';
      assert EscapeEach(s)[0] == '&';
    } else {
      EscapeEachHasAmp(s[1..], i - 1);
    }
  }

  lemma EscapeEachPlain(s: string)
    requires !HasSpecial(s)
    ensures EscapeEach(s) == s
  {
    EscapeEachLength(s);
  }

  lemma EscapeAmpersand()
    ensures EscapeHtml("&") == "&amp;"
  {
    EscapeHtmlIsPerChar("&");
    assert EscapeEach(['&']) == "&amp;" by {
      assert ['&'][1..] == [];
    }
  }

  lemma EscapeEachAmpersandEntity()
    ensures EscapeEach("&amp;") == "&amp;amp;"
  {
    var amp: string := "&amp;";
    var tail: string := "amp;";
    assert !HasSpecial(tail);
    EscapeEachPlain(tail);
    assert amp[0] == '&' && amp[1..] == tail;
  }

  lemma EscapeAmpersandEntity()
    ensures EscapeHtml("&amp;") == "&amp;amp;"
  {
    EscapeEachAmpersandEntity();
    EscapeHtmlIsPerChar("&amp;");
  }

  /** Escaping twice turns `&` into `&amp;amp;`. */
  lemma EscapeTwiceAmpersand()
    ensures EscapeHtml(EscapeHtml("&")) == "&amp;amp;"
  {
    EscapeAmpersand();
    EscapeAmpersandEntity();
  }

  /** The name in the image fallback of a card is escaped twice. The
      `onerror` attribute is decoded once by the parser and the markup it
      assigns to `innerHTML` once more, which gives back the name. Between
      the two the handler's JavaScript string literal is evaluated, which
      `escapeHtml` does not protect: a backslash starts an escape sequence
      and a line break ends the literal with a syntax error. The name is
      therefore restricted to text where that evaluation is the identity.
      A NUL in the name would also be replaced by the parser's input
      preprocessing, which `Unescape` does not model. */
  lemma FallbackNameDecodesTwice(name: string)
    requires '\\' !in name && '\n' !in name && '\r' !in name
    ensures Unescape(Unescape(EscapeHtml(EscapeHtml(name)))) == name
  {
    UnescapeEscapeHtml(EscapeHtml(name));
    UnescapeEscapeHtml(name);
  }

  /** Running the `&` pass last instead of first would escape the `&` of the
      `&lt;` that the `<` pass wrote, where `escapeHtml` gives `&lt;`. */
  lemma AmpersandPassMustComeFirst()
    ensures ReplaceAll(ReplaceAll("<", '<', "&lt;"), '&', "&amp;") == "&amp;lt;"
    ensures EscapeHtml("<") == "&lt;"
  {
    LtPassThenAmpPass();
    EscapeHtmlIsPerChar("<");
    assert EscapeEach(['<']) == "&lt;" by {
      assert ['<'][1..] == [];
    }
  }

  lemma LtPassThenAmpPass()
    ensures ReplaceAll(ReplaceAll("<", '<', "&lt;"), '&', "&amp;") == "&amp;lt;"
  {
    var lt: string := "&lt;";
    var rest: string := "lt;";
    assert ReplaceAll(['<'], '<', lt) == lt by {
      assert ['<'][1..] == [];
    }
    ReplaceAllAbsent(rest, '&', "&amp;");
    assert lt[0] == '&' && lt[1..] == rest;
  }
}
