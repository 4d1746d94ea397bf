/**
 XML escaping of job titles and links, as done by `sanitize_string`: five
 single-character replace-all passes applied in a fixed order, ampersand first.

 The main result is that the chain of passes equals a per-character escape map
 (`EscapeAll`). The bound on the output length, the absence of reserved
 characters, the shape of every `&` in the output and the decoding round trip
 are all proved from that.
 */
module Escaping {

  /** The five characters that `sanitize_string` rewrites. */
  predicate IsReserved(c: char) {
    c == '&' || c == '"' || c == '\'' || c == '<' || c == '>'
  }

  /** True when no character of `s` is reserved. */
  predicate NoReserved(s: string) {
    forall i :: 0 <= i < |s| ==> !IsReserved(s[i])
  }

  /** Python's `str.replace(c, r)` with a one-character pattern: every
      occurrence of `c` in `s`, left to right, becomes `r`. */
  function ReplaceAll(s: string, c: char, r: string): string {
    if |s| == 0 then []
    else (if s[0] == c then r else [s[0]]) + ReplaceAll(s[1..], c, r)
  }

  /** `sanitize_string`: the five passes, in the order the source applies them. */
  function Sanitize(s: string): (t: string)
  {
    var amp := ReplaceAll(s, '&', "&amp;");
    var quot := ReplaceAll(amp, '"', "&quot;");
    var apos := ReplaceAll(quot, '\'', "&apos;");
    var lt := ReplaceAll(apos, '<', "&lt;");
    ReplaceAll(lt, '>', "&gt;")
  }

  /** The entity a single character stands for in escaped text. */
  function EscapeChar(c: char): string {
    match c
    case '&' => "&amp;"
    case '"' => "&quot;"
    case '\'' => "&apos;"
    case '<' => "&lt;"
    case '>' => "&gt;"
    case _ => [c]
  }

  /** The reference escape: every character replaced by its entity, in one pass. */
  function EscapeAll(s: string): string {
    if |s| == 0 then [] else EscapeChar(s[0]) + EscapeAll(s[1..])
  }

  /** Decodes the five entities; every other character is kept as it is. */
  function Unescape(t: string): string
    decreases |t|
  {
    if |t| == 0 then []
    else if "&amp;" <= t then ['&'] + Unescape(t[5..])
    else if "&quot;" <= t then ['"'] + Unescape(t[6..])
    else if "&apos;" <= t then ['\''] + Unescape(t[6..])
    else if "&lt;" <= t then ['<'] + Unescape(t[4..])
    else if "&gt;" <= t then ['>'] + Unescape(t[4..])
    else [t[0]] + Unescape(t[1..])
  }

  /** One of the five entities begins at position `i` of `t`. */
  predicate EntityAt(t: string, i: nat)
    requires i <= |t|
  {
    var u := t[i..];
    "&amp;" <= u || "&quot;" <= u || "&apos;" <= u || "&lt;" <= u || "&gt;" <= u
  }

  /** Text that is safe inside an XML element body: no `<`, `>`, `"` or `'`,
      and every `&` begins one of the five entities. */
  predicate WellEscaped(t: string) {
    forall i :: 0 <= i < |t| ==>
      t[i] != '<' && t[i] != '>' && t[i] != '"' && t[i] != '\'' &&
      (t[i] == '&' ==> EntityAt(t, i))
  }

  /** Number of occurrences of `c` in `s`. */
  function Count(s: string, c: char): nat {
    multiset(s)[c]
  }

  // ---------------------------------------------------------------------------
  // The replace chain equals the per-character map
  // ---------------------------------------------------------------------------

  /** A pass leaves text without its character unchanged. */
  lemma {:induction false} ReplaceAllAbsent(s: string, c: char, r: string)
    requires c !in s
    ensures ReplaceAll(s, c, r) == s
    decreases |s|
  {
    if |s| > 0 {
      assert s == [s[0]] + s[1..];
      ReplaceAllAbsent(s[1..], c, r);
      assert [s[0]] + s[1..] == s;
    }
  }

  /** After a pass the character is gone, unless its replacement holds it. */
  lemma {:induction false} ReplaceAllRemoves(s: string, c: char, r: string)
    requires c !in r
    ensures c !in ReplaceAll(s, c, r)
    decreases |s|
  {
    if |s| > 0 {
      ReplaceAllRemoves(s[1..], c, r);
    }
  }

  /** A replace-all pass works on each part of a concatenation separately. */
  lemma {:induction false} ReplaceAllAppend(a: string, b: string, c: char, r: string)
    ensures ReplaceAll(a + b, c, r) == ReplaceAll(a, c, r) + ReplaceAll(b, c, r)
    decreases |a|
  {
    if |a| == 0 {
      assert a + b == b;
    } else {
      assert (a + b)[1..] == a[1..] + b;
      ReplaceAllAppend(a[1..], b, c, r);
    }
  }

  /** `sanitize_string` distributes over concatenation. */
  lemma SanitizeAppend(a: string, b: string)
    ensures Sanitize(a + b) == Sanitize(a) + Sanitize(b)
  {
    var a1 := ReplaceAll(a, '&', "&amp;");
    var b1 := ReplaceAll(b, '&', "&amp;");
    ReplaceAllAppend(a, b, '&', "&amp;");
    var a2 := ReplaceAll(a1, '"', "&quot;");
    var b2 := ReplaceAll(b1, '"', "&quot;");
    ReplaceAllAppend(a1, b1, '"', "&quot;");
    var a3 := ReplaceAll(a2, '\'', "&apos;");
    var b3 := ReplaceAll(b2, '\'', "&apos;");
    ReplaceAllAppend(a2, b2, '\'', "&apos;");
    var a4 := ReplaceAll(a3, '<', "&lt;");
    var b4 := ReplaceAll(b3, '<', "&lt;");
    ReplaceAllAppend(a3, b3, '<', "&lt;");
    ReplaceAllAppend(a4, b4, '>', "&gt;");
  }

  /** A pass over a one-character string. */
  lemma ReplaceAllSingle(x: char, c: char, r: string)
    ensures ReplaceAll([x], c, r) == if x == c then r else [x]
  {
    assert [x][1..] == [];
  }

  /** The passes after the one that introduced an entity leave it alone. */
  lemma LaterPassesKeep(e: string)
    requires forall i :: 0 <= i < |e| ==> e[i] != '"' && e[i] != '\'' && e[i] != '<' && e[i] != '>'
    ensures ReplaceAll(e, '"', "&quot;") == e
    ensures ReplaceAll(e, '\'', "&apos;") == e
    ensures ReplaceAll(e, '<', "&lt;") == e
    ensures ReplaceAll(e, '>', "&gt;") == e
  {
    ReplaceAllAbsent(e, '"', "&quot;");
    ReplaceAllAbsent(e, '\'', "&apos;");
    ReplaceAllAbsent(e, '<', "&lt;");
    ReplaceAllAbsent(e, '>', "&gt;");
  }

  /** On a single character the five passes produce exactly that character's
      entity: the entities added by the later passes contain no character an
      even later pass rewrites, and `&` has already been handled. */
  lemma SanitizeChar(c: char)
    ensures Sanitize([c]) == EscapeChar(c)
  {
    ReplaceAllSingle(c, '&', "&amp;");
    if c == '&' {
      LaterPassesKeep("&amp;");
      return;
    }
    ReplaceAllSingle(c, '"', "&quot;");
    if c == '"' {
      LaterPassesKeep("&quot;");
      return;
    }
    ReplaceAllSingle(c, '\'', "&apos;");
    if c == '\'' {
      LaterPassesKeep("&apos;");
      return;
    }
    ReplaceAllSingle(c, '<', "&lt;");
    if c == '<' {
      LaterPassesKeep("&lt;");
      return;
    }
    ReplaceAllSingle(c, '>', "&gt;");
  }

  /** The key lemma: the sequential chain of `sanitize_string` is the
      per-character escape map, so no entity is escaped twice. */
  lemma {:induction false} SanitizeIsEscapeAll(s: string)
    ensures Sanitize(s) == EscapeAll(s)
    decreases |s|
  {
    if |s| == 0 {
      assert Sanitize(s) == [];
    } else {
      assert s == [s[0]] + s[1..];
      SanitizeAppend([s[0]], s[1..]);
      SanitizeChar(s[0]);
      SanitizeIsEscapeAll(s[1..]);
    }
  }

  // ---------------------------------------------------------------------------
  // Consequences
  // ---------------------------------------------------------------------------

  /** Counting over a leading character. */
  lemma CountCons(s: string, x: char)
    requires |s| > 0
    ensures Count(s, x) == Count(s[1..], x) + (if s[0] == x then 1 else 0)
  {
    assert s == [s[0]] + s[1..];
  }

  /** Output length: each reserved character grows by the length of its entity
      minus one. */
  lemma {:induction false} EscapeAllLength(s: string)
    ensures |EscapeAll(s)| == |s| + 4 * Count(s, '&') + 5 * Count(s, '"')
      + 5 * Count(s, '\'') + 3 * Count(s, '<') + 3 * Count(s, '>')
    decreases |s|
  {
    if |s| > 0 {
      CountCons(s, '&');
      CountCons(s, '"');
      CountCons(s, '\'');
      CountCons(s, '<');
      CountCons(s, '>');
      EscapeAllLength(s[1..]);
    }
  }

  /** The length bound of `sanitize_string`. */
  lemma SanitizeLength(s: string)
    ensures |Sanitize(s)| == |s| + 4 * Count(s, '&') + 5 * Count(s, '"')
      + 5 * Count(s, '\'') + 3 * Count(s, '<') + 3 * Count(s, '>')
  {
    SanitizeIsEscapeAll(s);
    EscapeAllLength(s);
  }

  /** Escaping leaves text without reserved characters as it is. */
  lemma {:induction false} EscapeAllKeepsPlain(s: string)
    requires NoReserved(s)
    ensures EscapeAll(s) == s
    decreases |s|
  {
    if |s| > 0 {
      assert !IsReserved(s[0]);
      assert NoReserved(s[1..]) by {
        forall i | 0 <= i < |s[1..]| ensures !IsReserved(s[1..][i]) {
          assert s[1..][i] == s[i + 1];
        }
      }
      EscapeAllKeepsPlain(s[1..]);
      assert [s[0]] + s[1..] == s;
    }
  }

  /** Text with none of the five reserved characters is returned unchanged, and
      only such text: any reserved character makes the output longer. */
  lemma SanitizeIdentityIff(s: string)
    ensures Sanitize(s) == s <==> NoReserved(s)
  {
    SanitizeIsEscapeAll(s);
    if NoReserved(s) {
      EscapeAllKeepsPlain(s);
    } else {
      SanitizeLength(s);
      var i :| 0 <= i < |s| && IsReserved(s[i]);
      assert s[i] in multiset(s);
      assert |Sanitize(s)| > |s|;
    }
  }

  /** The escape of one character: only its first character can be `&`, and
      then an entity begins there; no other reserved character appears. */
  lemma EscapeCharShape(c: char)
    ensures var e := EscapeChar(c);
      && |e| > 0
      && e[0] != '<' && e[0] != '>' && e[0] != '"' && e[0] != '\''
      && (e[0] == '&' ==> EntityAt(e, 0))
      && forall i :: 1 <= i < |e| ==> !IsReserved(e[i])
  {
    var e := EscapeChar(c);
    assert e[0..] == e;
  }

  /** Prefixing the escape of one character keeps text well escaped. */
  lemma EscapeCharWellEscaped(c: char, w: string)
    requires WellEscaped(w)
    ensures WellEscaped(EscapeChar(c) + w)
  {
    var e := EscapeChar(c);
    var t := e + w;
    EscapeCharShape(c);
    forall i | 0 <= i < |t|
      ensures t[i] != '<' && t[i] != '>' && t[i] != '"' && t[i] != '\''
      ensures t[i] == '&' ==> EntityAt(t, i)
    {
      if i == 0 {
        assert t[0] == e[0];
        assert e <= t[0..];
      } else if i < |e| {
        assert t[i] == e[i] && !IsReserved(e[i]);
      } else {
        assert t[i] == w[i - |e|];
        assert t[i..] == w[i - |e|..];
      }
    }
  }

  /** The per-character escape always yields well-escaped text. */
  lemma {:induction false} EscapeAllWellEscaped(s: string)
    ensures WellEscaped(EscapeAll(s))
    decreases |s|
  {
    if |s| > 0 {
      EscapeAllWellEscaped(s[1..]);
      EscapeCharWellEscaped(s[0], EscapeAll(s[1..]));
    }
  }

  /** The output of `sanitize_string` contains no `<`, `>`, `"` or `'`, and
      every `&` in it begins one of the five entities. */
  lemma SanitizeWellEscaped(s: string)
    ensures WellEscaped(Sanitize(s))
  {
    SanitizeIsEscapeAll(s);
    EscapeAllWellEscaped(s);
  }

  /** Decoding undoes the escape of one leading character. */
  lemma UnescapeEscapeChar(c: char, rest: string)
    ensures Unescape(EscapeChar(c) + rest) == [c] + Unescape(rest)
  {
    var t := EscapeChar(c) + rest;
    if c == '&' {
      assert "&amp;" <= t && t[5..] == rest;
    } else if c == '"' {
      assert t[1] == 'q' && !("&amp;" <= t);
      assert "&quot;" <= t && t[6..] == rest;
    } else if c == '\'' {
      assert t[1] == 'a' && t[2] == 'p';
      assert !("&amp;" <= t) && !("&quot;" <= t);
      assert "&apos;" <= t && t[6..] == rest;
    } else if c == '<' {
      assert t[1] == 'l';
      assert !("&amp;" <= t) && !("&quot;" <= t) && !("&apos;" <= t);
      assert "&lt;" <= t && t[4..] == rest;
    } else if c == '>' {
      assert t[1] == 'g';
      assert !("&amp;" <= t) && !("&quot;" <= t) && !("&apos;" <= t) && !("&lt;" <= t);
      assert "&gt;" <= t && t[4..] == rest;
    } else {
      assert t[0] == c && t[1..] == rest;
    }
  }

  /** Decoding inverts the per-character escape. */
  lemma {:induction false} UnescapeEscapeAll(s: string)
    ensures Unescape(EscapeAll(s)) == s
    decreases |s|
  {
    if |s| == 0 {
      assert EscapeAll(s) == [];
    } else {
      UnescapeEscapeChar(s[0], EscapeAll(s[1..]));
      UnescapeEscapeAll(s[1..]);
      assert s == [s[0]] + s[1..];
    }
  }

  /** Round trip: decoding the five entities in sanitized text recovers the
      original text. */
  lemma SanitizeRoundTrip(s: string)
    ensures Unescape(Sanitize(s)) == s
  {
    SanitizeIsEscapeAll(s);
    UnescapeEscapeAll(s);
  }

  /** Distinct texts stay distinct after sanitizing, so no information is lost. */
  lemma SanitizeInjective(a: string, b: string)
    ensures Sanitize(a) == Sanitize(b) <==> a == b
  {
    SanitizeRoundTrip(a);
    SanitizeRoundTrip(b);
  }

  /** Running the ampersand pass last instead of first would re-escape the
      entities the other passes add: `<` would come out as `&amp;lt;`. The
      source's order is what keeps `sanitize_string` from doing this. */
  lemma AmpersandLastDoubleEscapes()
    ensures ReplaceAll(ReplaceAll("<", '<', "&lt;"), '&', "&amp;") == "&amp;lt;"
    ensures Sanitize("<") == "&lt;"
  {
    SanitizeChar('<');
    ReplaceAllSingle('<', '<', "&lt;");
    assert "<" == ['<'];
    assert "&lt;" == ['&'] + "lt;";
    ReplaceAllAppend(['&'], "lt;", '&', "&amp;");
    ReplaceAllSingle('&', '&', "&amp;");
    assert "&amp;lt;" == "&amp;" + "lt;";
  }
}
