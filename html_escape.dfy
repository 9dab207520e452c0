/**
 * The HTML escaping both contact endpoints apply to visitor text before it is
 * interpolated into the outgoing mail. The source writes it as a chain of
 * global `replace` calls with `&` first; this module models that chain
 * literally and proves it equal to escaping character by character, which is
 * what every later property is stated about. `slash` selects the six-character
 * variant that also escapes `/`.
 */
module HtmlEscape {

  /** `s.replace(/c/g, rep)` for a one-character pattern. */
  function ReplaceAll(s: string, c: char, rep: string): string {
    if s == [] then [] else (if s[0] == c then rep else [s[0]]) + ReplaceAll(s[1..], c, rep)
  }

  /** The five-step chain of the deployed endpoint. */
  function ReplaceChain5(s: string): string {
    ReplaceAll(ReplaceAll(ReplaceAll(ReplaceAll(ReplaceAll(s,
      '&', "&amp;"), '<', "&lt;"), '>', "&gt;"), '"', "&quot;"), '\'', "&#x27;")
  }

  /** The six-step chain of the rate-limited endpoint: the five above, then `/`. */
  function ReplaceChain6(s: string): string {
    ReplaceAll(ReplaceChain5(s), '/', "&#x2F;")
  }

  /** What one input character becomes. */
  function EscapeChar(c: char, slash: bool): string {
    if c == '&' then "&amp;"
    else if c == '<' then "&lt;"
    else if c == '>' then "&gt;"
    else if c == '"' then "&quot;"
    else if c == '\'' then "&#x27;"
    else if c == '/' && slash then "&#x2F;"
    else [c]
  }

  /** Escaping character by character. */
  function Escape(s: string, slash: bool): string {
    if s == [] then [] else EscapeChar(s[0], slash) + Escape(s[1..], slash)
  }

  lemma {:induction false} ReplaceAllAppend(a: string, b: string, c: char, rep: string)
    ensures ReplaceAll(a + b, c, rep) == ReplaceAll(a, c, rep) + ReplaceAll(b, c, rep)
  {
    if a == [] {
      assert a + b == b;
    } else {
      assert (a + b)[0] == a[0] && (a + b)[1..] == a[1..] + b;
      ReplaceAllAppend(a[1..], b, c, rep);
    }
  }

  lemma {:induction false} ReplaceAllAbsent(s: string, c: char, rep: string)
    requires c !in s
    ensures ReplaceAll(s, c, rep) == s
  {
    if s != [] {
      ReplaceAllAbsent(s[1..], c, rep);
    }
  }

  lemma ReplaceAllSingle(c: char, d: char, rep: string)
    ensures ReplaceAll([c], d, rep) == if c == d then rep else [c]
  {
    assert [c][0] == c && [c][1..] == [];
  }

  /** Every step of the chain splits over concatenation, so the whole chain does. */
  lemma ReplaceChain6Append(a: string, b: string)
    ensures ReplaceChain6(a + b) == ReplaceChain6(a) + ReplaceChain6(b)
  {
    var s0, t0 := a, b;
    ReplaceAllAppend(s0, t0, '&', "&amp;");
    var s1, t1 := ReplaceAll(s0, '&', "&amp;"), ReplaceAll(t0, '&', "&amp;");
    ReplaceAllAppend(s1, t1, '<', "&lt;");
    var s2, t2 := ReplaceAll(s1, '<', "&lt;"), ReplaceAll(t1, '<', "&lt;");
    ReplaceAllAppend(s2, t2, '>', "&gt;");
    var s3, t3 := ReplaceAll(s2, '>', "&gt;"), ReplaceAll(t2, '>', "&gt;");
    ReplaceAllAppend(s3, t3, '"', "&quot;");
    var s4, t4 := ReplaceAll(s3, '"', "&quot;"), ReplaceAll(t3, '"', "&quot;");
    ReplaceAllAppend(s4, t4, '\'', "&#x27;");
    var s5, t5 := ReplaceAll(s4, '\'', "&#x27;"), ReplaceAll(t4, '\'', "&#x27;");
    ReplaceAllAppend(s5, t5, '/', "&#x2F;");
  }

  lemma ReplaceChain5Append(a: string, b: string)
    ensures ReplaceChain5(a + b) == ReplaceChain5(a) + ReplaceChain5(b)
  {
    var s0, t0 := a, b;
    ReplaceAllAppend(s0, t0, '&', "&amp;");
    var s1, t1 := ReplaceAll(s0, '&', "&amp;"), ReplaceAll(t0, '&', "&amp;");
    ReplaceAllAppend(s1, t1, '<', "&lt;");
    var s2, t2 := ReplaceAll(s1, '<', "&lt;"), ReplaceAll(t1, '<', "&lt;");
    ReplaceAllAppend(s2, t2, '>', "&gt;");
    var s3, t3 := ReplaceAll(s2, '>', "&gt;"), ReplaceAll(t2, '>', "&gt;");
    ReplaceAllAppend(s3, t3, '"', "&quot;");
    var s4, t4 := ReplaceAll(s3, '"', "&quot;"), ReplaceAll(t3, '"', "&quot;");
    ReplaceAllAppend(s4, t4, '\'', "&#x27;");
  }

  /** Text without the later pattern characters passes unchanged through the last one, two, three or four steps. */
  lemma ChainTail(e: string)
    requires '<' !in e && '>' !in e && '"' !in e && '\'' !in e && '/' !in e
    ensures ReplaceAll(e, '/', "&#x2F;") == e
    ensures ReplaceAll(e, '\'', "&#x27;") == e
    ensures ReplaceAll(ReplaceAll(e, '"', "&quot;"), '\'', "&#x27;") == e
    ensures ReplaceAll(ReplaceAll(ReplaceAll(e, '>', "&gt;"), '"', "&quot;"), '\'', "&#x27;") == e
    ensures ReplaceAll(ReplaceAll(ReplaceAll(ReplaceAll(e, '<', "&lt;"), '>', "&gt;"), '"', "&quot;"), '\'', "&#x27;") == e
  {
    ReplaceAllAbsent(e, '<', "&lt;");
    ReplaceAllAbsent(e, '>', "&gt;");
    ReplaceAllAbsent(e, '"', "&quot;");
    ReplaceAllAbsent(e, '\'', "&#x27;");
    ReplaceAllAbsent(e, '/', "&#x2F;");
  }

  /** Each later step leaves alone the entities the earlier steps produced. */
  lemma ReplaceChain5One(c: char)
    ensures ReplaceChain5([c]) == EscapeChar(c, false)
  {
    ReplaceAllSingle(c, '&', "&amp;");
    if c == '&' {
      ChainTail("&amp;");
    } else {
      ReplaceAllSingle(c, '<', "&lt;");
      if c == '<' {
        ChainTail("&lt;");
      } else {
        ReplaceAllSingle(c, '>', "&gt;");
        if c == '>' {
          ChainTail("&gt;");
        } else {
          ReplaceAllSingle(c, '"', "&quot;");
          if c == '"' {
            ChainTail("&quot;");
          } else {
            ReplaceAllSingle(c, '\'', "&#x27;");
          }
        }
      }
    }
  }

  lemma ReplaceChainOne(c: char)
    ensures ReplaceChain5([c]) == EscapeChar(c, false)
    ensures ReplaceChain6([c]) == EscapeChar(c, true)
  {
    ReplaceChain5One(c);
    if c == '&' {
      ChainTail("&amp;");
    } else if c == '<' {
      ChainTail("&lt;");
    } else if c == '>' {
      ChainTail("&gt;");
    } else if c == '"' {
      ChainTail("&quot;");
    } else if c == '\'' {
      ChainTail("&#x27;");
    } else {
      ReplaceAllSingle(c, '/', "&#x2F;");
    }
  }

  /** Because `&` is replaced first, the five-step chain is character-by-character escaping. */
  lemma {:induction false} ReplaceChain5IsEscape(s: string)
    ensures ReplaceChain5(s) == Escape(s, false)
  {
    if s != [] {
      assert s == [s[0]] + s[1..];
      ReplaceChain5Append([s[0]], s[1..]);
      ReplaceChainOne(s[0]);
      ReplaceChain5IsEscape(s[1..]);
    }
  }

  /** The same for the six-step chain. */
  lemma {:induction false} ReplaceChain6IsEscape(s: string)
    ensures ReplaceChain6(s) == Escape(s, true)
  {
    if s != [] {
      assert s == [s[0]] + s[1..];
      ReplaceChain6Append([s[0]], s[1..]);
      ReplaceChainOne(s[0]);
      ReplaceChain6IsEscape(s[1..]);
    }
  }

  /** Escaping acts on each character independently: escape(a + b) == escape(a) + escape(b). */
  lemma {:induction false} EscapeAppend(a: string, b: string, slash: bool)
    ensures Escape(a + b, slash) == Escape(a, slash) + Escape(b, slash)
  {
    if a == [] {
      assert a + b == b;
    } else {
      assert (a + b)[0] == a[0] && (a + b)[1..] == a[1..] + b;
      EscapeAppend(a[1..], b, slash);
    }
  }

  /** Each character grows to at least one and at most six characters. */
  lemma {:induction false} EscapeLength(s: string, slash: bool)
    ensures |s| <= |Escape(s, slash)| <= 6 * |s|
  {
    if s != [] {
      EscapeLength(s[1..], slash);
    }
  }

  /** Escaping leaves nothing out: the result is empty only for empty input. */
  lemma EscapeEmpty(s: string, slash: bool)
    ensures Escape(s, slash) == [] <==> s == []
  {
    EscapeLength(s, slash);
  }

  predicate HasPrefix(t: string, p: string) {
    |p| <= |t| && t[..|p|] == p
  }

  /** `t` begins with one of the entities the escaper writes. */
  predicate StartsWithEntity(t: string, slash: bool) {
    HasPrefix(t, "&amp;") || HasPrefix(t, "&lt;") || HasPrefix(t, "&gt;")
    || HasPrefix(t, "&quot;") || HasPrefix(t, "&#x27;") || (slash && HasPrefix(t, "&#x2F;"))
  }

  /** A raw character that the escaper never lets through. */
  predicate IsMarkup(c: char, slash: bool) {
    c == '<' || c == '>' || c == '"' || c == '\'' || (slash && c == '/')
  }

  /** No raw markup character, and every `&` opens an entity. */
  predicate WellEscaped(t: string, slash: bool) {
    forall i :: 0 <= i < |t| ==> !IsMarkup(t[i], slash) && (t[i] == '&' ==> StartsWithEntity(t[i..], slash))
  }

  lemma WellEscapedAppend(a: string, b: string, slash: bool)
    requires WellEscaped(a, slash) && WellEscaped(b, slash)
    ensures WellEscaped(a + b, slash)
  {
    var t := a + b;
    forall i | 0 <= i < |t|
      ensures !IsMarkup(t[i], slash) && (t[i] == '&' ==> StartsWithEntity(t[i..], slash))
    {
      if i < |a| {
        assert t[i] == a[i];
        assert t[i..] == a[i..] + b;
        if t[i] == '&' {
          var u := a[i..];
          assert StartsWithEntity(u, slash);
          assert forall p :: HasPrefix(u, p) ==> HasPrefix(u + b, p) by {
            forall p | HasPrefix(u, p) ensures HasPrefix(u + b, p) {
              assert (u + b)[..|p|] == u[..|p|];
            }
          }
        }
      } else {
        assert t[i] == b[i - |a|];
        assert t[i..] == b[i - |a|..];
      }
    }
  }

  /** The escaped text holds no raw `<`, `>`, `"`, `'` (nor `/` in the six-character variant), and every `&` in it starts an entity. */
  lemma {:induction false} EscapeIsWellEscaped(s: string, slash: bool)
    ensures WellEscaped(Escape(s, slash), slash)
  {
    if s != [] {
      var e := EscapeChar(s[0], slash);
      assert WellEscaped(e, slash) by {
        if s[0] == '&' || s[0] == '<' || s[0] == '>' || s[0] == '"' || s[0] == '\'' || (s[0] == '/' && slash) {
          assert e[0] == '&' && StartsWithEntity(e[0..], slash);
          assert forall i :: 1 <= i < |e| ==> !IsMarkup(e[i], slash) && e[i] != '&';
        }
      }
      EscapeIsWellEscaped(s[1..], slash);
      WellEscapedAppend(e, Escape(s[1..], slash), slash);
    }
  }

  /** Decodes the entities the escaper writes; every other character stands for itself. */
  function Unescape(t: string): string
    decreases |t|
  {
    if t == [] then []
    else if t[0] != '&' then [t[0]] + Unescape(t[1..])
    else if HasPrefix(t, "&amp;") then "&" + Unescape(t[5..])
    else if HasPrefix(t, "&lt;") then "<" + Unescape(t[4..])
    else if HasPrefix(t, "&gt;") then ">" + Unescape(t[4..])
    else if HasPrefix(t, "&quot;") then "\"" + Unescape(t[6..])
    else if HasPrefix(t, "&#x27;") then "'" + Unescape(t[6..])
    else if HasPrefix(t, "&#x2F;") then "/" + Unescape(t[6..])
    else [t[0]] + Unescape(t[1..])
  }

  /** Unescaping one of the escaper's entities at the front yields its character. */
  lemma UnescapeEntity(ent: string, c: char, rest: string)
    requires || (ent == "&amp;" && c == '&') || (ent == "&lt;" && c == '<') || (ent == "&gt;" && c == '>')
             || (ent == "&quot;" && c == '"') || (ent == "&#x27;" && c == '\'') || (ent == "&#x2F;" && c == '/')
    ensures Unescape(ent + rest) == [c] + Unescape(rest)
  {
    var t := ent + rest;
    assert t[..|ent|] == ent;
    assert t[|ent|..] == rest;
    assert t[0] == '&' && t[1] == ent[1];
    if |ent| == 6 {
      assert t[4] == ent[4];
    }
  }

  /** A character that is not `&` stands for itself. */
  lemma UnescapePlain(c: char, rest: string)
    requires c != '&'
    ensures Unescape([c] + rest) == [c] + Unescape(rest)
  {
    assert ([c] + rest)[1..] == rest;
  }

  lemma UnescapeStep(c: char, rest: string, slash: bool)
    ensures Unescape(EscapeChar(c, slash) + rest) == [c] + Unescape(rest)
  {
    if c == '&' {
      UnescapeEntity("&amp;", c, rest);
    } else if c == '<' {
      UnescapeEntity("&lt;", c, rest);
    } else if c == '>' {
      UnescapeEntity("&gt;", c, rest);
    } else if c == '"' {
      UnescapeEntity("&quot;", c, rest);
    } else if c == '\'' {
      UnescapeEntity("&#x27;", c, rest);
    } else if c == '/' && slash {
      UnescapeEntity("&#x2F;", c, rest);
    } else {
      UnescapePlain(c, rest);
    }
  }

  /** Unescaping recovers the text that was escaped, in both variants. */
  lemma {:induction false} UnescapeEscape(s: string, slash: bool)
    ensures Unescape(Escape(s, slash)) == s
  {
    if s != [] {
      UnescapeStep(s[0], Escape(s[1..], slash), slash);
      UnescapeEscape(s[1..], slash);
      assert s == [s[0]] + s[1..];
    }
  }

  /** Escaping is not idempotent: a second pass escapes the `&` of the first pass's entities again. */
  lemma EscapeNotIdempotent(slash: bool)
    ensures Escape(Escape("&", slash), slash) != Escape("&", slash)
  {
    assert Escape("&", slash) == "&amp;";
    EscapeLength("&amp;", slash);
    var twice := Escape("&amp;", slash);
    assert twice == EscapeChar('&', slash) + Escape("amp;", slash);
  }
}
