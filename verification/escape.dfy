/** The HTML escaping helpers of ui.js, `escapeHtml` and `escapeAttr`: chains of
    global single-character replacements. */
module Escape {

  /** `s.replace(/c/g, rep)`: every `c` becomes `rep`. */
  function ReplaceChar(s: string, c: char, rep: string): (r: string)
    ensures c !in rep ==> c !in r
    ensures |r| >= |s| || |rep| == 0
  {
    if s == [] then [] else (if s[0] == c then rep else [s[0]]) + ReplaceChar(s[1..], c, rep)
  }

  /** Replacing brings in no character but those of the replacement. */
  lemma {:induction false} ReplaceCharNoNew(s: string, c: char, rep: string, d: char)
    requires d !in s && d !in rep
    ensures d !in ReplaceChar(s, c, rep)
    decreases |s|
  {
    if s != [] {
      ReplaceCharNoNew(s[1..], c, rep, d);
    }
  }

  /** Replacing works piece by piece. */
  lemma {:induction false} ReplaceCharAppend(a: string, b: string, c: char, rep: string)
    ensures ReplaceChar(a + b, c, rep) == ReplaceChar(a, c, rep) + ReplaceChar(b, c, rep)
    decreases |a|
  {
    if a == [] {
      assert a + b == b;
    } else {
      var h := if a[0] == c then rep else [a[0]];
      assert (a + b)[0] == a[0];
      assert (a + b)[1..] == a[1..] + b;
      assert ReplaceChar(a + b, c, rep) == h + ReplaceChar(a[1..] + b, c, rep);
      ReplaceCharAppend(a[1..], b, c, rep);
      assert ReplaceChar(a, c, rep) == h + ReplaceChar(a[1..], c, rep);
      assert h + (ReplaceChar(a[1..], c, rep) + ReplaceChar(b, c, rep))
          == (h + ReplaceChar(a[1..], c, rep)) + ReplaceChar(b, c, rep);
    }
  }

  /** `escapeHtml(str)`: '&' first, then '<', '>', '"' and '\''. */
  function EscapeHtml(s: string): (r: string)
    ensures |r| >= |s|
    ensures '<' !in r && '>' !in r && '"' !in r && '\'' !in r
  {
    var s := ReplaceChar(s, '&', "&amp;");
    var s := ReplaceChar(s, '<', "&lt;");
    ReplaceCharNoNew(s, '>', "&gt;", '<');
    var s := ReplaceChar(s, '>', "&gt;");
    ReplaceCharNoNew(s, '"', "&quot;", '<');
    ReplaceCharNoNew(s, '"', "&quot;", '>');
    var s := ReplaceChar(s, '"', "&quot;");
    ReplaceCharNoNew(s, '\'', "&#39;", '<');
    ReplaceCharNoNew(s, '\'', "&#39;", '>');
    ReplaceCharNoNew(s, '\'', "&#39;", '"');
    ReplaceChar(s, '\'', "&#39;")
  }

  /** `escapeAttr(str)`: '&' first, then '"', '\'', '<' and '>'. */
  function EscapeAttr(s: string): (r: string)
    ensures |r| >= |s|
    ensures '<' !in r && '>' !in r && '"' !in r && '\'' !in r
  {
    var s := ReplaceChar(s, '&', "&amp;");
    var s := ReplaceChar(s, '"', "&quot;");
    ReplaceCharNoNew(s, '\'', "&#39;", '"');
    var s := ReplaceChar(s, '\'', "&#39;");
    ReplaceCharNoNew(s, '<', "&lt;", '"');
    ReplaceCharNoNew(s, '<', "&lt;", '\'');
    var s := ReplaceChar(s, '<', "&lt;");
    ReplaceCharNoNew(s, '>', "&gt;", '"');
    ReplaceCharNoNew(s, '>', "&gt;", '\'');
    ReplaceCharNoNew(s, '>', "&gt;", '<');
    ReplaceChar(s, '>', "&gt;")
  }

  /** The five characters the helpers escape. */
  predicate Special(c: char)
  {
    c == '&' || c == '<' || c == '>' || c == '"' || c == '\''
  }

  /** The entity for one character, or the character itself. */
  function EncodeChar(c: char): (r: string)
    ensures |r| >= 1 && (!Special(c) <==> r == [c])
  {
    match c
    case '&' => "&amp;"
    case '<' => "&lt;"
    case '>' => "&gt;"
    case '"' => "&quot;"
    case '\'' => "&#39;"
    case _ => [c]
  }

  /** Escaping in one pass, character by character. */
  function Encode(s: string): (r: string)
    ensures |r| >= |s|
  {
    if s == [] then [] else EncodeChar(s[0]) + Encode(s[1..])
  }

  /** Each replacement chain is the same on a concatenation as on its parts. */
  lemma EscapeAppend(a: string, b: string)
    ensures EscapeHtml(a + b) == EscapeHtml(a) + EscapeHtml(b)
    ensures EscapeAttr(a + b) == EscapeAttr(a) + EscapeAttr(b)
  {
    var s1, s2 := a, b;
    ReplaceCharAppend(s1, s2, '&', "&amp;");
    var t1, t2 := ReplaceChar(s1, '&', "&amp;"), ReplaceChar(s2, '&', "&amp;");
    ReplaceCharAppend(t1, t2, '<', "&lt;");
    ReplaceCharAppend(t1, t2, '"', "&quot;");
    var h1, h2 := ReplaceChar(t1, '<', "&lt;"), ReplaceChar(t2, '<', "&lt;");
    ReplaceCharAppend(h1, h2, '>', "&gt;");
    var h3, h4 := ReplaceChar(h1, '>', "&gt;"), ReplaceChar(h2, '>', "&gt;");
    ReplaceCharAppend(h3, h4, '"', "&quot;");
    var h5, h6 := ReplaceChar(h3, '"', "&quot;"), ReplaceChar(h4, '"', "&quot;");
    ReplaceCharAppend(h5, h6, '\'', "&#39;");
    var q1, q2 := ReplaceChar(t1, '"', "&quot;"), ReplaceChar(t2, '"', "&quot;");
    ReplaceCharAppend(q1, q2, '\'', "&#39;");
    var q3, q4 := ReplaceChar(q1, '\'', "&#39;"), ReplaceChar(q2, '\'', "&#39;");
    ReplaceCharAppend(q3, q4, '<', "&lt;");
    var q5, q6 := ReplaceChar(q3, '<', "&lt;"), ReplaceChar(q4, '<', "&lt;");
    ReplaceCharAppend(q5, q6, '>', "&gt;");
  }

  /** Replacing a character that does not occur changes nothing. */
  lemma {:induction false} ReplaceAbsent(s: string, c: char, rep: string)
    requires c !in s
    ensures ReplaceChar(s, c, rep) == s
    decreases |s|
  {
    if s != [] {
      ReplaceAbsent(s[1..], c, rep);
      assert s == [s[0]] + s[1..];
    }
  }

  lemma ReplaceOne(x: char, c: char, rep: string)
    ensures ReplaceChar([x], c, rep) == if x == c then rep else [x]
  {
    assert [x][1..] == [];
  }

  /** An entity contains none of '<', '>', '"', '\'' (only the escaped character
      itself, when it is not special). */
  lemma EntityPlain(c: char)
    ensures c != '<' ==> '<' !in EncodeChar(c)
    ensures c != '>' ==> '>' !in EncodeChar(c)
    ensures c != '"' ==> '"' !in EncodeChar(c)
    ensures c != '\'' ==> '\'' !in EncodeChar(c)
  {
  }

  /** A replacement step after the '&' step, applied to a character that is still
      itself or already its entity: it escapes the character when it is the one
      replaced, and leaves it alone otherwise. */
  lemma LaterStep(c: char, d: char, t: string)
    requires d == '<' || d == '>' || d == '"' || d == '\''
    requires t == [c] || (t == EncodeChar(c) && c != d)
    ensures ReplaceChar(t, d, EncodeChar(d)) == if t == [c] && c == d then EncodeChar(c) else t
  {
    if t == [c] {
      ReplaceOne(c, d, EncodeChar(d));
    } else {
      EntityPlain(c);
      ReplaceAbsent(t, d, EncodeChar(d));
    }
  }

  /** On a single character `escapeHtml` gives its entity. */
  lemma EscapeHtmlOne(c: char)
    ensures EscapeHtml([c]) == EncodeChar(c)
  {
    ReplaceOne(c, '&', "&amp;");
    var s1 := ReplaceChar([c], '&', "&amp;");
    LaterStep(c, '<', s1);
    var s2 := ReplaceChar(s1, '<', "&lt;");
    LaterStep(c, '>', s2);
    var s3 := ReplaceChar(s2, '>', "&gt;");
    LaterStep(c, '"', s3);
    var s4 := ReplaceChar(s3, '"', "&quot;");
    LaterStep(c, '\'', s4);
  }

  /** On a single character `escapeAttr` gives its entity. */
  lemma EscapeAttrOne(c: char)
    ensures EscapeAttr([c]) == EncodeChar(c)
  {
    ReplaceOne(c, '&', "&amp;");
    var s1 := ReplaceChar([c], '&', "&amp;");
    LaterStep(c, '"', s1);
    var s2 := ReplaceChar(s1, '"', "&quot;");
    LaterStep(c, '\'', s2);
    var s3 := ReplaceChar(s2, '\'', "&#39;");
    LaterStep(c, '<', s3);
    var s4 := ReplaceChar(s3, '<', "&lt;");
    LaterStep(c, '>', s4);
  }

  /** Although they replace in a different order, `escapeHtml` and `escapeAttr`
      agree on every input: both escape each character on its own. */
  lemma {:induction false} EscapeIsEncode(s: string)
    ensures EscapeHtml(s) == Encode(s) && EscapeAttr(s) == Encode(s)
    decreases |s|
  {
    if s == [] {
    } else {
      assert s == [s[0]] + s[1..];
      EscapeAppend([s[0]], s[1..]);
      EscapeHtmlOne(s[0]);
      EscapeAttrOne(s[0]);
      EscapeIsEncode(s[1..]);
    }
  }

  /** An entity starts at position `i` of `r`. */
  predicate EntityAt(r: string, i: int)
    requires 0 <= i <= |r|
  {
    var t := r[i..];
    (|t| >= 5 && t[..5] == "&amp;") || (|t| >= 4 && t[..4] == "&lt;") || (|t| >= 4 && t[..4] == "&gt;")
    || (|t| >= 6 && t[..6] == "&quot;") || (|t| >= 5 && t[..5] == "&#39;")
  }

  /** The escaped text holds none of '<', '>', '"', '\''. */
  lemma {:induction false} EncodeNoMarkup(s: string)
    ensures var r := Encode(s); '<' !in r && '>' !in r && '"' !in r && '\'' !in r
    decreases |s|
  {
    if s != [] {
      EncodeNoMarkup(s[1..]);
      EntityPlain(s[0]);
    }
  }

  /** Every '&' in the escaped text begins one of the five entities. */
  lemma {:induction false} EncodeEntities(s: string)
    ensures forall i :: 0 <= i < |Encode(s)| && Encode(s)[i] == '&' ==> EntityAt(Encode(s), i)
    decreases |s|
  {
    if s != [] {
      EncodeEntities(s[1..]);
      var h := EncodeChar(s[0]);
      var t := Encode(s[1..]);
      var r := Encode(s);
      assert r == h + t;
      forall i | 0 <= i < |r| && r[i] == '&'
        ensures EntityAt(r, i)
      {
        if i < |h| {
          EntityHead(s[0], t, i);
        } else {
          assert t[i - |h|] == r[i] == '&';
          EntityShift(h, t, i - |h|);
        }
      }
    }
  }

  /** A '&' inside a character's own encoding is its first character, and it
      begins an entity. */
  lemma EntityHead(c: char, t: string, i: int)
    requires 0 <= i < |EncodeChar(c)| && EncodeChar(c)[i] == '&'
    ensures i == 0 && EntityAt(EncodeChar(c) + t, 0)
  {
    var h := EncodeChar(c);
    assert (h + t)[0..] == h + t;
    assert (h + t)[..|h|] == h;
  }

  /** An entity in `t` is still one after a prefix. */
  lemma EntityShift(h: string, t: string, j: int)
    requires 0 <= j <= |t| && EntityAt(t, j)
    ensures EntityAt(h + t, |h| + j)
  {
    assert (h + t)[|h| + j..] == t[j..];
  }

  /** Text without any of the five characters is left as it is. */
  lemma {:induction false} EncodePlain(s: string)
    requires forall i :: 0 <= i < |s| ==> !Special(s[i])
    ensures Encode(s) == s
    decreases |s|
  {
    if s != [] {
      EncodePlain(s[1..]);
    }
  }

  /** Reading the entities back: the inverse of escaping. A '&' that begins no
      entity stays as it is. */
  function Unescape(r: string): (s: string)
    decreases |r|
  {
    if r == [] then []
    else if r[0] != '&' then [r[0]] + Unescape(r[1..])
    else if |r| >= 5 && r[..5] == "&amp;" then "&" + Unescape(r[5..])
    else if |r| >= 4 && r[..4] == "&lt;" then "<" + Unescape(r[4..])
    else if |r| >= 4 && r[..4] == "&gt;" then ">" + Unescape(r[4..])
    else if |r| >= 6 && r[..6] == "&quot;" then "\"" + Unescape(r[6..])
    else if |r| >= 5 && r[..5] == "&#39;" then "'" + Unescape(r[5..])
    else "&" + Unescape(r[1..])
  }

  /** Unescaping reads one escaped character back. */
  lemma UnescapeOne(c: char, h: string, t: string)
    requires h == EncodeChar(c)
    ensures Unescape(h + t) == [c] + Unescape(t)
  {
    var r := h + t;
    assert r[..|h|] == h && r[|h|..] == t;
    if !Special(c) {
      assert r[1..] == t;
    } else if c == '&' {
    } else if c == '<' {
      assert |r| >= 5 ==> r[..5] != "&amp;" by { assert r[1] == 'l'; }
    } else if c == '>' {
      assert |r| >= 5 ==> r[..5] != "&amp;" by { assert r[1] == 'g'; }
      assert r[..4] != "&lt;" by { assert r[1] == 'g'; }
    } else if c == '"' {
      assert r[..5] != "&amp;" by { assert r[1] == 'q'; }
      assert r[..4] != "&lt;" by { assert r[1] == 'q'; }
      assert r[..4] != "&gt;" by { assert r[1] == 'q'; }
    } else {
      assert r[..5] != "&amp;" by { assert r[1] == '#'; }
      assert r[..4] != "&lt;" by { assert r[1] == '#'; }
      assert r[..4] != "&gt;" by { assert r[1] == '#'; }
      assert |r| >= 6 ==> r[..6] != "&quot;" by { assert r[1] == '#'; }
    }
  }

  /** Escaping loses nothing: unescaping the escaped text gives the input back. */
  lemma {:induction false} UnescapeEncode(s: string)
    ensures Unescape(Encode(s)) == s
    decreases |s|
  {
    if s != [] {
      UnescapeEncode(s[1..]);
      UnescapeOne(s[0], EncodeChar(s[0]), Encode(s[1..]));
      assert s == [s[0]] + s[1..];
    }
  }
}
