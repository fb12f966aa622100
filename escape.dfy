/**
 * The `escape` helper of public/js/search.js: each of the five characters
 * that are special in HTML text and attribute values is replaced by its
 * entity through a constant table, and every other character is kept.
 * JavaScript strings are sequences of UTF-16 code units; a `char` stands for
 * one of them.
 */
module HtmlEscape {

  /** The characters htmlEscapeTable has an entry for. */
  predicate Special(c: char) {
    c == '&' || c == '<' || c == '>' || c == '"' || c == '\''
  }

  /** The characters escaped text never contains. */
  predicate Markup(c: char) {
    c == '<' || c == '>' || c == '"' || c == '\''
  }

  /** The number of characters escaping adds for `c`. */
  function Growth(c: char): nat {
    if c == '&' || c == '\'' then 4
    else if c == '<' || c == '>' then 3
    else if c == '"' then 5
    else 0
  }

  /** htmlEscapeTable, with every other character standing for itself. */
  function EscapeChar(c: char): (r: string)
    ensures !Special(c) <==> r == [c]
    ensures Special(c) ==> |r| > 1 && r[0] == '&' && r[|r| - 1] == ';'
    ensures |r| == 1 + Growth(c)
    ensures forall i | 0 <= i < |r| :: !Markup(r[i])
  {
    if c == '&' then "&amp;"
    else if c == '<' then "&lt;"
    else if c == '>' then "&gt;"
    else if c == '"' then "&quot;"
    else if c == '\'' then "&#39;"
    else [c]
  }

  /** escape: the global replace, one character at a time. */
  function Escape(s: string): (r: string)
    ensures forall i | 0 <= i < |r| :: !Markup(r[i])
    ensures |r| >= |s|
  {
    if s == [] then []
    else EscapeChar(s[0]) + Escape(s[1..])
  }

  /** The escaped text is longer by four per `&` and `'`, three per `<` and `>`, and five per `"`. */
  lemma {:induction false} EscapeLength(s: string)
    ensures |Escape(s)| == |s| + 4 * multiset(s)['&'] + 3 * multiset(s)['<'] + 3 * multiset(s)['>']
                              + 5 * multiset(s)['"'] + 4 * multiset(s)['\'']
  {
    if s != [] {
      EscapeLength(s[1..]);
      assert s == [s[0]] + s[1..];
      GrowthCounted(multiset(s[1..]), s[0]);
    }
  }

  /** Adding one character to a text adds its growth to the weighted count of special characters. */
  lemma GrowthCounted(m: multiset<char>, c: char)
    ensures var n := m + multiset{c};
      4 * n['&'] + 3 * n['<'] + 3 * n['>'] + 5 * n['"'] + 4 * n['\'']
      == 4 * m['&'] + 3 * m['<'] + 3 * m['>'] + 5 * m['"'] + 4 * m['\''] + Growth(c)
  {
  }

  /** Escaping works character by character: text can be escaped in pieces. */
  lemma {:induction false} EscapeAppend(a: string, b: string)
    ensures Escape(a + b) == Escape(a) + Escape(b)
  {
    if a == [] {
      assert a + b == b;
    } else {
      assert (a + b)[0] == a[0] && (a + b)[1..] == a[1..] + b;
      EscapeAppend(a[1..], b);
    }
  }

  /** Text without special characters is left exactly as it is. */
  lemma {:induction false} EscapePlain(s: string)
    requires forall i | 0 <= i < |s| :: !Special(s[i])
    ensures Escape(s) == s
  {
    if s != [] {
      EscapePlain(s[1..]);
    }
  }

  /** Reading entities back: the five entities become their characters, anything else stays. */
  function Unescape(s: string): string
    decreases |s|
  {
    if s == [] then []
    else if "&amp;" <= s then "&" + Unescape(s[5..])
    else if "&lt;" <= s then "<" + Unescape(s[4..])
    else if "&gt;" <= s then ">" + Unescape(s[4..])
    else if "&quot;" <= s then "\"" + Unescape(s[6..])
    else if "&#39;" <= s then "'" + Unescape(s[5..])
    else [s[0]] + Unescape(s[1..])
  }

  /** Reading one escaped character back from the front of a text. */
  lemma UnescapeChar(c: char, t: string)
    ensures Unescape(EscapeChar(c) + t) == [c] + Unescape(t)
  {
    var e := EscapeChar(c);
    var s := e + t;
    assert e <= s && s[|e|..] == t;
    if !Special(c) {
      assert s[0] == c && s[1..] == t;
    } else if c == '&' {
    } else if c == '<' {
      assert !("&amp;" <= s) by { assert s[1] == 'l'; }
    } else if c == '>' {
      assert !("&amp;" <= s) && !("&lt;" <= s) by { assert s[1] == 'g'; }
    } else if c == '"' {
      assert !("&amp;" <= s) && !("&lt;" <= s) && !("&gt;" <= s) by { assert s[1] == 'q'; }
    } else {
      assert !("&amp;" <= s) && !("&lt;" <= s) && !("&gt;" <= s) && !("&quot;" <= s) by { assert s[1] == '#'; }
    }
  }

  /** Escaping loses nothing: the entities read back to the original text. */
  lemma {:induction false} EscapeRoundTrip(s: string)
    ensures Unescape(Escape(s)) == s
  {
    if s != [] {
      UnescapeChar(s[0], Escape(s[1..]));
      EscapeRoundTrip(s[1..]);
    }
  }

  /** Escaping is not idempotent: an ampersand is escaped again on every pass. */
  lemma EscapeTwice()
    ensures Escape(Escape("&")) == "&amp;amp;"
    ensures Escape("&") != Escape(Escape("&"))
  {
    var once := Escape("&");
    assert once == "&amp;" by {
      assert "&"[1..] == [];
    }
    assert once[0] == '&' && once[1..] == "amp;";
    EscapePlain("amp;");
  }
}
