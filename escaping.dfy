/** The HTML sanitizer `escape` and its inverse `unescape`.

    `escape` is a chain of five global replacements, `&` first so that the
    ampersands of the later entities are not escaped again. `unescape` is a
    single left-to-right pass of the global pattern
    `&(?:amp|lt|gt|quot|#(0+)?(?:39|96));`: at each position it either
    consumes one character reference or copies one character. The
    replacement of a reference is its entry in a five-entry table, and `'`
    for every matched reference the table does not list (`&#96;`,
    `&#039;`, ...). */
module Escaping {

  /** `s.replace(/c/g, with)`: every occurrence of `c` replaced by `with`. */
  function ReplaceAll(s: string, c: char, with: string): (r: string)
    ensures c !in with ==> c !in r
    ensures |with| >= 1 ==> |r| >= |s|
  {
    if s == [] then []
    else (if s[0] == c then with else [s[0]]) + ReplaceAll(s[1..], c, with)
  }

  /** The replacement chain of `escape`, without the empty-string guard. */
  function Chain(s: string): (r: string)
    ensures |r| >= |s|
  {
    ReplaceAll(ReplaceAll(ReplaceAll(ReplaceAll(ReplaceAll(
      s, '&', "&amp;"), '<', "&lt;"), '>', "&gt;"), '"', "&quot;"), '\'', "&#39;")
  }

  /** `escape(str)`; the falsy string is the empty one. */
  function Escape(s: string): (r: string)
    ensures |r| >= |s|
    ensures r == "" <==> s == ""
  {
    if s == "" then "" else Chain(s)
  }

  /** What `escape` writes for one character. */
  function EscapeChar(c: char): string
  {
    match c
    case '&' => "&amp;"
    case '<' => "&lt;"
    case '>' => "&gt;"
    case '"' => "&quot;"
    case '\'' => "&#39;"
    case _ => [c]
  }

  /** Reference definition: escaping character by character. */
  function EscapeEach(s: string): string
  {
    if s == [] then [] else EscapeChar(s[0]) + EscapeEach(s[1..])
  }

  /** The characters `escape` rewrites. */
  predicate IsSpecial(c: char)
  {
    c == '&' || c == '<' || c == '>' || c == '"' || c == '\''
  }

  /** The five references `escape` writes. */
  predicate StartsWithEntity(s: string)
  {
    "&amp;" <= s || "&lt;" <= s || "&gt;" <= s || "&quot;" <= s || "&#39;" <= s
  }

  /** The table of `unescape`. */
  const Entities: map<string, char> :=
    map["&amp;" := '&', "&lt;" := '<', "&gt;" := '>', "&quot;" := '"', "&#39;" := '\'']

  /** The number of leading '0' characters of `s`. */
  function Zeros(s: string): (n: nat)
    ensures n <= |s|
    ensures forall i :: 0 <= i < n ==> s[i] == '0'
    ensures n == |s| || s[n] != '0'
  {
    if s != [] && s[0] == '0' then 1 + Zeros(s[1..]) else 0
  }

  /** The length of the match of `&(?:amp|lt|gt|quot|#(0+)?(?:39|96));` at
      the start of `s`, or 0 when there is none. The alternatives differ in
      their first character after `&`; `0+` is greedy and the digits after it
      cannot start with '0', so no backtracking can change the result. */
  function ReferenceLength(s: string): (n: nat)
    ensures n <= |s|
    ensures n > 0 ==> s[0] == '&' && s[n - 1] == ';'
  {
    if "&amp;" <= s then 5
    else if "&lt;" <= s then 4
    else if "&gt;" <= s then 4
    else if "&quot;" <= s then 6
    else if "&#" <= s then
      var z := Zeros(s[2..]);
      var digits := s[2 + z..];
      if "39;" <= digits || "96;" <= digits then 2 + z + 3 else 0
    else 0
  }

  /** The replacement of one matched reference: `entities[entity] || "'"`. */
  function Decode(entity: string): (c: char)
    ensures IsSpecial(c)
  {
    if entity in Entities then Entities[entity] else '\''
  }

  /** The left-to-right pass of the global replacement. */
  function UnescapeAll(s: string): (r: string)
    ensures |r| <= |s|
    ensures s != [] ==> |r| >= 1
    decreases |s|
  {
    if s == [] then []
    else
      var n := ReferenceLength(s);
      if n > 0 then [Decode(s[..n])] + UnescapeAll(s[n..])
      else [s[0]] + UnescapeAll(s[1..])
  }

  /** `unescape(str)`; the falsy string is the empty one. */
  function Unescape(s: string): (r: string)
    ensures |r| <= |s|
    ensures r == "" <==> s == ""
  {
    if s == "" then "" else UnescapeAll(s)
  }

  // ---------------------------------------------------------------------
  // escape

  /** Replacing distributes over concatenation. */
  lemma {:induction false} ReplaceAllAppend(a: string, b: string, c: char, with: string)
    ensures ReplaceAll(a + b, c, with) == ReplaceAll(a, c, with) + ReplaceAll(b, c, with)
  {
    if a == [] {
      assert a + b == b;
    } else {
      var head := if a[0] == c then with else [a[0]];
      assert (a + b)[0] == a[0] && (a + b)[1..] == a[1..] + b;
      ReplaceAllAppend(a[1..], b, c, with);
      calc {
        ReplaceAll(a + b, c, with);
        head + ReplaceAll(a[1..] + b, c, with);
        head + (ReplaceAll(a[1..], c, with) + ReplaceAll(b, c, with));
        (head + ReplaceAll(a[1..], c, with)) + ReplaceAll(b, c, with);
      }
    }
  }

  /** Replacing a character that does not occur changes nothing. */
  lemma {:induction false} ReplaceAllAbsent(s: string, c: char, with: string)
    requires c !in s
    ensures ReplaceAll(s, c, with) == s
  {
    if s != [] {
      assert s == [s[0]] + s[1..];
      ReplaceAllAbsent(s[1..], c, with);
    }
  }

  lemma ChainAppend(a: string, b: string)
    ensures Chain(a + b) == Chain(a) + Chain(b)
  {
    ReplaceAllAppend(a, b, '&', "&amp;");
    var a1, b1 := ReplaceAll(a, '&', "&amp;"), ReplaceAll(b, '&', "&amp;");
    ReplaceAllAppend(a1, b1, '<', "&lt;");
    var a2, b2 := ReplaceAll(a1, '<', "&lt;"), ReplaceAll(b1, '<', "&lt;");
    ReplaceAllAppend(a2, b2, '>', "&gt;");
    var a3, b3 := ReplaceAll(a2, '>', "&gt;"), ReplaceAll(b2, '>', "&gt;");
    ReplaceAllAppend(a3, b3, '"', "&quot;");
    var a4, b4 := ReplaceAll(a3, '"', "&quot;"), ReplaceAll(b3, '"', "&quot;");
    ReplaceAllAppend(a4, b4, '\'', "&#39;");
  }

  /** Replacing in a one-character string. */
  lemma ReplaceAllOne(x: char, c: char, with: string)
    ensures ReplaceAll([x], c, with) == if x == c then with else [x]
  {
    assert [x][1..] == [];
  }

  /** The last four steps of the chain, which see the output of the first. */
  function Tail4(s: string): string
  {
    ReplaceAll(ReplaceAll(ReplaceAll(ReplaceAll(s, '<', "&lt;"), '>', "&gt;"), '"', "&quot;"), '\'', "&#39;")
  }

  /** A string with none of `<`, `>`, `"`, `'` passes the last four steps. */
  lemma Tail4Absent(s: string)
    requires '<' !in s && '>' !in s && '"' !in s && '\'' !in s
    ensures Tail4(s) == s
  {
    ReplaceAllAbsent(s, '<', "&lt;");
    ReplaceAllAbsent(s, '>', "&gt;");
    ReplaceAllAbsent(s, '"', "&quot;");
    ReplaceAllAbsent(s, '\'', "&#39;");
  }

  /** No replacement of the chain writes a character that a later step
      replaces, so on one character the chain writes exactly one entity. */
  lemma ChainChar(c: char)
    ensures Chain([c]) == EscapeChar(c)
  {
    ReplaceAllOne(c, '&', "&amp;");
    var s1 := ReplaceAll([c], '&', "&amp;");
    assert Chain([c]) == Tail4(s1);
    if c == '&' {
      assert s1 == "&amp;";
      AmpPasses();
    } else {
      assert s1 == [c];
      Tail4Char(c);
    }
  }

  /** `&amp;` passes the last four steps unchanged. */
  lemma AmpPasses()
    ensures Tail4("&amp;") == "&amp;"
  {
    Tail4Absent("&amp;");
  }

  lemma Tail4Char(c: char)
    requires c != '&'
    ensures Tail4([c]) == EscapeChar(c)
  {
    var t1 := ReplaceAll([c], '<', "&lt;");
    ReplaceAllOne(c, '<', "&lt;");
    if c == '<' {
      assert t1 == "&lt;";
      ThreeAbsent("&lt;");
    } else {
      assert t1 == [c];
      var t2 := ReplaceAll([c], '>', "&gt;");
      ReplaceAllOne(c, '>', "&gt;");
      if c == '>' {
        assert t2 == "&gt;";
        ReplaceAllAbsent("&gt;", '"', "&quot;");
        ReplaceAllAbsent("&gt;", '\'', "&#39;");
      } else {
        assert t2 == [c];
        var t3 := ReplaceAll([c], '"', "&quot;");
        ReplaceAllOne(c, '"', "&quot;");
        ReplaceAllOne(c, '\'', "&#39;");
        if c == '"' {
          assert t3 == "&quot;";
          ReplaceAllAbsent("&quot;", '\'', "&#39;");
        } else {
          assert t3 == [c];
        }
      }
    }
  }

  lemma ThreeAbsent(s: string)
    requires '>' !in s && '"' !in s && '\'' !in s
    ensures ReplaceAll(ReplaceAll(ReplaceAll(s, '>', "&gt;"), '"', "&quot;"), '\'', "&#39;") == s
  {
    ReplaceAllAbsent(s, '>', "&gt;");
    ReplaceAllAbsent(s, '"', "&quot;");
    ReplaceAllAbsent(s, '\'', "&#39;");
  }

  /** `escape` is the character-by-character rewrite. */
  lemma {:induction false} EscapeIsPerChar(s: string)
    ensures Escape(s) == EscapeEach(s)
  {
    if s != [] {
      ChainPerChar(s);
    }
  }

  lemma {:induction false} ChainPerChar(s: string)
    ensures Chain(s) == EscapeEach(s)
  {
    if s != [] {
      assert s == [s[0]] + s[1..];
      ChainAppend([s[0]], s[1..]);
      ChainChar(s[0]);
      ChainPerChar(s[1..]);
    }
  }

  /** The characters `escape` never lets through. */
  predicate IsRaw(c: char)
  {
    c == '<' || c == '>' || c == '"' || c == '\''
  }

  /** `r` holds no raw character, and every `&` in it begins a reference. */
  ghost predicate IsEscaped(r: string)
  {
    forall i :: 0 <= i < |r| ==> !IsRaw(r[i]) && (r[i] == '&' ==> StartsWithEntity(r[i..]))
  }

  /** One written character: no raw character, and an `&` only in front. */
  lemma EscapeCharShape(c: char)
    ensures var e := EscapeChar(c);
      && |e| >= 1
      && '<' !in e && '>' !in e && '"' !in e && '\'' !in e
      && (forall i :: 0 < i < |e| ==> e[i] != '&')
      && (e[0] == '&' ==> StartsWithEntity(e))
  {
  }

  /** A prefix that starts with a reference makes its extension start with it. */
  lemma EntityExtends(e: string, r: string)
    requires StartsWithEntity(e) && e <= r
    ensures StartsWithEntity(r)
  {
    if "&amp;" <= e { PrefixOfPrefix("&amp;", e, r); }
    if "&lt;" <= e { PrefixOfPrefix("&lt;", e, r); }
    if "&gt;" <= e { PrefixOfPrefix("&gt;", e, r); }
    if "&quot;" <= e { PrefixOfPrefix("&quot;", e, r); }
    if "&#39;" <= e { PrefixOfPrefix("&#39;", e, r); }
  }

  lemma PrefixOfPrefix(p: string, e: string, r: string)
    requires p <= e && e <= r
    ensures p <= r
  {
    assert r[..|p|] == e[..|p|];
  }

  /** The output of `escape` holds no raw `<`, `>`, `"` or `'`, and every
      `&` in it begins one of the five references it writes. */
  lemma EscapeIsSafe(s: string)
    ensures IsEscaped(Escape(s))
  {
    EscapeIsPerChar(s);
    EscapeEachIsSafe(s);
  }

  lemma {:induction false} EscapeEachIsSafe(s: string)
    ensures IsEscaped(EscapeEach(s))
  {
    if s != [] {
      EscapeEachIsSafe(s[1..]);
      var head, tail := EscapeChar(s[0]), EscapeEach(s[1..]);
      var r := head + tail;
      EscapeCharShape(s[0]);
      forall i | 0 <= i < |r|
        ensures !IsRaw(r[i]) && (r[i] == '&' ==> StartsWithEntity(r[i..]))
      {
        if i < |head| {
          assert r[i] == head[i] && head[i] in head;
          if r[i] == '&' {
            assert i == 0;
            assert r[i..] == r && r[..|head|] == head;
            EntityExtends(head, r);
          }
        } else {
          assert r[i] == tail[i - |head|];
          assert r[i..] == tail[i - |head|..];
        }
      }
    }
  }

  /** `escape` leaves a string unchanged exactly when it holds none of the
      five characters it rewrites. */
  lemma EscapeFixesOnlyPlainText(s: string)
    ensures Escape(s) == s <==> forall i :: 0 <= i < |s| ==> !IsSpecial(s[i])
  {
    EscapeIsPerChar(s);
    EscapeEachFixes(s);
  }

  lemma {:induction false} EscapeEachFixes(s: string)
    ensures EscapeEach(s) == s <==> forall i :: 0 <= i < |s| ==> !IsSpecial(s[i])
  {
    EscapeEachLength(s);
    if s != [] {
      EscapeEachFixes(s[1..]);
      EscapeEachLength(s[1..]);
      var head := EscapeChar(s[0]);
      if IsSpecial(s[0]) {
        assert |head| > 1;
        // a special character lengthens the output beyond |s|
        assert |EscapeEach(s)| > |s|;
      } else {
        assert head == [s[0]];
        assert s == [s[0]] + s[1..];
        if EscapeEach(s) == s {
          assert EscapeEach(s[1..]) == s[1..];
        }
        if forall i :: 0 <= i < |s| ==> !IsSpecial(s[i]) {
          assert forall i :: 0 <= i < |s[1..]| ==> !IsSpecial(s[1..][i]) by {
            forall i | 0 <= i < |s[1..]| ensures !IsSpecial(s[1..][i]) { assert s[1..][i] == s[i + 1]; }
          }
        }
      }
    }
  }

  /** Escaping never shortens a string. */
  lemma {:induction false} EscapeEachLength(s: string)
    ensures |EscapeEach(s)| >= |s|
  {
    if s != [] {
      EscapeEachLength(s[1..]);
    }
  }

  // ---------------------------------------------------------------------
  // unescape

  /** `p` is not a prefix of `s` when they differ at a position of both. */
  lemma DiffersAt(p: string, s: string, i: nat)
    requires i < |p| && i < |s| && p[i] != s[i]
    ensures !(p <= s)
  {
  }

  /** A reference written by `escape` and followed by anything is matched
      as a whole at the start. */
  lemma ReferenceOfEscaped(c: char, rest: string)
    requires IsSpecial(c)
    ensures ReferenceLength(EscapeChar(c) + rest) == |EscapeChar(c)|
  {
    var e := EscapeChar(c);
    var s := e + rest;
    assert s[..|e|] == e;
    assert e <= s;
    if c != '&' {
      DiffersAt("&amp;", s, 1);
      if c != '<' {
        DiffersAt("&lt;", s, 1);
        if c != '>' {
          DiffersAt("&gt;", s, 1);
          if c != '"' {
            DiffersAt("&quot;", s, 1);
            assert s[..2] == "&#";
            assert s[2..] == "39;" + rest;
            assert "39;" <= s[2..];
          }
        }
      }
    }
  }

  /** One written character followed by anything unescapes to that
      character followed by the unescaping of the rest. */
  lemma UnescapeEscapedChar(c: char, rest: string)
    ensures UnescapeAll(EscapeChar(c) + rest) == [c] + UnescapeAll(rest)
  {
    var e := EscapeChar(c);
    var s := e + rest;
    assert s[..|e|] == e;
    assert s[|e|..] == rest;
    if IsSpecial(c) {
      ReferenceOfEscaped(c, rest);
      assert Decode(e) == c;
    } else {
      assert s[0] == c;
      assert ReferenceLength(s) == 0;
      assert s[1..] == rest;
    }
  }

  /** `unescape(escape(s)) == s`. */
  lemma UnescapeEscape(s: string)
    ensures Unescape(Escape(s)) == s
  {
    EscapeIsPerChar(s);
    UnescapeAllEscapeEach(s);
    if s != [] {
      assert |EscapeChar(s[0])| > 0;
    }
  }

  lemma {:induction false} UnescapeAllEscapeEach(s: string)
    ensures UnescapeAll(EscapeEach(s)) == s
  {
    if s != [] {
      UnescapeEscapedChar(s[0], EscapeEach(s[1..]));
      UnescapeAllEscapeEach(s[1..]);
    }
  }

  /** Text without `&` is left as it is by `unescape`. */
  lemma UnescapePlainText(s: string)
    requires '&' !in s
    ensures Unescape(s) == s
  {
    UnescapeAllPlainText(s);
  }

  lemma {:induction false} UnescapeAllPlainText(s: string)
    requires '&' !in s
    ensures UnescapeAll(s) == s
  {
    if s != [] {
      assert s[0] in s;
      assert ReferenceLength(s) == 0;
      assert s == [s[0]] + s[1..];
      assert '&' !in s[1..];
      UnescapeAllPlainText(s[1..]);
    }
  }

  /** `&#96;` (a grave accent in HTML) comes back as `'`. */
  lemma UnescapeGraveAccent()
    ensures Unescape("&#96;") == "'"
  {
    var g := "&#96;";
    DiffersAt("&amp;", g, 1);
    DiffersAt("&lt;", g, 1);
    DiffersAt("&gt;", g, 1);
    DiffersAt("&quot;", g, 1);
    assert g[2..] == "96;";
    assert ReferenceLength(g) == 5;
    assert g[..5] == g && g[5..] == [];
  }

  /** `&#039;` comes back as `'`: it is matched, but is not in the table. */
  lemma UnescapeZeroPadded()
    ensures Unescape("&#039;") == "'"
  {
    var z := "&#039;";
    DiffersAt("&amp;", z, 1);
    DiffersAt("&lt;", z, 1);
    DiffersAt("&gt;", z, 1);
    DiffersAt("&quot;", z, 1);
    assert z[2..] == "039;";
    assert Zeros("039;") == 1 by { assert "039;"[1..] == "39;"; }
    assert z[3..] == "39;";
    assert ReferenceLength(z) == 6;
    assert z[..6] == z && z[6..] == [];
    assert z !in Entities;
  }

  /** A single pass: `&amp;lt;` becomes `&lt;`, not `<`. */
  lemma UnescapeSinglePass()
    ensures Unescape("&amp;lt;") == "&lt;"
  {
    var a := "&amp;lt;";
    assert a[..5] == "&amp;";
    assert ReferenceLength(a) == 5;
    assert a[5..] == "lt;";
    UnescapeAllPlainText("lt;");
  }
}
