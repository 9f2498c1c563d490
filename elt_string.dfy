/** `_parseEltString`: splits an element description `tag#id.cls1.cls2` into
    its tag name, id and classes.

    The source matches `([0-9a-zA-Z\-]*)?(#[0-9a-zA-Z\-]*)?((.[0-9a-zA-Z\-]+)*)`
    once, unanchored. Every part of the pattern may match the empty string, so
    the match starts at index 0, and as nothing follows the last group, the
    first choice of each greedy quantifier already succeeds: no backtracking
    happens. The model therefore scans deterministically: the longest run of
    word characters, then `#` and the longest run of word characters if the
    next character is `#`, then as often as possible one character that is
    not a line terminator followed by the longest (non-empty) run of word
    characters. Whatever follows is ignored. The three groups are then
    trimmed, `#` is removed from the id, the class group is split on `.`
    and blank pieces are dropped; an empty part becomes `undefined`. */
module EltString {
  import opened Values

  /** `[0-9a-zA-Z\-]`. */
  predicate IsWordChar(c: char)
  {
    ('0' <= c <= '9') || ('a' <= c <= 'z') || ('A' <= c <= 'Z') || c == '-'
  }

  /** The characters the regular expression `.` does not match. */
  predicate IsLineTerminator(c: char)
  {
    c == '\n' || c == '\r' || c == '\U{2028}' || c == '\U{2029}'
  }

  /** The characters `String.prototype.trim` strips: white space (tab,
      vertical tab, form feed, the space separators and the byte order mark)
      and line terminators. */
  predicate IsWhiteSpace(c: char)
  {
    || c == '\t' || c == '\U{000B}' || c == '\U{000C}' || c == ' ' || c == '\U{00A0}'
    || c == '\U{FEFF}' || c == '\U{1680}' || ('\U{2000}' <= c <= '\U{200A}')
    || c == '\U{202F}' || c == '\U{205F}' || c == '\U{3000}'
    || IsLineTerminator(c)
  }

  /** Every character of `s` is a word character. */
  predicate IsWord(s: string)
  {
    forall i :: 0 <= i < |s| ==> IsWordChar(s[i])
  }

  /** The length of the longest prefix of word characters (`[...]*` greedy). */
  function WordLength(s: string): (n: nat)
    ensures n <= |s|
  {
    if s != [] && IsWordChar(s[0]) then 1 + WordLength(s[1..]) else 0
  }

  /** `WordLength` is the longest word prefix: everything it takes is a word
      character, and the character after it is not. */
  lemma {:induction false} WordLengthLongest(s: string)
    ensures var n := WordLength(s);
      IsWord(s[..n]) && (n == |s| || !IsWordChar(s[n]))
  {
    if s != [] && IsWordChar(s[0]) {
      WordLengthLongest(s[1..]);
      var n := WordLength(s);
      assert s[..n] == [s[0]] + s[1..][..n - 1];
    }
  }

  /** The length of the greedy match of `(.[0-9a-zA-Z\-]+)*` at the start of
      `s`: an iteration takes one character that is not a line terminator and
      then the longest run of word characters, and needs that run non-empty. */
  function ClassRunLength(s: string): (n: nat)
    ensures n <= |s|
    decreases |s|
  {
    if |s| >= 2 && !IsLineTerminator(s[0]) && WordLength(s[1..]) > 0 then
      var m := 1 + WordLength(s[1..]);
      m + ClassRunLength(s[m..])
    else 0
  }

  /** The three capture groups; a group that took part in no match is the
      empty string here, which the source treats alike (both are falsy). */
  datatype Groups = Groups(tag: string, id: string, classes: string)

  /** The length of the match of `(#[0-9a-zA-Z\-]*)?` at the start of `s`:
      `#` and the longest run of word characters, or nothing. */
  function IdLength(s: string): (n: nat)
    ensures n <= |s|
    ensures n > 0 ==> s[0] == '#'
  {
    if s != [] && s[0] == '#' then 1 + WordLength(s[1..]) else 0
  }

  /** The match of the pattern at index 0 of `s`. */
  function Match(s: string): (g: Groups)
    ensures g.tag + g.id + g.classes <= s
  {
    var t := WordLength(s);
    var afterTag := s[t..];
    var h := IdLength(afterTag);
    var afterId := afterTag[h..];
    var c := ClassRunLength(afterId);
    assert s[..t] + afterTag[..h] + afterId[..c] == s[..t + h + c];
    Groups(s[..t], afterTag[..h], afterId[..c])
  }

  /** `s` without its leading white space. */
  function TrimStart(s: string): (r: string)
    ensures |r| <= |s|
  {
    if s != [] && IsWhiteSpace(s[0]) then TrimStart(s[1..]) else s
  }

  /** `s` without its trailing white space. */
  function TrimEnd(s: string): (r: string)
    ensures |r| <= |s|
  {
    if s != [] && IsWhiteSpace(s[|s| - 1]) then TrimEnd(s[..|s| - 1]) else s
  }

  /** `String.prototype.trim`. */
  function Trim(s: string): (r: string)
    ensures |r| <= |s|
  {
    TrimEnd(TrimStart(s))
  }

  /** The global replacement of `#*` by the empty string: every `#` removed. */
  function RemoveHashes(s: string): (r: string)
    ensures '#' !in r && |r| <= |s|
  {
    if s == [] then []
    else (if s[0] == '#' then [] else [s[0]]) + RemoveHashes(s[1..])
  }

  /** `s.split(sep)` for a one-character separator: the pieces between the
      separators, so always at least one piece. */
  function Split(s: string, sep: char): (pieces: seq<string>)
    ensures |pieces| >= 1
  {
    if s == [] then [[]]
    else
      var rest := Split(s[1..], sep);
      if s[0] == sep then [[]] + rest
      else [[s[0]] + rest[0]] + rest[1..]
  }

  /** `pieces.join(sep)`, the inverse of `Split`. */
  function Join(pieces: seq<string>, sep: char): string
    requires |pieces| >= 1
  {
    if |pieces| == 1 then pieces[0] else pieces[0] + [sep] + Join(pieces[1..], sep)
  }

  /** `pieces.filter((elem) => elem.trim())`: blank pieces dropped. */
  function DropBlank(pieces: seq<string>): (kept: seq<string>)
    ensures |kept| <= |pieces|
  {
    if pieces == [] then []
    else (if Trim(pieces[0]) != "" then [pieces[0]] else []) + DropBlank(pieces[1..])
  }

  /** The parsed description; `None` is `undefined`. */
  datatype EltInfo = EltInfo(tag: Option<string>, id: Option<string>, classes: Option<seq<string>>)

  /** `_parseEltString(str)`. An empty or missing string yields no part. */
  function ParseEltString(str: Option<string>): (info: EltInfo)
    ensures info.tag.Some? ==> info.tag.value != ""
    ensures info.id.Some? ==> info.id.value != ""
  {
    if str.None? || str.value == "" then EltInfo(None, None, None)
    else
      var g := Match(str.value);
      var tag := Trim(g.tag);
      var id := if Trim(g.id) != "" then RemoveHashes(Trim(g.id)) else "";
      var classes := Trim(g.classes);
      EltInfo(
        if tag == "" then None else Some(tag),
        if id == "" then None else Some(id),
        if classes == "" then None else Some(DropBlank(Split(classes, '.'))))
  }

  // ---------------------------------------------------------------------
  // split and join

  /** `Split` and `Join` are inverse: the pieces joined back give `s`, and
      no piece contains the separator. */
  lemma {:induction false} SplitJoin(s: string, sep: char)
    ensures Join(Split(s, sep), sep) == s
    ensures forall i :: 0 <= i < |Split(s, sep)| ==> sep !in Split(s, sep)[i]
  {
    if s != [] {
      SplitJoin(s[1..], sep);
      var rest := Split(s[1..], sep);
      var pieces := Split(s, sep);
      if s[0] == sep {
        assert pieces[1..] == rest;
        assert s == [sep] + s[1..];
      } else {
        assert pieces[1..] == rest[1..];
        assert s == [s[0]] + s[1..];
        if |rest| > 1 {
          assert Join(rest, sep) == rest[0] + [sep] + Join(rest[1..], sep);
        }
        forall i | 0 <= i < |pieces| ensures sep !in pieces[i] {
          if i > 0 {
            assert pieces[i] == rest[i];
          }
        }
      }
    }
  }

  /** A separator-free start glues onto the first piece of the rest. */
  lemma {:induction false} SplitPrefix(w: string, t: string, sep: char)
    requires sep !in w
    ensures Split(w + t, sep) == [w + Split(t, sep)[0]] + Split(t, sep)[1..]
  {
    if w == [] {
      var pieces := Split(t, sep);
      assert w + t == t && w + pieces[0] == pieces[0];
      assert [pieces[0]] + pieces[1..] == pieces;
    } else {
      assert (w + t)[0] == w[0] && (w + t)[1..] == w[1..] + t;
      SplitPrefix(w[1..], t, sep);
      assert [w[0]] + (w[1..] + Split(t, sep)[0]) == w + Split(t, sep)[0];
    }
  }

  /** The pieces `DropBlank` keeps are pieces that are not blank. */
  lemma {:induction false} DropBlankKeeps(pieces: seq<string>)
    ensures forall x :: x in DropBlank(pieces) ==> x in pieces && Trim(x) != ""
  {
    if pieces != [] {
      DropBlankKeeps(pieces[1..]);
    }
  }

  // ---------------------------------------------------------------------
  // trimming

  /** `TrimStart` drops a prefix of white space and stops at the first
      character that is not white space. */
  lemma {:induction false} TrimStartSpec(s: string)
    ensures var r := TrimStart(s); var a := |s| - |r|;
      && r == s[a..]
      && (forall i :: 0 <= i < a ==> IsWhiteSpace(s[i]))
      && (r == [] || !IsWhiteSpace(r[0]))
  {
    if s != [] && IsWhiteSpace(s[0]) {
      TrimStartSpec(s[1..]);
      var a := |s| - |TrimStart(s)|;
      forall i | 0 <= i < a ensures IsWhiteSpace(s[i]) {
        if i > 0 { assert s[i] == s[1..][i - 1]; }
      }
    }
  }

  /** `TrimEnd` drops a suffix of white space and stops at the last
      character that is not white space. */
  lemma {:induction false} TrimEndSpec(s: string)
    ensures var r := TrimEnd(s);
      && r == s[..|r|]
      && (forall i :: |r| <= i < |s| ==> IsWhiteSpace(s[i]))
      && (r == [] || !IsWhiteSpace(r[|r| - 1]))
  {
    if s != [] && IsWhiteSpace(s[|s| - 1]) {
      var t := s[..|s| - 1];
      TrimEndSpec(t);
      var r := TrimEnd(s);
      assert r == t[..|r|];
      forall i | |r| <= i < |s| ensures IsWhiteSpace(s[i]) {
        if i < |s| - 1 { assert s[i] == t[i]; }
      }
    }
  }

  /** `String.prototype.trim` keeps the block `s[a..a + |r|]` and drops only
      white space before and after it; the kept block neither starts nor
      ends with white space. */
  lemma TrimSpec(s: string)
    ensures var r := Trim(s); var a := |s| - |TrimStart(s)|;
      && a + |r| <= |s|
      && r == s[a..a + |r|]
      && (forall i :: 0 <= i < a ==> IsWhiteSpace(s[i]))
      && (forall i :: a + |r| <= i < |s| ==> IsWhiteSpace(s[i]))
      && (r == [] || (!IsWhiteSpace(r[0]) && !IsWhiteSpace(r[|r| - 1])))
  {
    var u := TrimStart(s);
    var a := |s| - |u|;
    TrimStartSpec(s);
    TrimEndSpec(u);
    var r := Trim(s);
    assert r == u[..|r|];
    assert u[..|r|] == s[a..a + |r|];
    forall i | a + |r| <= i < |s| ensures IsWhiteSpace(s[i]) {
      assert s[i] == u[i - a];
    }
    if r != [] {
      assert r[0] == u[0];
    }
  }

  /** A string that neither starts nor ends with white space is its own trim. */
  lemma TrimUntouched(s: string)
    requires s == [] || (!IsWhiteSpace(s[0]) && !IsWhiteSpace(s[|s| - 1]))
    ensures Trim(s) == s
  {
  }

  /** Word characters are not white space. */
  lemma WordCharNotSpace(c: char)
    requires IsWordChar(c)
    ensures !IsWhiteSpace(c) && !IsLineTerminator(c) && c != '#' && c != '.'
  {
  }

  /** A word is its own trim. */
  lemma WordTrim(w: string)
    requires IsWord(w)
    ensures Trim(w) == w
  {
    if w != [] {
      WordCharNotSpace(w[0]);
      WordCharNotSpace(w[|w| - 1]);
      TrimUntouched(w);
    }
  }

  /** The tail of a word is a word. */
  lemma WordTail(w: string)
    requires IsWord(w) && w != []
    ensures IsWordChar(w[0]) && IsWord(w[1..])
  {
    forall i | 0 <= i < |w[1..]| ensures IsWordChar(w[1..][i]) {
      assert w[1..][i] == w[i + 1];
    }
  }

  /** Removing `#` from a word changes nothing. */
  lemma {:induction false} RemoveHashesWord(w: string)
    requires IsWord(w)
    ensures RemoveHashes(w) == w
  {
    if w != [] {
      WordTail(w);
      WordCharNotSpace(w[0]);
      RemoveHashesWord(w[1..]);
      assert w == [w[0]] + w[1..];
    }
  }

  /** An id group `#w` trims to itself and loses exactly its `#`. */
  lemma IdGroup(w: string)
    requires IsWord(w)
    ensures Trim("#" + w) == "#" + w
    ensures RemoveHashes("#" + w) == w
  {
    var g := "#" + w;
    if w != [] {
      WordCharNotSpace(w[|w| - 1]);
      assert g[|g| - 1] == w[|w| - 1];
    }
    TrimUntouched(g);
    assert g[1..] == w;
    RemoveHashesWord(w);
  }

  // ---------------------------------------------------------------------
  // what the parser returns

  /** The tag group is a word, and the id group is empty or `#` and a word. */
  lemma MatchShape(s: string)
    ensures IsWord(Match(s).tag)
    ensures var id := Match(s).id; id == [] || (id[0] == '#' && IsWord(id[1..]))
  {
    var t := WordLength(s);
    WordLengthLongest(s);
    var afterTag := s[t..];
    if afterTag != [] && afterTag[0] == '#' {
      var n := WordLength(afterTag[1..]);
      WordLengthLongest(afterTag[1..]);
      assert afterTag[..1 + n][1..] == afterTag[1..][..n];
    }
  }

  /** What becomes of an id group: no id, or a non-empty word. */
  lemma IdOfGroup(g: string)
    requires g == [] || (g[0] == '#' && IsWord(g[1..]))
    ensures var id := if Trim(g) != "" then RemoveHashes(Trim(g)) else ""; IsWord(id)
  {
    if g != [] {
      assert g == "#" + g[1..];
      IdGroup(g[1..]);
    }
  }

  /** What becomes of the class group: pieces without `.` that are not blank. */
  lemma ClassesOfGroup(classes: string)
    ensures forall c :: c in DropBlank(Split(classes, '.')) ==> Trim(c) != "" && '.' !in c
  {
    var pieces := Split(classes, '.');
    SplitJoin(classes, '.');
    DropBlankKeeps(pieces);
  }

  /** The parts the parser returns: a tag and an id are non-empty runs of
      word characters, and every class is a non-blank piece without `.`. */
  lemma ParsedParts(str: Option<string>)
    ensures var info := ParseEltString(str);
      && (info.tag.Some? ==> info.tag.value != "" && IsWord(info.tag.value))
      && (info.id.Some? ==> info.id.value != "" && IsWord(info.id.value))
      && (info.classes.Some? ==> forall c :: c in info.classes.value ==> Trim(c) != "" && '.' !in c)
  {
    if str.Some? && str.value != "" {
      var g := Match(str.value);
      MatchShape(str.value);
      WordTrim(g.tag);
      IdOfGroup(g.id);
      ClassesOfGroup(Trim(g.classes));
    }
  }

  /** Trimming keeps every character that is not white space. */
  lemma {:induction false} TrimKeeps(x: string, c: char)
    requires c in x && !IsWhiteSpace(c)
    ensures c in Trim(x)
  {
    TrimStartKeeps(x, c);
    TrimEndKeeps(TrimStart(x), c);
  }

  lemma {:induction false} TrimStartKeeps(x: string, c: char)
    requires c in x && !IsWhiteSpace(c)
    ensures c in TrimStart(x)
  {
    if IsWhiteSpace(x[0]) {
      assert x == [x[0]] + x[1..];
      TrimStartKeeps(x[1..], c);
    }
  }

  lemma {:induction false} TrimEndKeeps(x: string, c: char)
    requires c in x && !IsWhiteSpace(c)
    ensures c in TrimEnd(x)
  {
    if IsWhiteSpace(x[|x| - 1]) {
      assert x == x[..|x| - 1] + [x[|x| - 1]];
      TrimEndKeeps(x[..|x| - 1], c);
    }
  }

  /** A character other than the separator ends up in one of the pieces. */
  lemma {:induction false} SplitCovers(s: string, sep: char, c: char)
    requires c in s && c != sep
    ensures exists i :: 0 <= i < |Split(s, sep)| && c in Split(s, sep)[i]
  {
    var pieces := Split(s, sep);
    if s[0] == c {
      assert c in pieces[0];
    } else {
      assert c in s[1..] by {
        assert s == [s[0]] + s[1..];
      }
      SplitCovers(s[1..], sep, c);
      var rest := Split(s[1..], sep);
      var i :| 0 <= i < |rest| && c in rest[i];
      if s[0] == sep {
        assert pieces[i + 1] == rest[i];
      } else if i == 0 {
        assert pieces[0] == [s[0]] + rest[0];
      } else {
        assert pieces[i] == rest[i];
      }
    }
  }

  /** A piece that is not blank survives `DropBlank`. */
  lemma {:induction false} DropBlankNonEmpty(pieces: seq<string>, i: nat)
    requires i < |pieces| && Trim(pieces[i]) != ""
    ensures DropBlank(pieces) != []
  {
    if i > 0 {
      DropBlankNonEmpty(pieces[1..], i - 1);
    }
  }

  /** One iteration of the class pattern takes a word character second. */
  lemma ClassRunWord(s: string)
    requires ClassRunLength(s) > 0
    ensures |s| >= 2 && IsWordChar(s[1])
  {
    assert IsWordChar(s[1..][0]);
  }

  /** A class list that the parser returns is never empty: the class group
      holds a word character, which survives trimming, splitting and the
      dropping of blank pieces. */
  lemma ParsedClassesNonEmpty(str: Option<string>)
    ensures ParseEltString(str).classes.Some? ==> |ParseEltString(str).classes.value| >= 1
  {
    if str.Some? && str.value != "" {
      var g := Match(str.value);
      var classes := Trim(g.classes);
      if classes != "" {
        var s := str.value;
        var afterTag := s[WordLength(s)..];
        var afterId := afterTag[IdLength(afterTag)..];
        assert g.classes == afterId[..ClassRunLength(afterId)];
        assert ClassRunLength(afterId) > 0;
        ClassRunWord(afterId);
        var c := g.classes[1];
        WordCharNotSpace(c);
        TrimKeeps(g.classes, c);
        SplitCovers(classes, '.', c);
        var pieces := Split(classes, '.');
        var i :| 0 <= i < |pieces| && c in pieces[i];
        TrimKeeps(pieces[i], c);
        DropBlankNonEmpty(pieces, i);
      }
    }
  }

  /** A missing or empty description has no part. */
  lemma ParseEmpty(str: Option<string>)
    requires str.None? || str.value == ""
    ensures ParseEltString(str) == EltInfo(None, None, None)
  {
  }

  // ---------------------------------------------------------------------
  // the documented format `tagName#id.class1.class2`

  /** `.c1.c2...` for the classes `cs`. */
  function Dotted(cs: seq<string>): string
  {
    if cs == [] then "" else "." + cs[0] + Dotted(cs[1..])
  }

  /** The description string of `info` in the documented format. */
  function Render(info: EltInfo): string
  {
    var tag := if info.tag.Some? then info.tag.value else "";
    var id := if info.id.Some? then "#" + info.id.value else "";
    var classes := if info.classes.Some? then Dotted(info.classes.value) else "";
    tag + (id + classes)
  }

  /** Every element of `cs` is a non-empty word. */
  ghost predicate AllWords(cs: seq<string>)
  {
    forall i :: 0 <= i < |cs| ==> cs[i] != "" && IsWord(cs[i])
  }

  /** Tag, id and every class are non-empty runs of word characters, and a
      class list that is present is not empty. */
  ghost predicate WellFormed(info: EltInfo)
  {
    && (info.tag.Some? ==> info.tag.value != "" && IsWord(info.tag.value))
    && (info.id.Some? ==> info.id.value != "" && IsWord(info.id.value))
    && (info.classes.Some? ==> |info.classes.value| >= 1 && AllWords(info.classes.value))
  }

  /** The longest word prefix of a word followed by a non-word character. */
  lemma {:induction false} WordLengthOfWord(w: string, rest: string)
    requires IsWord(w)
    requires rest == [] || !IsWordChar(rest[0])
    ensures WordLength(w + rest) == |w|
  {
    if w != [] {
      assert (w + rest)[0] == w[0] && (w + rest)[1..] == w[1..] + rest;
      WordTail(w);
      WordLengthOfWord(w[1..], rest);
    } else {
      assert w + rest == rest;
    }
  }

  /** `.c1.c2...` starts with `.` and ends with a word character. */
  lemma {:induction false} DottedEnds(cs: seq<string>)
    requires |cs| >= 1 && AllWords(cs)
    ensures var d := Dotted(cs); |d| >= 2 && d[0] == '.' && IsWordChar(d[|d| - 1])
  {
    if |cs| == 1 {
      assert Dotted(cs) == "." + cs[0] + "";
    } else {
      DottedEnds(cs[1..]);
    }
  }

  /** Classes of words as one run: `(.[...]+)*` matches all of `.c1.c2...`. */
  lemma {:induction false} ClassRunOfDotted(cs: seq<string>)
    requires AllWords(cs)
    ensures ClassRunLength(Dotted(cs)) == |Dotted(cs)|
  {
    if cs != [] {
      var d, c, more := Dotted(cs), cs[0], Dotted(cs[1..]);
      assert d == "." + (c + more);
      if cs[1..] != [] {
        DottedEnds(cs[1..]);
      }
      WordLengthOfWord(c, more);
      assert d[1..] == c + more;
      assert d[1 + |c|..] == more;
      ClassRunOfDotted(cs[1..]);
    }
  }

  /** Splitting `.c1.c2...` at `.` gives an empty piece, then the classes. */
  lemma {:induction false} SplitDotted(cs: seq<string>)
    requires |cs| >= 1 && AllWords(cs)
    ensures Split(Dotted(cs), '.') == [""] + cs
  {
    var d, c, more := Dotted(cs), cs[0], Dotted(cs[1..]);
    assert d == "." + (c + more) && d[1..] == c + more;
    assert '.' !in c;
    SplitPrefix(c, more, '.');
    if |cs| == 1 {
      assert more == [];
      assert c + [] == c;
    } else {
      SplitDotted(cs[1..]);
      assert c + "" == c;
      assert cs == [c] + cs[1..];
    }
  }

  /** Dropping blank pieces from non-empty words keeps them all. */
  lemma {:induction false} DropBlankOfWords(cs: seq<string>)
    requires AllWords(cs)
    ensures DropBlank(cs) == cs
  {
    if cs != [] {
      WordTrim(cs[0]);
      DropBlankOfWords(cs[1..]);
      assert cs == [cs[0]] + cs[1..];
    }
  }

  /** The class group `.c1.c2...` trims to itself and yields the classes. */
  lemma ClassGroup(cs: seq<string>)
    requires |cs| >= 1 && AllWords(cs)
    ensures Trim(Dotted(cs)) == Dotted(cs)
    ensures DropBlank(Split(Dotted(cs), '.')) == cs
  {
    var d := Dotted(cs);
    DottedEnds(cs);
    WordCharNotSpace(d[|d| - 1]);
    TrimUntouched(d);
    SplitDotted(cs);
    assert ([""] + cs)[1..] == cs;
    DropBlankOfWords(cs);
  }

  /** The tag group of `tag + rest` is `tag` when `rest` starts with `#` or `.`. */
  lemma TagPart(tag: string, rest: string)
    requires IsWord(tag)
    requires rest == [] || rest[0] == '#' || rest[0] == '.'
    ensures WordLength(tag + rest) == |tag|
  {
    WordLengthOfWord(tag, rest);
  }

  /** The id group of `id + cls` is `id` when `cls` starts with `.`. */
  lemma IdPart(id: string, cls: string)
    requires id == [] || (id[0] == '#' && IsWord(id[1..]))
    requires cls == [] || cls[0] == '.'
    ensures IdLength(id + cls) == |id|
  {
    var a := id + cls;
    if id != [] {
      assert a[0] == '#' && a[1..] == id[1..] + cls;
      WordLengthOfWord(id[1..], cls);
    } else {
      assert a == cls;
    }
  }

  /** The match of three parts laid end to end, when each group stops where
      its part ends. */
  lemma MatchParts(tag: string, id: string, cls: string)
    requires WordLength(tag + (id + cls)) == |tag|
    requires IdLength(id + cls) == |id|
    requires ClassRunLength(cls) == |cls|
    ensures Match(tag + (id + cls)) == Groups(tag, id, cls)
  {
    var s := tag + (id + cls);
    assert s[..|tag|] == tag && s[|tag|..] == id + cls;
    var a := id + cls;
    assert a[..|id|] == id && a[|id|..] == cls;
    assert cls[..|cls|] == cls;
  }

  /** The tag the parser returns for a tag group that is a word. */
  lemma ParsedTag(s: string, tag: Option<string>)
    requires s != ""
    requires tag.Some? ==> tag.value != "" && IsWord(tag.value)
    requires Match(s).tag == if tag.Some? then tag.value else ""
    ensures ParseEltString(Some(s)).tag == tag
  {
    if tag.Some? {
      WordTrim(tag.value);
    }
  }

  /** The id the parser returns for an id group `#w`, or for none. */
  lemma ParsedId(s: string, id: Option<string>)
    requires s != ""
    requires id.Some? ==> id.value != "" && IsWord(id.value)
    requires Match(s).id == if id.Some? then "#" + id.value else ""
    ensures ParseEltString(Some(s)).id == id
  {
    if id.Some? {
      IdGroup(id.value);
    }
  }

  /** The classes the parser returns for a class group `.c1.c2...`, or for none. */
  lemma ParsedClasses(s: string, classes: Option<seq<string>>)
    requires s != ""
    requires classes.Some? ==> |classes.value| >= 1 && AllWords(classes.value)
    requires Match(s).classes == if classes.Some? then Dotted(classes.value) else ""
    ensures ParseEltString(Some(s)).classes == classes
  {
    if classes.Some? {
      ClassGroup(classes.value);
      DottedEnds(classes.value);
    }
  }

  /** Parsing a well-formed description in the documented format gives back
      its tag, id and classes; absent parts come back absent. */
  lemma ParseRendered(info: EltInfo)
    requires WellFormed(info)
    ensures ParseEltString(Some(Render(info))) == info
  {
    var tag := if info.tag.Some? then info.tag.value else "";
    var id := if info.id.Some? then "#" + info.id.value else "";
    var cls := if info.classes.Some? then Dotted(info.classes.value) else "";
    var s := Render(info);
    if s == "" {
      assert tag == "" && id == "" && cls == "";
    } else {
      assert Match(s) == Groups(tag, id, cls) by {
        if info.id.Some? {
          assert id[1..] == info.id.value;
        }
        if info.classes.Some? {
          DottedEnds(info.classes.value);
          ClassRunOfDotted(info.classes.value);
        }
        TagPart(tag, id + cls);
        IdPart(id, cls);
        MatchParts(tag, id, cls);
      }
      ParsedTag(s, info.tag);
      ParsedId(s, info.id);
      ParsedClasses(s, info.classes);
    }
  }
}
