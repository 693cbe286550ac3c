/**
 * The parts of Python's `str` behaviour the pipeline relies on: `isspace`,
 * `strip()`, `file.readline()` in text mode, `split(",")`, `",".join(...)`,
 * `title()` and `capitalize()`. Letter case is modelled over ASCII letters;
 * every other character is uncased and left as it is.
 */
module PyStr {

  // ---------------------------------------------------------------------------
  // Whitespace and strip()
  // ---------------------------------------------------------------------------

  /** Python's `str.isspace` for one character: the characters `strip()` removes. */
  predicate IsSpace(c: char) {
    || c == ' '
    || ('\t' <= c <= '\r')
    || ('\U{1C}' <= c <= '\U{1F}')
    || c == '\U{85}' || c == '\U{A0}' || c == '\U{1680}'
    || ('\U{2000}' <= c <= '\U{200A}')
    || c == '\U{2028}' || c == '\U{2029}' || c == '\U{202F}' || c == '\U{205F}' || c == '\U{3000}'
  }

  predicate AllSpace(s: string) {
    forall i :: 0 <= i < |s| ==> IsSpace(s[i])
  }

  /** Neither the first nor the last character is whitespace. */
  predicate NoOuterSpace(s: string) {
    s == [] || (!IsSpace(s[0]) && !IsSpace(s[|s| - 1]))
  }

  /** The text ends in a whitespace character. */
  predicate EndsInSpace(s: string) {
    s != [] && IsSpace(s[|s| - 1])
  }

  /** Whitespace never holds a ",". */
  lemma SpaceHasNoComma(s: string)
    requires AllSpace(s)
    ensures ',' !in s
  {
  }

  /** Leading whitespace removed: a suffix of `s` preceded only by whitespace. */
  function LStrip(s: string): (r: string)
    ensures |r| <= |s| && r == s[|s| - |r|..]
    ensures AllSpace(s[..|s| - |r|])
    ensures r == [] || !IsSpace(r[0])
    decreases |s|
  {
    if s != [] && IsSpace(s[0]) then
      var r := LStrip(s[1..]);
      assert s[..|s| - |r|] == [s[0]] + s[1..][..|s| - 1 - |r|];
      r
    else s
  }

  /** Trailing whitespace removed: a prefix of `s` followed only by whitespace. */
  function RStrip(s: string): (r: string)
    ensures |r| <= |s| && r == s[..|r|]
    ensures AllSpace(s[|r|..])
    ensures r == [] || !IsSpace(r[|r| - 1])
    decreases |s|
  {
    if s != [] && IsSpace(s[|s| - 1]) then
      var r := RStrip(s[..|s| - 1]);
      assert s[|r|..] == s[..|s| - 1][|r|..] + [s[|s| - 1]];
      r
    else s
  }

  /** Python `s.strip()` with no argument. */
  function Strip(s: string): (r: string)
    ensures NoOuterSpace(r)
    ensures |r| <= |s|
  {
    RStrip(LStrip(s))
  }

  /** What `lstrip()` removed: a run of whitespace in front of the result. */
  lemma LStripPart(s: string) returns (lead: string)
    ensures AllSpace(lead) && s == lead + LStrip(s)
  {
    var u := LStrip(s);
    lead := s[..|s| - |u|];
    SplitAt(s, |s| - |u|);
  }

  /** What `rstrip()` removed: a run of whitespace after the result. */
  lemma RStripPart(s: string) returns (trail: string)
    ensures AllSpace(trail) && s == RStrip(s) + trail
  {
    var r := RStrip(s);
    trail := s[|r|..];
    SplitAt(s, |r|);
  }

  lemma SplitAt(s: string, k: nat)
    requires k <= |s|
    ensures s == s[..k] + s[k..]
  {
  }

  /** What `strip()` removed: the text is the stripped text between two runs of whitespace. */
  lemma StripParts(s: string) returns (lead: string, trail: string)
    ensures AllSpace(lead) && AllSpace(trail)
    ensures s == lead + Strip(s) + trail
  {
    lead := LStripPart(s);
    trail := RStripPart(LStrip(s));
    Concat3(lead, Strip(s), trail);
  }

  lemma Concat3(a: string, b: string, c: string)
    ensures a + (b + c) == a + b + c
  {
  }

  lemma {:induction false} LStripSpaces(a: string, t: string)
    requires AllSpace(a)
    requires t == [] || !IsSpace(t[0])
    ensures LStrip(a + t) == t
    decreases |a|
  {
    if a != [] {
      assert (a + t)[1..] == a[1..] + t;
      LStripSpaces(a[1..], t);
    } else {
      assert a + t == t;
    }
  }

  lemma {:induction false} RStripSpaces(t: string, b: string)
    requires AllSpace(b)
    requires t == [] || !IsSpace(t[|t| - 1])
    ensures RStrip(t + b) == t
    decreases |b|
  {
    if b != [] {
      assert (t + b)[..|t + b| - 1] == t + b[..|b| - 1];
      RStripSpaces(t, b[..|b| - 1]);
    } else {
      assert t + b == t;
    }
  }

  /**
   * `strip()` removes exactly the outer whitespace: whatever surrounds a text
   * without outer whitespace is dropped, and the text itself, inner spaces
   * included, is kept.
   */
  lemma StripOuter(a: string, c: string, b: string)
    requires AllSpace(a) && AllSpace(b) && NoOuterSpace(c)
    ensures Strip(a + c + b) == c
  {
    if c == [] {
      assert AllSpace(a + b);
      assert a + c + b == (a + b) + [];
      LStripSpaces(a + b, []);
    } else {
      assert a + c + b == a + (c + b);
      LStripSpaces(a, c + b);
      RStripSpaces(c, b);
    }
  }

  // ---------------------------------------------------------------------------
  // readline() in text mode
  // ---------------------------------------------------------------------------

  /** Line terminators under universal-newlines mode: "\n", "\r" and "\r\n". */
  predicate IsLineEnd(c: char) {
    c == '\n' || c == '\r'
  }

  predicate NoLineEnd(s: string) {
    '\n' !in s && '\r' !in s
  }

  /** Five single-line texts with a single-line separator between them make a single line. */
  lemma NoLineEnd5(a: string, b: string, c: string, d: string, e: string, sep: string)
    requires NoLineEnd(a) && NoLineEnd(b) && NoLineEnd(c) && NoLineEnd(d) && NoLineEnd(e) && NoLineEnd(sep)
    ensures NoLineEnd(a + sep + b + sep + c + sep + d + sep + e)
  {
    NoLineEndJoin(a, sep);
    NoLineEndJoin(a + sep, b);
    NoLineEndJoin(a + sep + b, sep);
    NoLineEndJoin(a + sep + b + sep, c);
    NoLineEndJoin(a + sep + b + sep + c, sep);
    NoLineEndJoin(a + sep + b + sep + c + sep, d);
    NoLineEndJoin(a + sep + b + sep + c + sep + d, sep);
    NoLineEndJoin(a + sep + b + sep + c + sep + d + sep, e);
  }

  /** Two single-line texts joined make a single line. */
  lemma NoLineEndJoin(a: string, b: string)
    requires NoLineEnd(a) && NoLineEnd(b)
    ensures NoLineEnd(a + b)
  {
  }

  /**
   * The first line of a text without its terminator: the characters before the
   * first "\n" or "\r", or the whole text when there is none.
   */
  function FirstLine(text: string): (line: string)
    ensures NoLineEnd(line)
    ensures |line| <= |text| && line == text[..|line|]
    ensures |line| < |text| ==> IsLineEnd(text[|line|])
    decreases |text|
  {
    if text == [] || IsLineEnd(text[0]) then []
    else [text[0]] + FirstLine(text[1..])
  }

  /**
   * `file.readline()` on a file opened in text mode: the characters up to the
   * first line terminator, with that terminator translated to "\n"; the whole
   * text when there is none; "" for an empty file.
   */
  function ReadLine(text: string): (line: string)
    ensures |line| <= |text|
    ensures line == FirstLine(text) + (if |FirstLine(text)| < |text| then "\n" else "")
    decreases |text|
  {
    if text == [] then []
    else if IsLineEnd(text[0]) then "\n"
    else [text[0]] + ReadLine(text[1..])
  }

  /** Only the first line is read: what follows the first terminator is never looked at. */
  lemma {:induction false} ReadLineFirst(line: string, t: char, rest: string)
    requires NoLineEnd(line) && IsLineEnd(t)
    ensures FirstLine(line + [t] + rest) == line
    ensures ReadLine(line + [t] + rest) == line + "\n"
    decreases |line|
  {
    if line != [] {
      assert (line + [t] + rest)[1..] == line[1..] + [t] + rest;
      ReadLineFirst(line[1..], t, rest);
    } else {
      assert line + [t] + rest == [t] + rest;
    }
  }

  /**
   * When the first line read, stripped, is a text `e` with no outer whitespace,
   * the first line (without its terminator) is `e` with whitespace around it;
   * for an empty `e` the first line is all whitespace.
   */
  lemma LinePadding(text: string, e: string) returns (lead: string, trail: string)
    requires NoOuterSpace(e) && Strip(ReadLine(text)) == e
    ensures AllSpace(lead) && AllSpace(trail)
    ensures FirstLine(text) == lead + e + trail
  {
    var after;
    lead, after := StripParts(ReadLine(text));
    var nl := if |FirstLine(text)| < |text| then "\n" else "";
    if e == [] {
      var first := FirstLine(text);
      assert first + nl == lead + after;
      assert AllSpace(lead + after);
      assert forall i :: 0 <= i < |first| ==> first[i] == (first + nl)[i];
      lead, trail := first, [];
      assert first == lead + e + trail;
    } else {
      trail := DropNewline(FirstLine(text), nl, lead, e, after);
    }
  }

  /** Taking the translated terminator off the line read leaves the whitespace before it. */
  lemma DropNewline(first: string, nl: string, lead: string, e: string, after: string) returns (trail: string)
    requires nl == "" || nl == "\n"
    requires first + nl == lead + e + after
    requires AllSpace(after) && e != [] && !IsSpace(e[|e| - 1])
    ensures AllSpace(trail) && first == lead + e + trail
  {
    if nl == "" {
      trail := after;
      assert first + nl == first;
    } else {
      var line := lead + e + after;
      assert line[|line| - 1] == '\n' && IsSpace('\n');
      assert (lead + e)[|lead + e| - 1] == e[|e| - 1];
      assert after != [];
      trail := after[..|after| - 1];
      assert after == trail + "\n";
      Concat3(lead + e, trail, "\n");
      assert first == (first + nl)[..|first|];
      assert lead + e + trail == (lead + e + trail + "\n")[..|lead + e + trail|];
    }
  }

  /** A text with no terminator is read whole. */
  lemma {:induction false} ReadLineWhole(line: string)
    requires NoLineEnd(line)
    ensures ReadLine(line) == line
    decreases |line|
  {
    if line != [] {
      ReadLineWhole(line[1..]);
    }
  }

  // ---------------------------------------------------------------------------
  // split(sep) and sep.join(parts)
  // ---------------------------------------------------------------------------

  /** `sep.join(parts)`. */
  function Join(parts: seq<string>, sep: char): string
    decreases |parts|
  {
    if |parts| == 0 then ""
    else if |parts| == 1 then parts[0]
    else parts[0] + [sep] + Join(parts[1..], sep)
  }

  /**
   * `s.split(sep)` with an explicit one-character separator: never empty,
   * empty pieces are kept ("a,,b" gives three pieces, "" gives [""]).
   */
  function Split(s: string, sep: char): (r: seq<string>)
    ensures |r| >= 1
    ensures forall p :: p in r ==> sep !in p
    decreases |s|
  {
    if s == [] then [""]
    else
      var rest := Split(s[1..], sep);
      if s[0] == sep then [""] + rest
      else [[s[0]] + rest[0]] + rest[1..]
  }

  /** Joining the pieces back with the separator gives the original text. */
  lemma {:induction false} JoinSplit(s: string, sep: char)
    ensures Join(Split(s, sep), sep) == s
    decreases |s|
  {
    if s != [] {
      var rest := Split(s[1..], sep);
      JoinSplit(s[1..], sep);
      if s[0] == sep {
        assert Split(s, sep) == [""] + rest;
        assert ([""] + rest)[1..] == rest;
      } else {
        var r := Split(s, sep);
        assert r == [[s[0]] + rest[0]] + rest[1..];
        assert r[1..] == rest[1..];
        if |rest| == 1 {
          assert Join(rest, sep) == rest[0];
        } else {
          assert Join(rest, sep) == rest[0] + [sep] + Join(rest[1..], sep);
        }
      }
    }
  }

  /** `sep.join` of five pieces, spelled out. */
  lemma Join5(a: string, b: string, c: string, d: string, e: string, sep: char)
    ensures Join([a, b, c, d, e], sep) == a + [sep] + b + [sep] + c + [sep] + d + [sep] + e
  {
    assert [d, e][1..] == [e];
    assert Join([d, e], sep) == d + [sep] + e;
    assert [c, d, e][1..] == [d, e];
    assert Join([c, d, e], sep) == c + [sep] + (d + [sep] + e);
    assert [b, c, d, e][1..] == [c, d, e];
    assert Join([b, c, d, e], sep) == b + [sep] + (c + [sep] + (d + [sep] + e));
    assert [a, b, c, d, e][1..] == [b, c, d, e];
    assert Join([a, b, c, d, e], sep) == a + [sep] + (b + [sep] + (c + [sep] + (d + [sep] + e)));
  }

  /** Text before the first piece and after the last one ends up in those pieces. */
  lemma Join5Padded(a: string, b: string, c: string, d: string, e: string, lead: string, trail: string, sep: char)
    ensures Join([lead + a, b, c, d, e + trail], sep) == lead + Join([a, b, c, d, e], sep) + trail
  {
    var parts := [a, b, c, d, e];
    var trailed := [a, b, c, d, e + trail];
    assert trailed == parts[..4] + [parts[4] + trail];
    JoinTrail(parts, trail, sep);
    assert [lead + a, b, c, d, e + trail] == [lead + trailed[0]] + trailed[1..];
    JoinLead(trailed, lead, sep);
    Concat3(lead, Join(parts, sep), trail);
  }

  /** Text put before the first piece comes first in the joined text. */
  lemma JoinLead(parts: seq<string>, lead: string, sep: char)
    requires parts != []
    ensures Join([lead + parts[0]] + parts[1..], sep) == lead + Join(parts, sep)
  {
    var joined := [lead + parts[0]] + parts[1..];
    assert joined[1..] == parts[1..];
    if |parts| > 1 {
      Concat3(lead, parts[0] + [sep], Join(parts[1..], sep));
    }
  }

  /** Text put after the last piece comes last in the joined text. */
  lemma {:induction false} JoinTrail(parts: seq<string>, trail: string, sep: char)
    requires parts != []
    ensures Join(parts[..|parts| - 1] + [parts[|parts| - 1] + trail], sep) == Join(parts, sep) + trail
    decreases |parts|
  {
    var trailed := parts[..|parts| - 1] + [parts[|parts| - 1] + trail];
    if |parts| > 1 {
      var tail := parts[1..];
      assert trailed[1..] == tail[..|tail| - 1] + [tail[|tail| - 1] + trail];
      JoinTrail(tail, trail, sep);
      Concat3(parts[0] + [sep], Join(tail, sep), trail);
    }
  }


  /** A separator-free prefix is glued onto the first piece. */
  lemma {:induction false} SplitPrefix(a: string, t: string, sep: char)
    requires sep !in a
    ensures Split(a + t, sep) == [a + Split(t, sep)[0]] + Split(t, sep)[1..]
    decreases |a|
  {
    if a == [] {
      var r := Split(t, sep);
      assert a + t == t && a + r[0] == r[0];
      assert r == [r[0]] + r[1..];
    } else {
      assert (a + t)[1..] == a[1..] + t;
      SplitPrefix(a[1..], t, sep);
      assert [a[0]] + (a[1..] + Split(t, sep)[0]) == a + Split(t, sep)[0];
    }
  }

  /** Splitting the joined pieces gives them back, when no piece holds the separator. */
  lemma {:induction false} SplitJoin(parts: seq<string>, sep: char)
    requires |parts| >= 1
    requires forall p :: p in parts ==> sep !in p
    ensures Split(Join(parts, sep), sep) == parts
    decreases |parts|
  {
    if |parts| == 1 {
      SplitPrefix(parts[0], [], sep);
      assert parts[0] + [] == parts[0];
    } else {
      var tail := Join(parts[1..], sep);
      assert parts[0] in parts;
      assert forall p :: p in parts[1..] ==> p in parts;
      SplitJoin(parts[1..], sep);
      assert Join(parts, sep) == parts[0] + ([sep] + tail);
      SplitPrefix(parts[0], [sep] + tail, sep);
      SplitAfterSep(tail, sep);
      assert parts[0] + "" == parts[0];
      assert parts == [parts[0]] + parts[1..];
    }
  }

  /** A separator at the front splits off an empty piece. */
  lemma SplitAfterSep(t: string, sep: char)
    ensures Split([sep] + t, sep) == [""] + Split(t, sep)
  {
    assert ([sep] + t)[1..] == t;
  }


  // ---------------------------------------------------------------------------
  // ASCII letter case, title() and capitalize()
  // ---------------------------------------------------------------------------

  predicate IsLetter(c: char) {
    ('a' <= c <= 'z') || ('A' <= c <= 'Z')
  }

  function Upper(c: char): (u: char)
    ensures IsLetter(u) == IsLetter(c)
    ensures !IsLetter(c) ==> u == c
    ensures !('a' <= u <= 'z')
  {
    if 'a' <= c <= 'z' then (c as int - 32) as char else c
  }

  function Lower(c: char): (l: char)
    ensures IsLetter(l) == IsLetter(c)
    ensures !IsLetter(c) ==> l == c
    ensures !('A' <= l <= 'Z')
  {
    if 'A' <= c <= 'Z' then (c as int + 32) as char else c
  }

  lemma CaseAbsorbs(c: char)
    ensures Upper(Upper(c)) == Upper(c) && Upper(Lower(c)) == Upper(c)
    ensures Lower(Lower(c)) == Lower(c) && Lower(Upper(c)) == Lower(c)
  {
  }

  /**
   * `title()` scanning left to right: a character is lowercased when the
   * character before it is a letter (`prevCased` for the first one) and
   * uppercased otherwise.
   */
  function TitleFrom(s: string, prevCased: bool): (r: string)
    ensures |r| == |s|
    ensures forall i :: 0 <= i < |s| ==>
      r[i] == if (if i == 0 then prevCased else IsLetter(s[i - 1])) then Lower(s[i]) else Upper(s[i])
    decreases |s|
  {
    if s == [] then []
    else [if prevCased then Lower(s[0]) else Upper(s[0])] + TitleFrom(s[1..], IsLetter(s[0]))
  }

  /**
   * Python `s.title()`: a letter is uppercased when it starts the text or
   * follows a non-letter, and lowercased when it follows a letter.
   */
  function Title(s: string): (r: string)
    ensures |r| == |s|
    ensures forall i :: 0 <= i < |s| && (i == 0 || !IsLetter(s[i - 1])) ==> r[i] == Upper(s[i])
    ensures forall i :: 0 < i < |s| && IsLetter(s[i - 1]) ==> r[i] == Lower(s[i])
  {
    TitleFrom(s, false)
  }

  /** Python `s.lower()`. */
  function LowerAll(s: string): (r: string)
    ensures |r| == |s|
  {
    seq(|s|, i requires 0 <= i < |s| => Lower(s[i]))
  }

  /**
   * Python `s.capitalize()`: the first character uppercased and every other
   * character lowercased (the rest is not left as it was).
   */
  function Capitalize(s: string): (r: string)
    ensures |r| == |s|
    ensures |s| > 0 ==> r[0] == Upper(s[0])
    ensures forall i :: 0 < i < |s| ==> r[i] == Lower(s[i])
  {
    if s == [] then [] else [Upper(s[0])] + LowerAll(s[1..])
  }

  /** Title-casing never changes which characters are letters, and leaves the rest alone. */
  lemma TitleKeepsShape(s: string)
    ensures forall i :: 0 <= i < |s| ==> IsLetter(Title(s)[i]) == IsLetter(s[i])
    ensures forall i :: 0 <= i < |s| && !IsLetter(s[i]) ==> Title(s)[i] == s[i]
  {
    var r := Title(s);
    forall i | 0 <= i < |s|
      ensures IsLetter(r[i]) == IsLetter(s[i])
      ensures !IsLetter(s[i]) ==> r[i] == s[i]
    {
      if i == 0 || !IsLetter(s[i - 1]) {
        assert r[i] == Upper(s[i]);
      } else {
        assert r[i] == Lower(s[i]);
      }
    }
  }

  /** `title()` is idempotent. */
  lemma TitleIdempotent(s: string)
    ensures Title(Title(s)) == Title(s)
  {
    var t := Title(s);
    TitleKeepsShape(s);
    var tt := Title(t);
    forall i | 0 <= i < |s|
      ensures tt[i] == t[i]
    {
      CaseAbsorbs(s[i]);
      if i == 0 || !IsLetter(s[i - 1]) {
        assert i == 0 || !IsLetter(t[i - 1]);
        assert tt[i] == Upper(t[i]);
      } else {
        assert IsLetter(t[i - 1]);
        assert tt[i] == Lower(t[i]);
      }
    }
  }

  /** `capitalize()` is idempotent. */
  lemma CapitalizeIdempotent(s: string)
    ensures Capitalize(Capitalize(s)) == Capitalize(s)
  {
    var c := Capitalize(s);
    var cc := Capitalize(c);
    forall i | 0 <= i < |s|
      ensures cc[i] == c[i]
    {
      CaseAbsorbs(s[i]);
    }
  }
}
