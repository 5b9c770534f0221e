/**
  What XMLPrinter::PrintString writes, and that decoding undoes it up to line ends.
 */
module Escaping {
  import opened Options
  import opened XmlChars
  import opened CharRef
  import opened DecodingExact
  import opened EntityDecoding

  /** The characters of the two entity flag tables. */
  predicate Flagged(c: char, restricted: bool) {
    c == '&' || c == '<' || c == '>' || (!restricted && (c == '"' || c == '\''))
  }

  /** The first table entry from `i` on with value `c`. */
  function EntityOf(c: char, i: nat): (r: nat)
    requires i <= NUM_ENTITIES
    ensures i <= r <= NUM_ENTITIES
    ensures r < NUM_ENTITIES ==> ENTITIES[r].value == c
    ensures r == NUM_ENTITIES ==> forall j | i <= j < NUM_ENTITIES :: ENTITIES[j].value != c
    decreases NUM_ENTITIES - i
  {
    if i < NUM_ENTITIES && ENTITIES[i].value != c then EntityOf(c, i + 1) else i
  }

  function EscapeChar(c: char, restricted: bool): string {
    if Flagged(c, restricted) && EntityOf(c, 0) < NUM_ENTITIES
    then "&" + ENTITIES[EntityOf(c, 0)].pattern + ";"
    else [c]
  }

  function Escape(s: string, restricted: bool): string {
    if s == [] then [] else EscapeChar(s[0], restricted) + Escape(s[1..], restricted)
  }

  /** Line ends as section 2.11 of XML 1.0 wants them, with LF CR counted as one line end too. */
  function Normalize(s: string): (r: string)
    ensures s == [] <==> r == []
    decreases |s|
  {
    if s == [] then []
    else if s[0] == CR || s[0] == LF then [LF] + Normalize(s[LineEnd(s)..])
    else [s[0]] + Normalize(s[1..])
  }

  lemma {:induction false} NormalizeNoCR(s: string)
    ensures CR !in Normalize(s)
    ensures NUL !in s ==> NUL !in Normalize(s)
    decreases |s|
  {
    if s != [] {
      var n := if s[0] == CR || s[0] == LF then LineEnd(s) else 1;
      NormalizeNoCR(s[n..]);
    }
  }

  // The strings without CR are their own normal forms, and no others.
  lemma NormalFormOf(s: string)
    ensures Normalize(s) == s <==> CR !in s
  {
    NormalizeNoCR(s);
    if CR !in s {
      WithoutCR(s);
    }
  }

  lemma {:induction false} WithoutCR(s: string)
    requires CR !in s
    ensures Normalize(s) == s
  {
    if s != [] {
      WithoutCR(s[1..]);
      assert LF == s[0] ==> Peek(s, 1) != CR;
    }
  }

  lemma NormalizeIdempotent(s: string)
    ensures Normalize(Normalize(s)) == Normalize(s)
  {
    NormalizeNoCR(s);
    NormalFormOf(Normalize(s));
  }

  // Line ends keep a text blank or non-blank.
  lemma {:induction false} NormalizeKeepsBlank(s: string)
    ensures Blank(Normalize(s)) <==> Blank(s)
    decreases |s|
  {
    if s != [] {
      var n := if s[0] == CR || s[0] == LF then LineEnd(s) else 1;
      NormalizeKeepsBlank(s[n..]);
      assert s == s[..n] + s[n..];
      assert Normalize(s) == [if s[0] == CR || s[0] == LF then LF else s[0]] + Normalize(s[n..]);
    }
  }

  // ----- one escaped character

  lemma EscapeCharForms(c: char, restricted: bool)
    ensures EscapeChar(c, restricted) ==
              if c == '&' then "&amp;" else if c == '<' then "&lt;" else if c == '>' then "&gt;"
              else if c == '"' && !restricted then "&quot;" else if c == '\'' && !restricted then "&apos;"
              else [c]
  {
    assert ENTITIES[0].value == '"' && ENTITIES[1].value == '&' && ENTITIES[2].value == '\''
      && ENTITIES[3].value == '<' && ENTITIES[4].value == '>';
    assert "&" + "amp" + ";" == "&amp;" && "&" + "lt" + ";" == "&lt;" && "&" + "gt" + ";" == "&gt;"
      && "&" + "quot" + ";" == "&quot;" && "&" + "apos" + ";" == "&apos;";
  }

  // An escaped character decodes to itself, whatever follows.
  lemma EscapedCharReads(c: char, restricted: bool, rest: string)
    requires EscapeChar(c, restricted) != [c] || c == '&'
    ensures var e := EscapeChar(c, restricted);
            ReadReference(e + rest) == Some(([c], |e|)) && (e + rest)[|e|..] == rest && e[0] == '&'
  {
    EscapeCharForms(c, restricted);
    var e := EscapeChar(c, restricted);
    var s := e + rest;
    assert s[0] == '&' && s[1] == e[1] && s[2] == e[2];
    assert "&quot;"[1] == 'q' && "&amp;"[1] == 'a' && "&apos;"[1] == 'a' && "&lt;"[1] == 'l' && "&gt;"[1] == 'g';
    assert "&amp;"[2] == 'm' && "&apos;"[2] == 'p';
    assert s[..|e|] == e;
  }

  lemma {:induction false} UnescapeEscape(s: string, restricted: bool, f: Flags)
    requires f.entities && f.newlines
    ensures Unescape(Escape(s, restricted), f) == Normalize(s)
    decreases |s|
  {
    if s != [] {
      var c := s[0];
      var rest := Escape(s[1..], restricted);
      EscapeCharForms(c, restricted);
      if c == CR || c == LF {
        EscapedLineEnd(s, restricted);
        UnescapeEscape(s[LineEnd(s)..], restricted, f);
      } else {
        UnescapeEscape(s[1..], restricted, f);
        if EscapeChar(c, restricted) != [c] || c == '&' {
          EscapedCharReads(c, restricted, rest);
        } else {
          PlainChar(c, rest, f);
        }
      }
    }
  }

  lemma PlainChar(c: char, rest: string, f: Flags)
    requires c != '&' && c != CR && c != LF
    ensures Unescape([c] + rest, f) == [c] + Unescape(rest, f)
  {
    var s := [c] + rest;
    assert s[1..] == rest;
    assert "&quot;"[0] == "&amp;"[0] == "&apos;"[0] == "&lt;"[0] == "&gt;"[0] == "&#x"[0] == "&#"[0] == '&';
  }

  lemma EscapedLineEnd(s: string, restricted: bool)
    requires s != [] && (s[0] == CR || s[0] == LF)
    ensures var e := Escape(s, restricted);
            e != [] && e[0] == s[0] && LineEnd(e) == LineEnd(s)
            && e[LineEnd(s)..] == Escape(s[LineEnd(s)..], restricted)
  {
    hide Escape;
    var e, tail := Escape(s, restricted), Escape(s[1..], restricted);
    LineEndKept(s, restricted);
    EscapeHead(s[1..], restricted);
    assert e[1..] == tail;
    if LineEnd(s) == 2 {
      LineEndKept(s[1..], restricted);
      assert s[1..][1..] == s[2..] && e[2..] == tail[1..];
    }
  }

  lemma LineEndKept(s: string, restricted: bool)
    requires s != [] && (s[0] == CR || s[0] == LF)
    ensures Escape(s, restricted) == [s[0]] + Escape(s[1..], restricted)
  {
    EscapeCharForms(s[0], restricted);
    hide EscapeChar;
  }

  lemma EscapeHead(s: string, restricted: bool)
    ensures s == [] ==> Escape(s, restricted) == []
    ensures s != [] ==>
              Escape(s, restricted) != [] && Escape(s, restricted)[0] == (if Flagged(s[0], restricted) then '&' else s[0])
  {
    if s != [] {
      EscapeCharForms(s[0], restricted);
    }
  }

  // Every ampersand written starts a reference.
  lemma {:induction false} EscapeReferences(s: string, restricted: bool)
    ensures AmpersandsAreReferences(Escape(s, restricted))
  {
    if s != [] {
      var c, rest := s[0], Escape(s[1..], restricted);
      var e := EscapeChar(c, restricted);
      EscapeReferences(s[1..], restricted);
      EscapeCharForms(c, restricted);
      if e[0] == '&' {
        EscapedCharReads(c, restricted, rest);
      }
      hide EscapeChar, ReadReference, AmpersandsAreReferences;
      ReferencesJoin(e, rest);
    }
  }

  lemma ReferencesJoin(e: string, rest: string)
    requires e != [] && (forall i | 1 <= i < |e| :: e[i] != '&')
    requires e[0] == '&' ==> ReadReference(e + rest).Some?
    requires AmpersandsAreReferences(rest)
    ensures AmpersandsAreReferences(e + rest)
  {
    hide ReadReference;
    forall i | 0 <= i < |e + rest| && (e + rest)[i] == '&'
      ensures ReadReference((e + rest)[i..]).Some?
    {
      if i == 0 {
        assert (e + rest)[0..] == e + rest;
      } else {
        assert (e + rest)[i..] == rest[i - |e|..];
      }
    }
  }

  // Decoding what PrintString wrote gives the string back, line ends normalised.
  lemma DecodeEscape(s: string, restricted: bool, f: Flags)
    requires f.entities && f.newlines
    ensures Decode(Escape(s, restricted), f) == Decoded(Normalize(s))
  {
    EscapeReferences(s, restricted);
    DecodeIsUnescape(Escape(s, restricted), f);
    UnescapeEscape(s, restricted, f);
  }

  lemma RoundTripWithoutCR(s: string, restricted: bool)
    requires CR !in s
    ensures Decode(Escape(s, restricted), TEXT_ELEMENT) == Decoded(s)
  {
    DecodeEscape(s, restricted, TEXT_ELEMENT);
    NormalFormOf(s);
  }

  // Comments, declarations and CDATA are not escaped, only normalised.
  lemma {:induction false} UnescapeComment(s: string)
    ensures Unescape(s, COMMENT) == Normalize(s)
    decreases |s|
  {
    if s != [] {
      UnescapeComment(s[if s[0] == CR || s[0] == LF then LineEnd(s) else 1..]);
    }
  }

  lemma DecodeComment(s: string)
    ensures Decode(s, COMMENT) == Decoded(Normalize(s))
  {
    DecodeIsUnescape(s, COMMENT);
    UnescapeComment(s);
  }

  // ----- what the parser may stop at

  lemma {:induction false} EscapeAvoids(s: string, restricted: bool)
    ensures '<' !in Escape(s, restricted) && '>' !in Escape(s, restricted)
    ensures !restricted ==> '"' !in Escape(s, restricted) && '\'' !in Escape(s, restricted)
    ensures NUL !in s ==> NUL !in Escape(s, restricted)
  {
    hide EscapeChar;
    if s != [] {
      EscapeAvoids(s[1..], restricted);
      CharAvoids(s[0], restricted);
      assert NUL !in s ==> s[0] != NUL && NUL !in s[1..];
      var e, rest := EscapeChar(s[0], restricted), Escape(s[1..], restricted);
      assert Escape(s, restricted) == e + rest;
      hide Escape;
      NotInBoth('<', e, rest);
      NotInBoth('>', e, rest);
      NotInBoth('\'', e, rest);
      NotInBoth('"', e, rest);
      NotInBoth(NUL, e, rest);
    }
  }

  lemma CharAvoids(c: char, restricted: bool)
    ensures '<' !in EscapeChar(c, restricted) && '>' !in EscapeChar(c, restricted)
    ensures !restricted ==> '"' !in EscapeChar(c, restricted) && '\'' !in EscapeChar(c, restricted)
    ensures c != NUL ==> NUL !in EscapeChar(c, restricted)
  {
    EscapeCharForms(c, restricted);
    hide EscapeChar;
  }

  lemma NotInBoth(c: char, a: string, b: string)
    ensures c !in a + b <==> c !in a && c !in b
  {
  }

  lemma {:induction false} EscapeKeepsBlank(s: string, restricted: bool)
    ensures Blank(Escape(s, restricted)) <==> Blank(s)
  {
    if s != [] {
      EscapeKeepsBlank(s[1..], restricted);
      CharKeepsBlank(s[0], restricted);
      EscapeCons(s[0], s[1..], restricted);
      assert s == [s[0]] + s[1..];
      hide Escape, EscapeChar;
      BothBlank([s[0]], s[1..]);
      BothBlank(EscapeChar(s[0], restricted), Escape(s[1..], restricted));
    }
  }

  lemma CharKeepsBlank(c: char, restricted: bool)
    ensures Blank(EscapeChar(c, restricted)) <==> Blank([c])
  {
    EscapeCharForms(c, restricted);
    var e := EscapeChar(c, restricted);
    hide EscapeChar;
    assert e[0] in e && c in [c];
    assert IsWhiteSpace(c) ==> e == [c];
  }

  lemma BothBlank(a: string, b: string)
    ensures Blank(a + b) <==> Blank(a) && Blank(b)
  {
    if Blank(a + b) {
      assert forall c <- a :: c in a + b;
      assert forall c <- b :: c in a + b;
    }
  }

  // Nothing else is escaped.
  lemma {:induction false} PlainIsKept(s: string, restricted: bool)
    requires forall c <- s :: c != '&' && c != '<' && c != '>' && (restricted || (c != '"' && c != '\''))
    ensures Escape(s, restricted) == s
  {
    if s != [] {
      assert s[0] in s && forall c <- s[1..] :: c in s;
      PlainIsKept(s[1..], restricted);
      EscapeCharForms(s[0], restricted);
    }
  }

  // Attribute values escape all five characters, texts three.
  lemma EscapeExamples()
    ensures Escape("<\"&'>", false) == "&lt;&quot;&amp;&apos;&gt;" && Escape("<\"&'>", true) == "&lt;\"&amp;'&gt;"
  {
    FiveEscaped(false);
    FiveEscaped(true);
    hide Escape, EscapeChar;
    assert "&lt;" + ("&quot;" + ("&amp;" + ("&apos;" + ("&gt;" + "")))) == "&lt;&quot;&amp;&apos;&gt;";
    assert "&lt;" + ("\"" + ("&amp;" + ("'" + ("&gt;" + "")))) == "&lt;\"&amp;'&gt;";
  }

  lemma FiveEscaped(restricted: bool)
    ensures Escape("<\"&'>", restricted)
         == "&lt;" + ((if restricted then "\"" else "&quot;") + ("&amp;" + ((if restricted then "'" else "&apos;") + ("&gt;" + ""))))
  {
    EscapeCharForms('<', restricted);
    EscapeCharForms('"', restricted);
    EscapeCharForms('&', restricted);
    EscapeCharForms('\'', restricted);
    EscapeCharForms('>', restricted);
    EscapeCons('>', "", restricted);
    EscapeCons('\'', ">", restricted);
    EscapeCons('&', "'>", restricted);
    EscapeCons('"', "&'>", restricted);
    EscapeCons('<', "\"&'>", restricted);
    EmptyIsEmpty(restricted);
    hide *;
    assert ['>'] + "" == ">" && ['\''] + ">" == "'>" && ['&'] + "'>" == "&'>" && ['"'] + "&'>" == "\"&'>" && ['<'] + "\"&'>" == "<\"&'>";
  }

  lemma EmptyIsEmpty(restricted: bool)
    ensures Escape("", restricted) == ""
  {
  }

  lemma EscapeCons(c: char, t: string, restricted: bool)
    ensures Escape([c] + t, restricted) == EscapeChar(c, restricted) + Escape(t, restricted)
  {
    hide EscapeChar;
    assert ([c] + t)[1..] == t;
  }
}
