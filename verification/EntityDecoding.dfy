/**
  What StrPair::GetStr computes: the exact effect of its decoding loop, an independent
  reference decoder, and the collapse of whitespace.
 */
module EntityDecoding {
  import opened Options
  import opened XmlChars
  import opened CharRef

  datatype Entity = Entity(pattern: string, value: char)

  const NUM_ENTITIES := 5
  const ENTITIES: seq<Entity> := [
    Entity("quot", '"'), Entity("amp", '&'), Entity("apos", '\''), Entity("lt", '<'), Entity("gt", '>')
  ]

  /** StrPair flags that drive the decoding. */
  datatype Flags = Flags(entities: bool, newlines: bool, collapse: bool)

  const TEXT_ELEMENT := Flags(true, true, false)
  const ATTRIBUTE_VALUE := Flags(true, true, false)
  const COMMENT := Flags(false, true, false)
  const NAME := Flags(false, false, false)

  /** The first table entry from `i` on that `s`, the text after an ampersand, spells out. */
  function FindEntity(s: string, i: nat): (r: nat)
    requires i <= NUM_ENTITIES
    ensures i <= r <= NUM_ENTITIES
    ensures r < NUM_ENTITIES ==> ENTITIES[r].pattern + ";" <= s
    ensures forall j | i <= j < r :: !(ENTITIES[j].pattern + ";" <= s)
    decreases NUM_ENTITIES - i
  {
    if i < NUM_ENTITIES && !(ENTITIES[i].pattern + ";" <= s) then FindEntity(s, i + 1) else i
  }

  // ----- the loop of GetStr

  /** One iteration: nothing (null dereference), or bytes written and characters read. */
  datatype Step = Crash | Step(bytes: string, size: nat)

  /** The characters a line end occupies: CR LF, LF CR, or either alone. */
  function LineEnd(s: string): (n: nat)
    requires s != [] && (s[0] == CR || s[0] == LF)
    ensures 1 <= n <= |s|
  {
    if Peek(s, 1) == (if s[0] == CR then LF else CR) then 2 else 1
  }

  function DecodeStep(raw: string, p: nat, q: nat, f: Flags): (r: Step)
    requires q <= p < |raw|
    ensures r.Step? ==> 1 <= r.size <= |raw| - p && |r.bytes| <= r.size
  {
    var s := raw[p..];
    if f.newlines && (s[0] == CR || s[0] == LF) then Step([LF], LineEnd(s))
    else if f.entities && s[0] == '&' then
      if Peek(s, 1) == '#' then
        RefNeverGrows(s);
        match CharacterRef(s)
        case BadRef => Crash
        case Ref(bytes, size) => Step(bytes, size)
      else
        var i := FindEntity(s[1..], 0);
        // An unknown entity moves the write pointer without writing: the byte already there stays.
        if i == NUM_ENTITIES then Step([raw[q]], 1)
        else Step([ENTITIES[i].value], |ENTITIES[i].pattern| + 2)
    else Step([s[0]], 1)
  }

  datatype Decoded = BadReference | Decoded(text: string)

  function DecodeFrom(raw: string, p: nat, out: string, f: Flags): (r: Decoded)
    requires |out| <= p <= |raw|
    ensures r.Decoded? ==> |out| <= |r.text| <= |raw| && out <= r.text
    decreases |raw| - p
  {
    if p == |raw| then Decoded(out)
    else
      match DecodeStep(raw, p, |out|, f)
      case Crash => BadReference
      case Step(bytes, size) => DecodeFrom(raw, p + size, out + bytes, f)
  }

  function Decode(raw: string, f: Flags): Decoded {
    DecodeFrom(raw, 0, "", f)
  }

  // ----- the reference decoder (sections 2.11, 4.1 and 4.6 of XML 1.0)

  function DigitRun(s: string, n: Notation): (r: string)
    ensures |r| <= |s| && r == s[..|r|]
    ensures forall c <- r :: n.Digit(c).Some?
  {
    if s != [] && n.Digit(s[0]).Some? then [s[0]] + DigitRun(s[1..], n) else []
  }

  /** A numeric reference whose value fits an unsigned int, as every legal one does: what it stands for, and its size. */
  function ReadNumeric(s: string, n: Notation): (r: Option<(string, nat)>)
    ensures r.Some? ==> 3 < r.value.1 <= |s| && |r.value.0| <= 4
  {
    var head := if n.Hex? then "&#x" else "&#";
    if head <= s then
      var digits := DigitRun(s[|head|..], n);
      var size := |head| + |digits|;
      if digits != [] && Positional(digits, n) < UINT && size < |s| && s[size] == ';'
      then Some((Utf8(Positional(digits, n)), size + 1)) else None
    else None
  }

  /** A reference at the head of `s`: the text it stands for, and its size. */
  function ReadReference(s: string): (r: Option<(string, nat)>)
    ensures r.Some? ==> 3 < r.value.1 <= |s| && |r.value.0| <= r.value.1
  {
    if "&quot;" <= s then Some(("\"", 6))
    else if "&amp;" <= s then Some(("&", 5))
    else if "&apos;" <= s then Some(("'", 6))
    else if "&lt;" <= s then Some(("<", 4))
    else if "&gt;" <= s then Some((">", 4))
    else if ReadNumeric(s, Hex).Some? then ReadNumeric(s, Hex)
    else ReadNumeric(s, Dec)
  }

  /** References replaced, line ends turned into LF; an ampersand that starts no reference stays. */
  function Unescape(s: string, f: Flags): string
    decreases |s|
  {
    if s == [] then []
    else if f.newlines && (s[0] == CR || s[0] == LF) then [LF] + Unescape(s[LineEnd(s)..], f)
    else if f.entities && ReadReference(s).Some? then
      ReadReference(s).value.0 + Unescape(s[ReadReference(s).value.1..], f)
    else [s[0]] + Unescape(s[1..], f)
  }

  lemma PatternBehindAmpersand(s: string, pattern: string)
    requires s != [] && s[0] == '&'
    ensures pattern + ";" <= s[1..] <==> "&" + pattern + ";" <= s
  {
    var e := pattern + ";";
    assert "&" + pattern + ";" == ['&'] + e;
    if e <= s[1..] {
      assert s[..1 + |e|] == ['&'] + s[1..][..|e|];
    }
    if ['&'] + e <= s {
      assert s[1..][..|e|] == (['&'] + e)[1..];
    }
  }

  lemma EntityNames()
    ensures ENTITIES[0].pattern == "quot" && ENTITIES[1].pattern == "amp" && ENTITIES[2].pattern == "apos"
         && ENTITIES[3].pattern == "lt" && ENTITIES[4].pattern == "gt"
    ensures "&" + "quot" + ";" == "&quot;" && "&" + "amp" + ";" == "&amp;" && "&" + "apos" + ";" == "&apos;"
         && "&" + "lt" + ";" == "&lt;" && "&" + "gt" + ";" == "&gt;"
  {
  }

  lemma NotNumeric(s: string)
    requires s != [] && s[0] == '&' && Peek(s, 1) != '#'
    ensures ReadNumeric(s, Hex) == None && ReadNumeric(s, Dec) == None
  {
    assert "&#"[1] == '#' && "&#x"[1] == '#';
  }

  lemma EntityIsReference(s: string)
    requires s != [] && s[0] == '&' && Peek(s, 1) != '#'
    ensures var i := FindEntity(s[1..], 0);
            ReadReference(s) == if i == NUM_ENTITIES then None
                                else Some(([ENTITIES[i].value], |ENTITIES[i].pattern| + 2))
  {
    EntityNames();
    NotNumeric(s);
    hide ReadNumeric, FindEntity;
    var t := s[1..];
    PatternBehindAmpersand(s, "quot");
    PatternBehindAmpersand(s, "amp");
    PatternBehindAmpersand(s, "apos");
    PatternBehindAmpersand(s, "lt");
    PatternBehindAmpersand(s, "gt");
    FirstEntity(t);
  }

  lemma FirstEntity(t: string)
    ensures FindEntity(t, 0) == if "quot" + ";" <= t then 0 else if "amp" + ";" <= t then 1 else if "apos" + ";" <= t then 2
                                else if "lt" + ";" <= t then 3 else if "gt" + ";" <= t then 4 else 5
  {
    EntityNames();
  }

  lemma NumericIsReference(s: string)
    requires "&#" <= s && ReadReference(s).Some?
    ensures CharacterRef(s) == Ref(ReadReference(s).value.0, ReadReference(s).value.1)
  {
    hide ScanRef, Utf8, Positional, DigitRun;
    assert s[1] == '#' && "&quot;"[1] == 'q' && "&amp;"[1] == 'a' && "&apos;"[1] == 'a' && "&lt;"[1] == 'l' && "&gt;"[1] == 'g';
    var n := if ReadNumeric(s, Hex).Some? then Hex else Dec;
    var head := if n.Hex? then "&#x" else "&#";
    var digits := DigitRun(s[|head|..], n);
    var size := |head| + |digits|;
    assert s == head + digits + ";" + s[size + 1..];
    RefDecodes(digits, n, s[size + 1..]);
  }

  // What one iteration does, in terms of the reference decoder.
  lemma StepDecodes(raw: string, p: nat, q: nat, f: Flags)
    requires q <= p < |raw|
    requires f.entities && "&#" <= raw[p..] ==> ReadReference(raw[p..]).Some?
    ensures var s := raw[p..];
            var step := DecodeStep(raw, p, q, f);
            && step.Step?
            && (if f.entities && s[0] == '&' && ReadReference(s) == None
                then step == Step([raw[q]], 1) && Unescape(s, f) == ['&'] + Unescape(s[1..], f)
                else Unescape(s, f) == step.bytes + Unescape(s[step.size..], f))
  {
    var s := raw[p..];
    if f.entities && s[0] == '&' {
      if Peek(s, 1) == '#' {
        assert s[..2] == "&#";
        NumericIsReference(s);
      } else {
        EntityIsReference(s);
      }
    }
    if s[0] != '&' {
      NoAmpersand(s);
    }
    hide CharacterRef, FindEntity, ReadReference;
  }

  lemma NoAmpersand(s: string)
    requires s != [] && s[0] != '&'
    ensures ReadReference(s) == None
  {
    assert "&quot;"[0] == "&amp;"[0] == "&apos;"[0] == "&lt;"[0] == "&gt;"[0] == "&#x"[0] == "&#"[0] == '&';
  }

  // ----- collapsed whitespace

  /** The loop of CollapseWhitespace, from a first character that is not blank. */
  function CollapseFrom(s: string): (r: string)
    ensures |r| <= |s|
    decreases |s|
  {
    if s == [] then []
    else if IsWhiteSpace(s[0]) then
      var t := SkipWhiteSpace(s);
      if t == [] then [] else [' ', t[0]] + CollapseFrom(t[1..])
    else [s[0]] + CollapseFrom(s[1..])
  }

  function Collapse(s: string): string {
    CollapseFrom(SkipWhiteSpace(s))
  }

  /** The longest prefix without a blank. */
  function Word(s: string): (w: string)
    ensures |w| <= |s|
  {
    if s != [] && !IsWhiteSpace(s[0]) then [s[0]] + Word(s[1..]) else []
  }

  /** The blank-separated words of `s`. */
  function Words(s: string): seq<string>
    decreases |s|
  {
    var t := SkipWhiteSpace(s);
    if t == [] then [] else [Word(t)] + Words(t[|Word(t)|..])
  }

  function Joined(words: seq<string>): string {
    if words == [] then "" else if |words| == 1 then words[0] else words[0] + " " + Joined(words[1..])
  }

  // A text that starts with a word collapses to that word, then the others behind single blanks.
  lemma {:induction false} CollapseWord(s: string)
    requires s != [] && !IsWhiteSpace(s[0])
    ensures CollapseFrom(s) == Joined(Words(s))
    decreases |s|
  {
    hide CollapseFrom, Word, Joined;
    var w := Word(s);
    var t := SkipWhiteSpace(s[|w|..]);
    CollapseRun(s);
    SkipTwice(s[|w|..]);
    assert Words(s[|w|..]) == Words(t);
    assert Words(s) == [w] + Words(t);
    if t != [] {
      CollapseWord(t);
      assert SkipWhiteSpace(t) == t;
      assert CollapseFrom(t) == [t[0]] + CollapseFrom(t[1..]) by { CollapseHead(t); }
      JoinedAfter(w, Words(t), t[0], CollapseFrom(t[1..]));
    } else {
      JoinedOne(w);
      assert Words(t) == [] && [w] + Words(t) == [w];
      assert w + AfterWord(s[|w|..]) == w;
    }
  }

  lemma CollapseHead(t: string)
    requires t != [] && !IsWhiteSpace(t[0])
    ensures CollapseFrom(t) == [t[0]] + CollapseFrom(t[1..])
  {
  }

  lemma JoinedOne(w: string)
    ensures Joined([w]) == w
  {
  }

  lemma JoinedAfter(w: string, ws: seq<string>, c: char, tail: string)
    requires ws != [] && Joined(ws) == [c] + tail
    ensures Joined([w] + ws) == w + ([' ', c] + tail)
  {
    assert ([w] + ws)[1..] == ws;
    assert w + " " + Joined(ws) == w + ([' ', c] + tail);
  }

  lemma SkipTwice(s: string)
    ensures SkipWhiteSpace(SkipWhiteSpace(s)) == SkipWhiteSpace(s)
  {
  }

  /** What the loop writes from a blank or the end on. */
  function AfterWord(s: string): string {
    var t := SkipWhiteSpace(s);
    if t == [] then [] else [' ', t[0]] + CollapseFrom(t[1..])
  }

  lemma {:induction false} CollapseRun(s: string)
    ensures CollapseFrom(s) == Word(s) + AfterWord(s[|Word(s)|..])
  {
    hide AfterWord;
    if s == [] || IsWhiteSpace(s[0]) {
      assert s[|Word(s)|..] == s;
      assert CollapseFrom(s) == AfterWord(s) by {
        CollapseBlank(s);
      }
    } else {
      CollapseRun(s[1..]);
      var w' := Word(s[1..]);
      assert s[1..][|w'|..] == s[1 + |w'|..];
      assert Word(s) == [s[0]] + w';
      assert CollapseFrom(s) == [s[0]] + CollapseFrom(s[1..]);
      assert [s[0]] + (w' + AfterWord(s[1 + |w'|..])) == [s[0]] + w' + AfterWord(s[1 + |w'|..]);
    }
  }

  lemma CollapseBlank(s: string)
    requires s == [] || IsWhiteSpace(s[0])
    ensures CollapseFrom(s) == AfterWord(s)
  {
  }

  lemma CollapseIsJoinedWords(s: string)
    ensures Collapse(s) == Joined(Words(s))
  {
    var t := SkipWhiteSpace(s);
    SkipTwice(s);
    if t != [] {
      CollapseWord(t);
    }
  }

  // Words, and blanks anywhere between and around them, collapse to the words with one blank between each two.
  lemma SpreadCollapses(words: seq<string>, gaps: seq<string>)
    requires |gaps| == |words| + 1 && (forall g <- gaps :: Blank(g)) && forall i | 0 < i < |words| :: gaps[i] != ""
    requires forall w <- words :: w != "" && forall c <- w :: !IsWhiteSpace(c)
    ensures Collapse(Spread(words, gaps)) == Joined(words)
  {
    SpreadWords(words, gaps);
    CollapseIsJoinedWords(Spread(words, gaps));
    hide *;
  }

  lemma {:induction false} SpreadWords(words: seq<string>, gaps: seq<string>)
    requires |gaps| == |words| + 1 && (forall g <- gaps :: Blank(g)) && forall i | 0 < i < |words| :: gaps[i] != ""
    requires forall w <- words :: w != "" && forall c <- w :: !IsWhiteSpace(c)
    ensures Words(Spread(words, gaps)) == words
    decreases |words|
  {
    assert gaps[0] in gaps;
    if words == [] {
      assert gaps[0] + "" == gaps[0];
      SkipBlanksExactly(gaps[0], "");
    } else {
      var w, more, rest := words[0], words[1..], gaps[1..];
      assert w in words && w[0] in w;
      assert forall i | 0 < i < |more| :: rest[i] == gaps[i + 1];
      assert (forall g <- rest :: g in gaps) && forall v <- more :: v in words;
      SpreadWords(more, rest);
      SpreadStarts(more, rest);
      OneWord(gaps[0], w, Spread(more, rest));
      hide Words, Blank, IsWhiteSpace;
      assert [w] + more == words;
    }
  }

  lemma OneWord(gap: string, w: string, rest: string)
    requires Blank(gap) && w != "" && (forall c <- w :: !IsWhiteSpace(c)) && (rest == "" || IsWhiteSpace(rest[0]))
    ensures Words(gap + (w + rest)) == [w] + Words(rest)
  {
    var t := w + rest;
    assert w[0] in w && t[0] == w[0];
    SkipBlanksExactly(gap, t);
    WordStops(w, rest);
    hide Word, SkipWhiteSpace;
  }

  /** The words between these blanks. */
  function Spread(words: seq<string>, gaps: seq<string>): string
    requires |gaps| == |words| + 1
  {
    gaps[0] + if words == [] then "" else words[0] + Spread(words[1..], gaps[1..])
  }

  lemma SpreadStarts(words: seq<string>, gaps: seq<string>)
    requires |gaps| == |words| + 1 && (words != [] ==> gaps[0] != "") && (forall g <- gaps :: Blank(g))
    ensures var s := Spread(words, gaps); s == "" || IsWhiteSpace(s[0])
  {
    assert gaps[0] in gaps;
    if gaps[0] != "" {
      assert gaps[0][0] in gaps[0] && Spread(words, gaps)[0] == gaps[0][0];
    }
  }

  lemma {:induction false} WordStops(w: string, rest: string)
    requires (forall c <- w :: !IsWhiteSpace(c)) && (rest == "" || IsWhiteSpace(rest[0]))
    ensures Word(w + rest) == w && (w + rest)[|w|..] == rest
    decreases |w|
  {
    if w == "" {
      assert w + rest == rest;
    } else {
      assert w[0] in w && forall c <- w[1..] :: c in w;
      assert (w + rest)[1..] == w[1..] + rest;
      WordStops(w[1..], rest);
    }
  }
}
