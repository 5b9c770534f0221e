/**
  Texts written piece by piece, and that decoding shows each piece as what it stands for: plain characters,
  line ends, the five entities, and numbers in either notation. The pieces are written out here, apart from
  the scanners that read them.
 */
module TextPieces {
  import opened Options
  import opened XmlChars
  import opened CharRef
  import opened EntityDecoding
  import opened DecodingExact
  import opened Escaping

  // ----- numerals

  const DIGITS := "0123456789abcdef"
  const UPPER_DIGITS := "0123456789ABCDEF"

  /** The number to base 10 or 16, in small or capital letters, without leading zeros. */
  function Numeral(u: nat, hex: bool, capital: bool): (s: string)
    ensures s != []
    decreases u
  {
    var base := if hex then 16 else 10;
    var digit := (if capital then UPPER_DIGITS else DIGITS)[u % base];
    if u < base then [digit] else Numeral(u / base, hex, capital) + [digit]
  }

  function Zeros(n: nat): (s: string)
    ensures |s| == n && forall c <- s :: c == '0'
  {
    seq(n, _ => '0')
  }

  lemma DigitOf(d: nat, capital: bool)
    requires d < 16
    ensures HexDigit((if capital then UPPER_DIGITS else DIGITS)[d]) == Some(d)
    ensures d < 10 ==> DecDigit((if capital then UPPER_DIGITS else DIGITS)[d]) == Some(d)
  {
    var s := if capital then UPPER_DIGITS else DIGITS;
    if d < 10 {
      assert s[..10] == "0123456789";
      DecimalDigit(s[..10], d);
      assert s[d] == s[..10][d];
    } else if capital {
      assert UPPER_DIGITS[10..] == "ABCDEF" && UPPER_DIGITS[d] == UPPER_DIGITS[10..][d - 10];
    } else {
      assert DIGITS[10..] == "abcdef" && DIGITS[d] == DIGITS[10..][d - 10];
    }
  }

  lemma DecimalDigit(s: string, d: nat)
    requires s == "0123456789" && d < 10
    ensures HexDigit(s[d]) == Some(d) && DecDigit(s[d]) == Some(d)
  {
  }

  // No other character is a digit.
  lemma OnlyDigits(c: char)
    ensures HexDigit(c).Some? <==> c in DIGITS || c in UPPER_DIGITS
    ensures DecDigit(c).Some? <==> c in "0123456789"
  {
    if '0' <= c <= '9' {
      var d := (c - '0') as int;
      DigitOf(d, false);
      assert DIGITS[d] == c && "0123456789"[d] == c;
    } else if 'a' <= c <= 'f' {
      assert DIGITS[(c - 'a') as int + 10] == c;
    } else if 'A' <= c <= 'F' {
      assert UPPER_DIGITS[(c - 'A') as int + 10] == c;
    }
  }

  lemma {:induction false} NumeralReads(u: nat, hex: bool, capital: bool)
    ensures var s, n := Numeral(u, hex, capital), if hex then Hex else Dec;
            (forall c <- s :: n.Digit(c).Some?) && Positional(s, n) == u
    decreases u
  {
    var base, n := if hex then 16 else 10, if hex then Hex else Dec;
    var digit := (if capital then UPPER_DIGITS else DIGITS)[u % base];
    DigitOf(u % base, capital);
    DividedBy(u, base);
    hide Positional, HexDigit, DecDigit;
    if u < base {
      OneDigit(digit, n, u);
    } else {
      NumeralReads(u / base, hex, capital);
      MoreDigits(Numeral(u / base, hex, capital), digit, n, u / base, u % base);
    }
  }

  lemma DividedBy(u: nat, base: nat)
    requires base > 0
    ensures u == u / base * base + u % base
  {
  }

  lemma OneDigit(c: char, n: Notation, d: nat)
    requires n.Digit(c) == Some(d)
    ensures Positional([c], n) == d
  {
    assert [c][..0] == [];
  }

  lemma MoreDigits(s: string, c: char, n: Notation, v: nat, d: nat)
    requires (forall x <- s :: n.Digit(x).Some?) && Positional(s, n) == v && n.Digit(c) == Some(d)
    ensures (forall x <- s + [c] :: n.Digit(x).Some?) && Positional(s + [c], n) == v * n.Base() + d
  {
    assert (s + [c])[..|s|] == s;
  }

  // ----- pieces

  datatype Piece =
    | Plain(text: string)
    | LineBreak(spelling: string)
    | Named(name: string, value: char)
    | Numbered(code: nat, hex: bool, capital: bool, zeros: nat)

  const LINE_ENDS: set<string> := {"\r\n", "\n\r", "\r", "\n"}

  const NAMES: set<(string, char)> := {("quot", '"'), ("amp", '&'), ("apos", '\''), ("lt", '<'), ("gt", '>')}

  function Spelling(p: Piece): string {
    match p
    case Plain(text) => text
    case LineBreak(spelling) => spelling
    case Named(name, _) => "&" + name + ";"
    case Numbered(code, hex, capital, zeros) => (if hex then "&#x" else "&#") + (Zeros(zeros) + Numeral(code, hex, capital)) + ";"
  }

  function Meaning(p: Piece): string {
    match p
    case Plain(text) => text
    case LineBreak(_) => "\n"
    case Named(_, value) => [value]
    case Numbered(code, _, _, _) => Utf8(code)
  }

  /** What the flags ask to be read is written as a piece of its own. */
  predicate Fits(p: Piece, f: Flags) {
    match p
    case Plain(text) => (f.newlines ==> '\r' !in text && '\n' !in text) && (f.entities ==> '&' !in text)
    case LineBreak(spelling) => f.newlines && spelling in LINE_ENDS
    case Named(name, value) => f.entities && (name, value) in NAMES
    case Numbered(code, _, _, _) => f.entities && code < 0x1_0000_0000
  }

  function SpellAll(ps: seq<Piece>): string {
    if ps == [] then "" else Spelling(ps[0]) + SpellAll(ps[1..])
  }

  function MeanAll(ps: seq<Piece>): string {
    if ps == [] then "" else Meaning(ps[0]) + MeanAll(ps[1..])
  }

  /** The text behind does not make a longer line end of a lone character. */
  predicate Ends(p: Piece, behind: string) {
    p.LineBreak? && behind != "" ==> (p.spelling == "\r" ==> behind[0] != '\n') && (p.spelling == "\n" ==> behind[0] != '\r')
  }

  predicate WellWritten(ps: seq<Piece>, f: Flags) {
    ps != [] ==> Fits(ps[0], f) && Ends(ps[0], SpellAll(ps[1..])) && WellWritten(ps[1..], f)
  }

  // ----- one piece

  lemma {:induction false} PlainReads(text: string, rest: string, f: Flags)
    requires Fits(Plain(text), f)
    ensures Unescape(text + rest, f) == text + Unescape(rest, f)
    decreases |text|
  {
    hide Unescape;
    if text == "" {
      assert text + rest == rest;
      assert "" + Unescape(rest, f) == Unescape(rest, f);
    } else {
      FitsTail(text, f);
      PlainReads(text[1..], rest, f);
      PlainHead(text + rest, f);
      assert (text + rest)[1..] == text[1..] + rest && text == [text[0]] + text[1..];
      hide Fits;
      Assoc([text[0]], text[1..], Unescape(rest, f));
    }
  }

  lemma FitsTail(text: string, f: Flags)
    requires text != "" && Fits(Plain(text), f)
    ensures Fits(Plain(text[1..]), f)
    ensures (f.newlines ==> text[0] != '\r' && text[0] != '\n') && (f.entities ==> text[0] != '&')
  {
    assert text[0] in text && forall c <- text[1..] :: c in text;
  }

  lemma PlainHead(s: string, f: Flags)
    requires s != [] && (f.newlines ==> s[0] != CR && s[0] != LF) && (f.entities ==> s[0] != '&')
    ensures Unescape(s, f) == [s[0]] + Unescape(s[1..], f)
  {
    if s[0] != '&' {
      NoAmpersand(s);
    }
    hide ReadReference;
  }

  lemma BreakReads(spelling: string, rest: string, f: Flags)
    requires f.newlines && spelling in LINE_ENDS && Ends(LineBreak(spelling), rest)
    ensures Unescape(spelling + rest, f) == "\n" + Unescape(rest, f)
    ensures Normalize(spelling + rest) == "\n" + Normalize(rest)
  {
    var s := spelling + rest;
    assert |spelling| == 2 ==> s[2..] == rest && s[0] == spelling[0] && s[1] == spelling[1];
    assert |spelling| == 1 ==> s[1..] == rest && s[0] == spelling[0];
    hide ReadReference;
  }

  lemma NamedReads(name: string, value: char, rest: string)
    requires (name, value) in NAMES
    ensures var e := "&" + name + ";";
            && ReadReference(e + rest) == Some(([value], |e|)) && (e + rest)[|e|..] == rest && e[0] == '&'
            && forall i | 1 <= i < |e| :: e[i] != '&'
  {
    var e := "&" + name + ";";
    var s := e + rest;
    assert s[..|e|] == e;
    assert "&quot;"[1] == 'q' && "&amp;"[1] == 'a' && "&apos;"[1] == 'a' && "&lt;"[1] == 'l' && "&gt;"[1] == 'g';
    assert "&amp;"[2] == 'm' && "&apos;"[2] == 'p';
    assert s[1] == e[1] && s[2] == e[2];
    hide ReadNumeric;
  }

  lemma NumberedReads(p: Piece, rest: string)
    requires p.Numbered? && p.code < 0x1_0000_0000
    ensures var e := Spelling(p);
            && ReadReference(e + rest) == Some((Utf8(p.code), |e|)) && (e + rest)[|e|..] == rest && e[0] == '&'
            && forall i | 1 <= i < |e| :: e[i] != '&'
  {
    var n, zeros, digits := if p.hex then Hex else Dec, Zeros(p.zeros), Numeral(p.code, p.hex, p.capital);
    NumeralReads(p.code, p.hex, p.capital);
    LeadingZeros(zeros, digits, n);
    NumberReads(zeros + digits, n, p.code, rest);
  }

  lemma NumberReads(digits: string, n: Notation, code: nat, rest: string)
    requires digits != [] && (forall c <- digits :: n.Digit(c).Some?) && Positional(digits, n) == code < 0x1_0000_0000
    ensures var e := (if n.Hex? then "&#x" else "&#") + digits + ";";
            && ReadReference(e + rest) == Some((Utf8(code), |e|)) && (e + rest)[|e|..] == rest && e[0] == '&'
            && forall i | 1 <= i < |e| :: e[i] != '&'
  {
    var head := if n.Hex? then "&#x" else "&#";
    var e := head + digits + ";";
    NumberAt(head, digits, n, rest);
    NoNameAt(e + rest);
    OtherNotation(head, digits, n, e + rest);
    NumberInside(head, digits, n);
    hide *;
    assert (e + rest)[|e|..] == rest && (e + rest)[0] == e[0];
    ReadIs(e + rest, n);
  }

  lemma NumberAt(head: string, digits: string, n: Notation, rest: string)
    requires digits != [] && (forall c <- digits :: n.Digit(c).Some?) && Positional(digits, n) < 0x1_0000_0000
    requires head == if n.Hex? then "&#x" else "&#"
    ensures var e := head + digits + ";";
            && ReadNumeric(e + rest, n) == Some((Utf8(Positional(digits, n)), |e|))
            && |e + rest| > 2 && (e + rest)[0] == '&' && (e + rest)[1] == '#'
            && (e + rest)[2] == if n.Hex? then 'x' else digits[0]
  {
    hide DigitRun, Positional, Utf8;
    var s := head + digits + ";" + rest;
    HeadOf(head, digits, rest);
    EndOfRun(rest, n);
    RunOfDigits(digits, ";" + rest, n);
    ReadAt(s, head, digits, n);
  }

  lemma HeadOf(head: string, digits: string, rest: string)
    requires digits != [] && (head == "&#x" || head == "&#")
    ensures var s := head + digits + ";" + rest;
            && head <= s && s[|head|..] == digits + (";" + rest) && |head| + |digits| < |s| && s[|head| + |digits|] == ';'
            && |s| > 2 && s[0] == '&' && s[1] == '#' && s[2] == if head == "&#x" then 'x' else digits[0]
  {
    var s := head + digits + ";" + rest;
    assert s == head + (digits + (";" + rest));
    assert head == "&#x" ==> head[2] == 'x';
    assert |head| == 2 ==> s[2] == digits[0];
    assert "&#x" != "&#" by { assert |"&#x"| == 3; }
  }

  lemma EndOfRun(rest: string, n: Notation)
    ensures n.Digit((";" + rest)[0]) == None
  {
  }

  lemma ReadAt(s: string, head: string, digits: string, n: Notation)
    requires head == (if n.Hex? then "&#x" else "&#") && head <= s && DigitRun(s[|head|..], n) == digits && digits != []
    requires (forall c <- digits :: n.Digit(c).Some?) && Positional(digits, n) < 0x1_0000_0000
    requires |head| + |digits| < |s| && s[|head| + |digits|] == ';'
    ensures ReadNumeric(s, n) == Some((Utf8(Positional(digits, n)), |head| + |digits| + 1))
  {
    hide DigitRun, Positional, Utf8;
  }

  lemma NoNameAt(s: string)
    requires |s| > 2 && s[0] == '&' && s[1] == '#'
    ensures !("&quot;" <= s) && !("&amp;" <= s) && !("&apos;" <= s) && !("&lt;" <= s) && !("&gt;" <= s)
  {
    assert "&quot;"[1] == 'q' && "&amp;"[1] == 'a' && "&apos;"[1] == 'a' && "&lt;"[1] == 'l' && "&gt;"[1] == 'g';
  }

  lemma OtherNotation(head: string, digits: string, n: Notation, s: string)
    requires n.Dec? ==> |s| > 2 && digits != [] && n.Digit(digits[0]).Some? && s[2] == digits[0]
    ensures n.Dec? ==> ReadNumeric(s, Hex) == None
  {
    assert "&#x"[2] == 'x';
  }

  lemma NumberInside(head: string, digits: string, n: Notation)
    requires (forall c <- digits :: n.Digit(c).Some?) && head == if n.Hex? then "&#x" else "&#"
    ensures var e := head + digits + ";"; e[0] == '&' && forall i | 1 <= i < |e| :: e[i] != '&'
  {
    var e := head + digits + ";";
    assert n.Digit('&') == None;
    forall i | 1 <= i < |e|
      ensures e[i] != '&'
    {
      if |head| <= i < |e| - 1 {
        assert e[i] == digits[i - |head|];
      }
    }
  }

  lemma ReadIs(s: string, n: Notation)
    requires !("&quot;" <= s) && !("&amp;" <= s) && !("&apos;" <= s) && !("&lt;" <= s) && !("&gt;" <= s)
    requires ReadNumeric(s, n).Some? && (n.Dec? ==> ReadNumeric(s, Hex) == None)
    ensures ReadReference(s) == ReadNumeric(s, n)
  {
    hide ReadNumeric;
  }

  lemma {:induction false} RunOfDigits(digits: string, rest: string, n: Notation)
    requires (forall c <- digits :: n.Digit(c).Some?) && (rest != "" ==> n.Digit(rest[0]) == None)
    ensures DigitRun(digits + rest, n) == digits
    decreases |digits|
  {
    if digits == [] {
      assert digits + rest == rest;
    } else {
      assert digits[0] in digits && forall c <- digits[1..] :: c in digits;
      assert (digits + rest)[1..] == digits[1..] + rest;
      RunOfDigits(digits[1..], rest, n);
    }
  }

  lemma ReferenceStep(e: string, rest: string, text: string, f: Flags)
    requires f.entities && e != [] && e[0] == '&' && (e + rest)[|e|..] == rest && ReadReference(e + rest) == Some((text, |e|))
    ensures Unescape(e + rest, f) == text + Unescape(rest, f)
  {
    assert (e + rest)[0] == '&';
    hide ReadReference;
  }

  lemma PieceReads(p: Piece, rest: string, f: Flags)
    requires Fits(p, f) && Ends(p, rest)
    ensures Unescape(Spelling(p) + rest, f) == Meaning(p) + Unescape(rest, f)
    ensures f.entities && AmpersandsAreReferences(rest) ==> AmpersandsAreReferences(Spelling(p) + rest)
  {
    hide Unescape, ReadReference, Utf8, AmpersandsAreReferences;
    match p
    case Plain(text) =>
      PlainReads(text, rest, f);
      if f.entities {
        PlainAmpersands(text, rest);
      }
    case LineBreak(spelling) =>
      BreakReads(spelling, rest, f);
      PlainAmpersands(spelling, rest);
    case Named(name, value) =>
      NamedReads(name, value, rest);
      ReferenceStep("&" + name + ";", rest, [value], f);
      if AmpersandsAreReferences(rest) {
        ReferencesJoin("&" + name + ";", rest);
      }
    case Numbered(code, _, _, _) =>
      NumberedReads(p, rest);
      ReferenceStep(Spelling(p), rest, Utf8(code), f);
      if AmpersandsAreReferences(rest) {
        ReferencesJoin(Spelling(p), rest);
      }
  }

  lemma PlainAmpersands(text: string, rest: string)
    requires '&' !in text
    ensures AmpersandsAreReferences(rest) ==> AmpersandsAreReferences(text + rest)
  {
    hide ReadReference;
    if AmpersandsAreReferences(rest) {
      forall i | 0 <= i < |text + rest| && (text + rest)[i] == '&'
        ensures ReadReference((text + rest)[i..]).Some?
      {
        NotIn('&', text, rest, i);
        assert (text + rest)[i..] == rest[i - |text|..];
      }
    }
  }

  lemma NotIn(c: char, a: string, b: string, i: nat)
    requires c !in a && i < |a + b|
    ensures (a + b)[i] == c ==> i >= |a|
  {
    assert i < |a| ==> a[i] in a;
  }

  // ----- whole texts

  lemma {:induction false} PiecesRead(ps: seq<Piece>, f: Flags)
    requires WellWritten(ps, f)
    ensures Unescape(SpellAll(ps), f) == MeanAll(ps)
    ensures f.entities ==> AmpersandsAreReferences(SpellAll(ps))
    decreases |ps|
  {
    if ps != [] {
      PiecesRead(ps[1..], f);
      PieceReads(ps[0], SpellAll(ps[1..]), f);
      hide Unescape, AmpersandsAreReferences, Spelling, Meaning;
    }
  }

  // So normalising a text that is not escaped puts one line feed where each line end was.
  lemma PiecesNormalize(ps: seq<Piece>)
    requires WellWritten(ps, COMMENT)
    ensures Normalize(SpellAll(ps)) == MeanAll(ps)
  {
    PiecesRead(ps, COMMENT);
    UnescapeComment(SpellAll(ps));
  }

  // Decoding in place shows every piece as what it stands for, for all flags.
  lemma PiecesDecode(ps: seq<Piece>, f: Flags)
    requires WellWritten(ps, f)
    ensures Decode(SpellAll(ps), f) == Decoded(MeanAll(ps))
  {
    PiecesRead(ps, f);
    hide *;
    DecodeIsUnescape(SpellAll(ps), f);
  }

  // A line end between two plain texts becomes one line feed.
  lemma LineEndBetween(a: string, end: string, b: string, f: Flags)
    requires Fits(Plain(a), f) && Fits(LineBreak(end), f) && Fits(Plain(b), f)
    ensures Decode(a + end + b, f) == Decoded(a + "\n" + b)
  {
    var more := [LineBreak(end), Plain(b)];
    var ps := [Plain(a)] + more;
    BreakThenPlain(end, b, f);
    assert ps[1..] == more && ps[0] == Plain(a);
    assert SpellAll(ps) == a + (end + b) == a + end + b && MeanAll(ps) == a + ("\n" + b) == a + "\n" + b;
    hide SpellAll, MeanAll;
    assert WellWritten(ps, f);
    PiecesDecode(ps, f);
    hide *;
  }

  lemma BreakThenPlain(end: string, b: string, f: Flags)
    requires Fits(LineBreak(end), f) && Fits(Plain(b), f)
    ensures var ps := [LineBreak(end), Plain(b)];
            WellWritten(ps, f) && SpellAll(ps) == end + b && MeanAll(ps) == "\n" + b
  {
    var last, ps := [Plain(b)], [LineBreak(end), Plain(b)];
    PlainAlone(b, f);
    assert ps[1..] == last;
    if b != "" {
      assert b[0] in b;
    }
    assert Ends(ps[0], b);
  }

  lemma PlainAlone(b: string, f: Flags)
    requires Fits(Plain(b), f)
    ensures WellWritten([Plain(b)], f) && SpellAll([Plain(b)]) == b && MeanAll([Plain(b)]) == b
  {
    var last := [Plain(b)];
    assert last[1..] == [] && last[0] == Plain(b);
    assert SpellAll([]) == "" && MeanAll([]) == "" && WellWritten([], f);
    assert b + "" == b;
  }

  // A carriage return and a line feed, in either order, are one line end.
  lemma LineEndExample()
    ensures Decode("a\r\nb", TEXT_ELEMENT) == Decoded("a\nb") && Decode("a\n\rb", COMMENT) == Decoded("a\nb")
  {
    LineEndBetween("a", "\r\n", "b", TEXT_ELEMENT);
    LineEndBetween("a", "\n\r", "b", COMMENT);
    assert "a" + "\r\n" + "b" == "a\r\nb" && "a" + "\n\r" + "b" == "a\n\rb" && "a" + "\n" + "b" == "a\nb";
    hide *;
  }
}
