/**
  Characters and C strings of the tinyxml2 engine.

  A C `char` is a Dafny `char`; a byte with the high bit set is a character in 128..255.
  A C string is a `string`: the terminating NUL is not part of it, and `Peek` reads
  past its end the way the C code reads the terminator.
 */
module XmlChars {
  const LF: char := '\n'
  const CR: char := '\r'
  const NUL: char := '\0'

  lemma Assoc(a: string, b: string, c: string)
    ensures a + b + c == a + (b + c)
  {
  }

  /** The prefix of a buffer up to its first NUL. */
  function CString(s: string): (r: string)
    ensures NUL !in r
    ensures r <= s
    ensures r == s <==> NUL !in s
  {
    if s == [] || s[0] == NUL then [] else [s[0]] + CString(s[1..])
  }

  lemma {:induction false} CStringStops(s: string)
    ensures NUL !in CString(s) && |CString(s)| <= |s| && CString(s) == s[..|CString(s)|]
    ensures |CString(s)| < |s| ==> s[|CString(s)|] == NUL
  {
    if s != [] && s[0] != NUL {
      CStringStops(s[1..]);
    }
  }

  /** What `*(p + i)` reads when `s` is the string at `p`. */
  function Peek(s: string, i: nat): char
    requires i <= |s|
  {
    if i < |s| then s[i] else NUL
  }

  // isspace in the C locale; bytes of 128 and above are never blank.
  predicate IsWhiteSpace(c: char) {
    c == ' ' || '\t' <= c <= '\r'
  }

  predicate IsAlpha(c: char) {
    'a' <= c <= 'z' || 'A' <= c <= 'Z'
  }

  predicate IsDigit(c: char) {
    '0' <= c <= '9'
  }

  predicate IsNameStartChar(c: char) {
    c as int >= 128 || IsAlpha(c) || c == ':' || c == '_'
  }

  predicate IsNameChar(c: char) {
    IsNameStartChar(c) || IsDigit(c) || c == '.' || c == '-'
  }

  /** A name that the parser reads back whole. */
  predicate IsName(s: string) {
    s != [] && IsNameStartChar(s[0]) && forall c <- s :: IsNameChar(c)
  }

  const BLANKS := " \t\n\U{0B}\U{0C}\r"
  const CAPITALS := "ABCDEFGHIJKLMNOPQRSTUVWXYZ"
  const SMALLS := "abcdefghijklmnopqrstuvwxyz"
  const FIGURES := "0123456789"

  // The character classes, one character at a time: six blanks; letters, colon, underscore and all bytes from 128 on
  // start a name, which digits, full stops and hyphens may continue.
  lemma CharacterClasses(c: char)
    ensures IsWhiteSpace(c) <==> c in BLANKS
    ensures IsNameStartChar(c) <==> c in CAPITALS || c in SMALLS || c == ':' || c == '_' || c as int >= 128
    ensures IsNameChar(c) <==> IsNameStartChar(c) || c in FIGURES || c == '.' || c == '-'
  {
    CapitalLetters(c);
    SmallLetters(c);
    Figures(c);
    assert BLANKS[0] == ' ' && BLANKS[1] == '\t' && BLANKS[2] == '\n' && BLANKS[3] == '\U{0B}' && BLANKS[4] == '\U{0C}'
      && BLANKS[5] == '\r';
    assert IsWhiteSpace(c) ==> c == ' ' || c as int == 9 || c as int == 10 || c as int == 11 || c as int == 12 || c as int == 13;
  }

  lemma CapitalLetters(c: char)
    ensures 'A' <= c <= 'Z' <==> c in CAPITALS
  {
    if 'A' <= c <= 'Z' {
      assert CAPITALS[(c - 'A') as int] == c;
    }
  }

  lemma SmallLetters(c: char)
    ensures 'a' <= c <= 'z' <==> c in SMALLS
  {
    if 'a' <= c <= 'z' {
      assert SMALLS[(c - 'a') as int] == c;
    }
  }

  lemma Figures(c: char)
    ensures IsDigit(c) <==> c in FIGURES
  {
    if '0' <= c <= '9' {
      assert FIGURES[(c - '0') as int] == c;
    }
  }

  predicate Blank(s: string) {
    forall c <- s :: IsWhiteSpace(c)
  }

  function SkipWhiteSpace(s: string): (r: string)
    ensures |r| <= |s|
    ensures r != [] ==> !IsWhiteSpace(r[0])
  {
    if s != [] && IsWhiteSpace(s[0]) then SkipWhiteSpace(s[1..]) else s
  }

  // What is skipped is a blank prefix.
  lemma {:induction false} SkippedIsBlank(s: string)
    ensures var r := SkipWhiteSpace(s);
            s == s[..|s| - |r|] + r && Blank(s[..|s| - |r|])
  {
    if s != [] && IsWhiteSpace(s[0]) {
      SkippedIsBlank(s[1..]);
      var r := SkipWhiteSpace(s[1..]);
      assert s[..|s| - |r|] == [s[0]] + s[1..][..|s[1..]| - |r|];
    }
  }

  // Blanks in front of a non-blank are skipped exactly.
  lemma {:induction false} SkipBlanksExactly(w: string, s: string)
    requires Blank(w)
    requires s == [] || !IsWhiteSpace(s[0])
    ensures SkipWhiteSpace(w + s) == s
  {
    if w == [] {
      assert w + s == s;
    } else {
      assert (w + s)[1..] == w[1..] + s;
      SkipBlanksExactly(w[1..], s);
    }
  }

  /** The longest prefix of name characters. */
  function NameChars(s: string): (r: string)
    ensures |r| <= |s|
  {
    if s != [] && IsNameChar(s[0]) then [s[0]] + NameChars(s[1..]) else []
  }

  /** `[]` where `StrPair::ParseName` returns null. */
  function ParseName(s: string): (r: string)
    ensures |r| <= |s|
    ensures r == [] <==> s == [] || !IsNameStartChar(s[0])
  {
    if s != [] && IsNameStartChar(s[0]) then NameChars(s) else []
  }

  // A parsed name is a legal name, and as long as it can be.
  lemma {:induction false} NameCharsAreLongest(s: string)
    ensures var r := NameChars(s);
            && r == s[..|r|] && (forall c <- r :: IsNameChar(c))
            && (|r| < |s| ==> !IsNameChar(s[|r|]))
  {
    if s != [] && IsNameChar(s[0]) {
      NameCharsAreLongest(s[1..]);
    }
  }

  lemma {:induction false} NameCharsStop(n: string, s: string)
    requires forall c <- n :: IsNameChar(c)
    requires s == [] || !IsNameChar(s[0])
    ensures NameChars(n + s) == n
  {
    if n == [] {
      assert n + s == s;
    } else {
      assert (n + s)[1..] == n[1..] + s;
      NameCharsStop(n[1..], s);
    }
  }

  lemma ParseNameStops(n: string, s: string)
    requires IsName(n)
    requires s == [] || !IsNameChar(s[0])
    ensures ParseName(n + s) == n
    ensures (n + s)[|n|..] == s
  {
    NameCharsStop(n, s);
  }

  /** What `StrPair::ParseText` finds: the text before the first `tag`, and what follows it. */
  datatype Cut = NoCut | Cut(text: string, rest: string)

  function ParseText(s: string, tag: string): (r: Cut)
    requires tag != []
    ensures r.Cut? ==> |s| == |r.text| + |tag| + |r.rest|
  {
    if s == [] then NoCut
    else if tag <= s then Cut([], s[|tag|..])
    else
      match ParseText(s[1..], tag)
      case NoCut => NoCut
      case Cut(text, rest) => Cut([s[0]] + text, rest)
  }

  // ParseText cuts at the first occurrence, and fails exactly where there is none.
  lemma {:induction false} ParseTextIsFirst(s: string, tag: string)
    requires tag != []
    ensures match ParseText(s, tag)
            case NoCut => forall i | 0 <= i <= |s| :: !(tag <= s[i..])
            case Cut(text, rest) => s == text + tag + rest && forall i | 0 <= i < |text| :: !(tag <= s[i..])
  {
    if s != [] && !(tag <= s) {
      ParseTextIsFirst(s[1..], tag);
      forall i | 1 <= i <= |s|
        ensures s[i..] == s[1..][i - 1..]
      {
      }
      assert s[0..] == s;
    } else if s != [] {
      assert s == tag + s[|tag|..];
    }
  }

  // The first occurrence is the only answer.
  lemma {:induction false} ParseTextFinds(text: string, tag: string, rest: string)
    requires tag != []
    requires forall i | 0 <= i < |text| :: !(tag <= (text + tag + rest)[i..])
    ensures ParseText(text + tag + rest, tag) == Cut(text, rest)
  {
    var s := text + tag + rest;
    if text == [] {
      assert s == tag + rest;
    } else {
      assert !(tag <= s) by { assert s[0..] == s; }
      assert s[1..] == text[1..] + tag + rest;
      forall i | 0 <= i < |text[1..]|
        ensures !(tag <= (text[1..] + tag + rest)[i..])
      {
        assert s[1..][i..] == s[i + 1..];
      }
      ParseTextFinds(text[1..], tag, rest);
      assert [s[0]] + text[1..] == text;
    }
  }

  /** `mem` holds the C string `s` at `p`. */
  ghost predicate Holds(mem: array<char>, p: nat, s: string)
    reads mem
  {
    p + |s| < mem.Length && mem[p..p + |s|] == s && NUL !in s && mem[p + |s|] == NUL
  }

  // Reading the first character, and moving on.
  lemma FirstRead(mem: array<char>, p: nat, t: string)
    requires Holds(mem, p, t)
    ensures mem[p] == Peek(t, 0)
    ensures t != [] ==> Holds(mem, p + 1, t[1..]) && t[0] != NUL
  {
    if t != [] {
      assert mem[p..p + |t|][0] == t[0];
      assert mem[p + 1..p + |t|] == mem[p..p + |t|][1..];
    }
  }

  // Moving on by several characters.
  lemma HoldsFrom(mem: array<char>, p: nat, t: string, k: nat)
    requires Holds(mem, p, t) && k <= |t|
    ensures Holds(mem, p + k, t[k..]) && mem[p + k] == Peek(t, k)
    ensures mem[p..p + k] == t[..k]
  {
    var now := mem[p..p + |t|];
    assert now[k..] == mem[p + k..p + |t|];
    assert now[..k] == mem[p..p + k];
    assert k < |t| ==> mem[p + k] == now[k];
  }
}
