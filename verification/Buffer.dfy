/**
  The scanning loops over the character buffer: XMLUtil::SkipWhiteSpace, strncmp,
  StrPair::ParseName and StrPair::ParseText.
 */
module Buffer {
  import opened Options
  import opened XmlChars

  /** `while( IsWhiteSpace(*p) ) ++p` */
  method SkipBlanks(mem: array<char>, p: nat, ghost s: string) returns (q: nat)
    requires Holds(mem, p, s)
    ensures q + |SkipWhiteSpace(s)| == p + |s| && Holds(mem, q, SkipWhiteSpace(s))
    ensures mem[q] == Peek(SkipWhiteSpace(s), 0)
  {
    q := p;
    ghost var t := s;
    FirstRead(mem, q, t);
    while IsWhiteSpace(mem[q])
      invariant q + |t| == p + |s| && Holds(mem, q, t) && mem[q] == Peek(t, 0)
      invariant SkipWhiteSpace(t) == SkipWhiteSpace(s)
      decreases |t|
    {
      FirstRead(mem, q, t);
      q, t := q + 1, t[1..];
      FirstRead(mem, q, t);
    }
  }

  /** strncmp against a pattern of the pattern's length. */
  method StartsWith(mem: array<char>, p: nat, pattern: string, ghost s: string) returns (equal: bool)
    requires Holds(mem, p, s) && NUL !in pattern
    ensures equal <==> pattern <= s
  {
    var n := 0;
    while n < |pattern|
      invariant 0 <= n <= |pattern| && n <= |s| && pattern[..n] == s[..n]
    {
      HoldsFrom(mem, p, s, n);
      if mem[p + n] != pattern[n] {
        return false;
      }
      n := n + 1;
    }
    assert pattern == pattern[..n];
    return true;
  }

  /** `while ( *p && IsNameChar( *p ) ) ++p` behind a name start character. */
  method ScanName(mem: array<char>, p: nat, ghost s: string) returns (q: nat)
    requires Holds(mem, p, s)
    ensures var name := ParseName(s);
            q == p + |name| < mem.Length && mem[p..q] == name && Holds(mem, q, s[|name|..])
  {
    hide NameChars, IsNameStartChar, IsNameChar;
    FirstRead(mem, p, s);
    if mem[p] == NUL || !IsNameStartChar(mem[p]) {
      assert s[0..] == s;
      return p;
    }
    q := p;
    ghost var t, done := s, "";
    assert [] + NameChars(s) == NameChars(s);
    while mem[q] != NUL && IsNameChar(mem[q])
      invariant q == p + |done| && Holds(mem, q, t) && mem[p..q] == done && s == done + t
      invariant NameChars(s) == done + NameChars(t)
      decreases |t|
    {
      FirstRead(mem, q, t);
      NameStep(done, t);
      assert mem[p..q + 1] == done + [t[0]];
      assert t == [t[0]] + t[1..];
      Assoc(done, [t[0]], t[1..]);
      q, t, done := q + 1, t[1..], done + [t[0]];
    }
    FirstRead(mem, q, t);
    NameEnd(done, t);
    assert s[|done|..] == t;
  }

  lemma NameStep(done: string, t: string)
    requires t != [] && IsNameChar(t[0])
    ensures done + NameChars(t) == done + [t[0]] + NameChars(t[1..])
  {
    Assoc(done, [t[0]], NameChars(t[1..]));
  }

  lemma NameEnd(done: string, t: string)
    requires t != [] ==> !IsNameChar(t[0])
    ensures done + NameChars(t) == done
  {
    assert NameChars(t) == [];
  }

  /** The cut of `done + t`, given the cut of `t`. */
  function Shift(done: string, cut: Cut): Cut {
    match cut
    case NoCut => NoCut
    case Cut(text, rest) => Cut(done + text, rest)
  }

  lemma ShiftOne(done: string, c: char, cut: Cut)
    ensures Shift(done, Shift([c], cut)) == Shift(done + [c], cut)
    ensures Shift([], cut) == cut
  {
    if cut.Cut? {
      Assoc(done, [c], cut.text);
      assert [] + cut.text == cut.text;
    }
  }

  /** The search loop of StrPair::ParseText; None where it returns null. */
  method FindText(mem: array<char>, p: nat, tag: string, ghost s: string) returns (q: Option<nat>)
    requires Holds(mem, p, s) && tag != [] && NUL !in tag
    ensures match ParseText(s, tag)
            case NoCut => q == None
            case Cut(text, rest) =>
              q == Some(p + |text|) && mem[p..q.value] == text && Holds(mem, q.value + |tag|, rest)
  {
    hide ParseText, Shift;
    var i := p;
    ghost var t, done := s, "";
    ShiftOne([], tag[0], ParseText(t, tag));
    while mem[i] != NUL
      invariant i == p + |done| && Holds(mem, i, t) && mem[p..i] == done
      invariant ParseText(s, tag) == Shift(done, ParseText(t, tag))
      decreases |t|
    {
      FirstRead(mem, i, t);
      TextStep(t, tag);
      if mem[i] == tag[0] {
        var here := StartsWith(mem, i, tag, t);
        if here {
          HoldsFrom(mem, i, t, |tag|);
          CutHere(done, t[|tag|..]);
          return Some(i);
        }
      }
      assert mem[p..i + 1] == done + [t[0]];
      ShiftOne(done, t[0], ParseText(t[1..], tag));
      i, t, done := i + 1, t[1..], done + [t[0]];
    }
    FirstRead(mem, i, t);
    TextStep(t, tag);
    CutHere(done, []);
    return None;
  }

  lemma CutHere(done: string, rest: string)
    ensures Shift(done, Cut([], rest)) == Cut(done, rest)
    ensures Shift(done, NoCut) == NoCut
  {
    assert done + [] == done;
  }

  // One step of the search.
  lemma TextStep(t: string, tag: string)
    requires tag != []
    ensures t == [] ==> ParseText(t, tag) == NoCut
    ensures t != [] && tag <= t ==> ParseText(t, tag) == Cut([], t[|tag|..])
    ensures t != [] && !(tag <= t) ==> ParseText(t, tag) == Shift([t[0]], ParseText(t[1..], tag))
    ensures t != [] && tag <= t ==> tag[0] == t[0]
  {
  }
}
