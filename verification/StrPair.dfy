/**
  StrPair: a stretch of the parse buffer that is decoded in place on first use.
 */
module StrPair {
  import opened Options
  import opened XmlChars
  import opened CharRef
  import opened EntityDecoding
  import opened NullReferences
  import opened Buffer

  /** What the caller sees of a decoded text: C strings end at the first NUL. */
  function Visible(text: string, f: Flags): string {
    if f.collapse then Collapse(CString(text)) else CString(text)
  }

  /** The buffer at `start` holds `raw` with its first |out| characters overwritten by `out`. */
  ghost predicate Rewritten(mem: array<char>, start: nat, raw: string, out: string)
    requires |out| <= |raw|
    reads mem
  {
    start + |raw| < mem.Length && NUL !in raw
    && mem[start..start + |raw|] == out + raw[|out|..]
    && mem[start + |raw|] == NUL
  }

  // Reading at or behind the write position still sees the original text.
  lemma ReadsOriginal(mem: array<char>, start: nat, raw: string, out: string, p: nat)
    requires |out| <= p <= |raw| && Rewritten(mem, start, raw, out)
    ensures Holds(mem, start + p, raw[p..])
    ensures p < |raw| ==> mem[start + p] == raw[p]
    ensures mem[start + |out|] == Peek(raw, |out|)
  {
    var now := mem[start..start + |raw|];
    assert now[p..] == raw[p..];
    assert now[p..] == mem[start + p..start + |raw|];
    assert p < |raw| ==> now[p] == raw[p];
    assert |out| < |raw| ==> now[|out|] == raw[|out|];
  }

  lemma WithSemicolon(s: string, pattern: string)
    ensures pattern + ";" <= s <==> pattern <= s && |pattern| < |s| && s[|pattern|] == ';'
  {
    if pattern <= s && |pattern| < |s| && s[|pattern|] == ';' {
      assert s[..|pattern| + 1] == pattern + ";";
    }
    if pattern + ";" <= s {
      assert s[..|pattern|] == (pattern + ";")[..|pattern|] == pattern;
    }
  }

  /** The search of the entity table behind an ampersand. */
  method LookUpEntity(mem: array<char>, at: nat, ghost s: string) returns (i: nat)
    requires Holds(mem, at, s)
    ensures i == FindEntity(s, 0)
  {
    hide FindEntity;
    i := 0;
    while i < NUM_ENTITIES
      invariant 0 <= i <= NUM_ENTITIES && FindEntity(s, 0) == FindEntity(s, i)
    {
      var pattern := ENTITIES[i].pattern;
      assert NUL !in pattern;
      var equal := StartsWith(mem, at, pattern, s);
      WithSemicolon(s, pattern);
      FindEntityStep(s, i);
      if equal {
        HoldsFrom(mem, at, s, |pattern|);
        if mem[at + |pattern|] == ';' {
          return;
        }
      }
      i := i + 1;
    }
    FindEntityEnd(s);
  }

  lemma FindEntityStep(s: string, i: nat)
    requires i < NUM_ENTITIES
    ensures FindEntity(s, i) == if ENTITIES[i].pattern + ";" <= s then i else FindEntity(s, i + 1)
  {
  }

  lemma FindEntityEnd(s: string)
    ensures FindEntity(s, NUM_ENTITIES) == NUM_ENTITIES
  {
  }

  class StrPair {
    var mem: array<char>
    var start: nat
    var end: nat
    var flags: Flags
    var needsFlush: bool

    ghost predicate Valid()
      reads this, mem
    {
      start <= end < mem.Length && NUL !in mem[start..end]
    }

    /** The undecoded text. */
    ghost function Raw(): string
      requires Valid()
      reads this, mem
    {
      mem[start..end]
    }

    constructor (mem: array<char>, start: nat, end: nat, flags: Flags)
      requires start <= end < mem.Length && NUL !in mem[start..end]
      ensures Valid() && needsFlush
      ensures this.mem == mem && this.start == start && this.end == end && this.flags == flags
    {
      this.mem, this.start, this.end := mem, start, end;
      this.flags, this.needsFlush := flags, true;
    }

    /** One iteration of the decoding loop: reads at `p`, writes at |out|; false where the code dereferences null. */
    method DecodeOne(p: nat, ghost raw: string, ghost out: string, q: nat) returns (ok: bool, p': nat, q': nat)
      requires |out| == q <= p < |raw| && end == start + |raw| && Rewritten(mem, start, raw, out)
      modifies mem
      ensures match DecodeStep(raw, p, q, flags)
              case Crash => !ok
              case Step(bytes, size) =>
                ok && p' == p + size && q' == q + |bytes| && Rewritten(mem, start, raw, out + bytes)
      ensures forall i | 0 <= i < mem.Length && !(start <= i < end) :: mem[i] == old(mem[i])
    {
      hide CharacterRef, FindEntity, Rewritten, Holds;
      ReadsOriginal(mem, start, raw, out, p);
      ReadsOriginal(mem, start, raw, out, p + 1);
      var c := mem[start + p];
      var next := mem[start + p + 1];
      assert c == raw[p..][0] && next == Peek(raw[p..], 1);
      if flags.newlines && (c == CR || c == LF) {
        p' := if next == (if c == CR then LF else CR) then p + 2 else p + 1;
        PutOne(raw, out, q, LF);
        return true, p', q + 1;
      } else if flags.entities && c == '&' {
        if next == '#' {
          ok, p', q' := DecodeNumeric(p, raw, out, q);
        } else {
          p' := DecodeNamed(p, raw, out, q);
          return true, p', q + 1;
        }
      } else {
        PutOne(raw, out, q, c);
        return true, p + 1, q + 1;
      }
    }

    method DecodeNumeric(p: nat, ghost raw: string, ghost out: string, q: nat) returns (ok: bool, p': nat, q': nat)
      requires |out| == q <= p && p + 1 < |raw| && end == start + |raw| && Rewritten(mem, start, raw, out)
      requires raw[p] == '&' && raw[p + 1] == '#'
      modifies mem
      ensures match CharacterRef(raw[p..])
              case BadRef => !ok
              case Ref(bytes, size) =>
                ok && p' == p + size && q' == q + |bytes| && q' <= p' <= |raw| && Rewritten(mem, start, raw, out + bytes)
      ensures forall i | 0 <= i < mem.Length && !(start <= i < end) :: mem[i] == old(mem[i])
    {
      hide *;
      RefNeverGrows(raw[p..]);
      ReadsOriginal(mem, start, raw, out, p);
      var buf := new char[10];
      var after, len := GetCharacterRef(mem, start + p, buf, raw[p..]);
      if after == None {
        return false, p, q;
      }
      PutAll(raw, out, q, buf, len);
      return true, after.value - start, q + len;
    }

    method DecodeNamed(p: nat, ghost raw: string, ghost out: string, q: nat) returns (p': nat)
      requires |out| == q <= p < |raw| && end == start + |raw| && Rewritten(mem, start, raw, out)
      modifies mem
      ensures var i := FindEntity(raw[p..][1..], 0);
              if i == NUM_ENTITIES then p' == p + 1 && Rewritten(mem, start, raw, out + [raw[q]])
              else p' == p + |ENTITIES[i].pattern| + 2 && Rewritten(mem, start, raw, out + [ENTITIES[i].value])
      ensures forall i | 0 <= i < mem.Length && !(start <= i < end) :: mem[i] == old(mem[i])
    {
      hide FindEntity;
      ReadsOriginal(mem, start, raw, out, p + 1);
      assert raw[p..][1..] == raw[p + 1..];
      var i := LookUpEntity(mem, start + p + 1, raw[p + 1..]);
      if i == NUM_ENTITIES {
        KeepOne(raw, out);
        return p + 1;
      }
      PutOne(raw, out, q, ENTITIES[i].value);
      return p + |ENTITIES[i].pattern| + 2;
    }

    /** `*q++ = c` */
    method PutOne(ghost raw: string, ghost out: string, q: nat, c: char)
      requires |out| == q < |raw| && end == start + |raw| && Rewritten(mem, start, raw, out)
      modifies mem
      ensures Rewritten(mem, start, raw, out + [c])
      ensures forall i | 0 <= i < mem.Length && !(start <= i < end) :: mem[i] == old(mem[i])
    {
      ghost var before := mem[start..start + |raw|];
      mem[start + q] := c;
      assert mem[start..start + |raw|] == before[q := c];
      assert before[q := c] == out + [c] + raw[q + 1..];
    }

    /** `memcpy(q, buf, len)` */
    method PutAll(ghost raw: string, ghost out: string, q: nat, buf: array<char>, len: nat)
      requires |out| == q && q + len <= |raw| && len <= buf.Length && buf != mem
      requires end == start + |raw| && Rewritten(mem, start, raw, out)
      modifies mem
      ensures Rewritten(mem, start, raw, out + buf[..len])
      ensures forall i | 0 <= i < mem.Length && !(start <= i < end) :: mem[i] == old(mem[i])
    {
      for k := 0 to len
        invariant Rewritten(mem, start, raw, out + buf[..k])
        invariant forall i | 0 <= i < mem.Length && !(start <= i < end) :: mem[i] == old(mem[i])
      {
        PutOne(raw, out + buf[..k], q + k, buf[k]);
        assert out + buf[..k + 1] == out + buf[..k] + [buf[k]];
      }
    }

    lemma KeepOne(raw: string, out: string)
      requires |out| < |raw| && Rewritten(mem, start, raw, out)
      ensures Rewritten(mem, start, raw, out + [raw[|out|]])
    {
      assert out + raw[|out|..] == out + [raw[|out|]] + raw[|out| + 1..];
    }

    /** The decoding loop, in place: the write position never passes the read position. */
    method DecodeLoop(ghost raw: string) returns (ok: bool)
      requires end == start + |raw| && Rewritten(mem, start, raw, "")
      modifies mem
      ensures match Decode(raw, flags)
              case BadReference => !ok
              case Decoded(text) =>
                ok && |text| <= |raw| && mem[start..start + |text|] == text && mem[start + |text|] == NUL
      ensures forall i | 0 <= i < mem.Length && !(start <= i <= end) :: mem[i] == old(mem[i])
      ensures mem[end] == NUL
    {
      hide DecodeStep;
      var p, q := 0, 0;
      ghost var out := "";
      while start + p < end
        invariant |out| == q <= p <= |raw| && Rewritten(mem, start, raw, out)
        invariant DecodeFrom(raw, p, out, flags) == Decode(raw, flags)
        invariant forall i | 0 <= i < mem.Length && !(start <= i < end) :: mem[i] == old(mem[i])
        decreases |raw| - p
      {
        ghost var step := DecodeStep(raw, p, q, flags);
        ok, p, q := DecodeOne(p, raw, out, q);
        if !ok {
          return;
        }
        out := out + step.bytes;
      }
      assert mem[start..start + |raw|][..q] == out;
      mem[start + q] := NUL;
      assert mem[start..start + q] == out;
      return true;
    }

    /** The copying loop of CollapseWhitespace, from a first character that is not blank. */
    method CopyCollapsed(ghost whole: string)
      requires Holds(mem, start, whole)
      modifies mem
      ensures Holds(mem, start, CollapseFrom(whole))
      ensures forall i | 0 <= i < mem.Length && !(start <= i <= start + |whole|) :: mem[i] == old(mem[i])
    {
      hide CollapseFrom, SkipWhiteSpace;
      var p, q, more := start, start, true;
      ghost var t, out := whole, "";
      CollapseEnd();
      while more && mem[p] != NUL
        invariant start <= q <= p && p + |t| == start + |whole| && q == start + |out|
        invariant Holds(mem, p, t) && mem[start..q] == out && NUL !in out
        invariant out + CollapseFrom(t) == CollapseFrom(whole)
        invariant !more ==> t == []
        invariant forall i | 0 <= i < mem.Length && !(start <= i <= start + |whole|) :: mem[i] == old(mem[i])
        decreases |t|, more
      {
        FirstRead(mem, p, t);
        if IsWhiteSpace(mem[p]) {
          ghost var u := SkipWhiteSpace(t);
          q, p := CopyBlank(q, p, t, out);
          more := mem[p] != NUL;
          out := if u == [] then out else out + [' '];
          t := u;
        }
        if more {
          q, p := CopyOne(q, p, t, out);
          t, out := t[1..], out + [t[0]];
        }
      }
      FirstRead(mem, p, t);
      assert out + CollapseFrom([]) == out;
      Terminate(q, out);
    }

    /** `*q = 0` */
    method Terminate(q: nat, ghost out: string)
      requires start + |out| == q < mem.Length && mem[start..q] == out && NUL !in out
      modifies mem
      ensures Holds(mem, start, out)
      ensures forall i | 0 <= i < mem.Length && i != q :: mem[i] == old(mem[i])
    {
      mem[q] := NUL;
      assert mem[start..q] == out;
    }

    /** `*q++ = *p++` */
    method CopyOne(q: nat, p: nat, ghost t: string, ghost out: string) returns (q': nat, p': nat)
      requires start + |out| == q <= p && Holds(mem, p, t) && mem[start..q] == out
      requires t != [] && !IsWhiteSpace(t[0])
      modifies mem
      ensures q' == q + 1 && p' == p + 1 && Holds(mem, p', t[1..]) && mem[start..q'] == out + [t[0]]
      ensures out + CollapseFrom(t) == out + [t[0]] + CollapseFrom(t[1..])
      ensures forall i | 0 <= i < mem.Length && i != q :: mem[i] == old(mem[i])
    {
      CollapseHead(t);
      hide CollapseFrom;
      FirstRead(mem, p, t);
      q' := Put(q, mem[p], p + 1, t[1..], out);
      Assoc(out, [t[0]], CollapseFrom(t[1..]));
      return q', p + 1;
    }

    /** The blank a run of white space becomes, or the end of the text. */
    method CopyBlank(q: nat, p: nat, ghost t: string, ghost out: string) returns (q': nat, p': nat)
      requires start + |out| == q <= p && Holds(mem, p, t) && mem[start..q] == out
      requires t != [] && IsWhiteSpace(t[0])
      modifies mem
      ensures var u := SkipWhiteSpace(t);
              && Holds(mem, p', u) && p' + |u| == p + |t|
              && q' <= p' && (mem[p'] == NUL <==> u == [])
              && (u == [] ==> q' == q && mem[start..q'] == out && CollapseFrom(t) == [])
              && (u != [] ==> q' == q + 1 && mem[start..q'] == out + [' '])
              && (u != [] ==> out + CollapseFrom(t) == out + [' '] + CollapseFrom(u))
      ensures forall i | 0 <= i < mem.Length && i != q :: mem[i] == old(mem[i])
    {
      CollapseBlanks(t);
      hide CollapseFrom, SkipWhiteSpace;
      ghost var u := SkipWhiteSpace(t);
      p' := SkipBlanks(mem, p, t);
      FirstRead(mem, p', u);
      if mem[p'] == NUL {
        return q, p';
      }
      q' := Put(q, ' ', p', u, out);
      FirstRead(mem, p', u);
      Assoc(out, [' '], CollapseFrom(u));
    }

    /** `*q++ = c` behind the unread text `t` at `p`. */
    method Put(q: nat, c: char, p: nat, ghost t: string, ghost out: string) returns (q': nat)
      requires start + |out| == q < p && Holds(mem, p, t) && mem[start..q] == out
      modifies mem
      ensures q' == q + 1 && Holds(mem, p, t) && mem[start..q'] == out + [c]
      ensures forall i | 0 <= i < mem.Length && i != q :: mem[i] == old(mem[i])
    {
      ghost var before := mem[p..p + |t|];
      mem[q] := c;
      assert mem[p..p + |t|] == before;
      assert mem[start..q + 1] == mem[start..q] + [c];
      return q + 1;
    }

    method CollapseWhitespace(ghost s: string)
      requires Holds(mem, start, s)
      modifies this`start, mem
      ensures old(start) <= start && start + |Collapse(s)| <= old(start) + |s|
      ensures Holds(mem, start, Collapse(s))
      ensures forall i | 0 <= i < mem.Length && !(old(start) <= i <= old(start) + |s|) :: mem[i] == old(mem[i])
    {
      start := SkipBlanks(mem, start, s);
      ghost var t := SkipWhiteSpace(s);
      FirstRead(mem, start, t);
      if mem[start] != NUL {
        CopyCollapsed(t);
      }
    }

    /** The C string at the start of the pair: what a later GetStr returns unchanged. */
    ghost predicate Shows(s: string)
      reads this, mem
    {
      !needsFlush && Holds(mem, start, s)
    }

    /**
      Decodes the text on first use; later calls change nothing. The result is false
      where the code would dereference a null pointer.
     */
    method GetStr() returns (ok: bool)
      requires needsFlush ==> Valid()
      modifies this`start, this`needsFlush, this`flags, mem
      ensures !old(needsFlush) ==> ok && unchanged(this) && unchanged(mem)
      ensures old(needsFlush) ==>
                match Decode(old(Raw()), old(flags))
                case BadReference => !ok
                case Decoded(text) => ok && flags == NAME && Shows(Visible(text, old(flags)))
      ensures !ok <==> old(needsFlush) && old(flags).entities && MeetsUndelimited(old(Raw()))
      ensures forall i | 0 <= i < mem.Length && !(old(start) <= i <= old(end)) :: mem[i] == old(mem[i])
    {
      hide *;
      if !needsFlush {
        return true;
      }
      ok := FirstUse();
    }

    /** The first branch of GetStr. */
    method FirstUse() returns (ok: bool)
      requires Valid()
      modifies this`start, this`needsFlush, this`flags, mem
      ensures match Decode(old(Raw()), old(flags))
              case BadReference => !ok
              case Decoded(text) => ok && flags == NAME && Shows(Visible(text, old(flags)))
      ensures !ok <==> old(flags).entities && MeetsUndelimited(old(Raw()))
      ensures forall i | 0 <= i < mem.Length && !(old(start) <= i <= old(end)) :: mem[i] == old(mem[i])
    {
      hide MeetsUndelimited, Decode, Visible, Rewritten, Holds;
      ghost var raw := Raw();
      CrashesIff(raw, flags);
      Close(raw);
      if flags != NAME {
        ok := Flush(raw);
      } else {
        Unflagged(mem, start, raw);
        ok := true;
      }
      flags := NAME;
    }

    /** `*_end = 0` */
    method Close(ghost raw: string)
      requires Valid() && raw == Raw()
      modifies this`needsFlush, mem
      ensures !needsFlush && end == start + |raw| && Rewritten(mem, start, raw, "")
      ensures forall i | 0 <= i < mem.Length && i != end :: mem[i] == old(mem[i])
    {
      mem[end] := NUL;
      needsFlush := false;
      assert mem[start..end] == raw == [] + raw[0..];
    }

    method Flush(ghost raw: string) returns (ok: bool)
      requires end == start + |raw| && Rewritten(mem, start, raw, "")
      modifies this`start, mem
      ensures match Decode(raw, flags)
              case BadReference => !ok
              case Decoded(text) => ok && Holds(mem, start, Visible(text, flags))
      ensures forall i | 0 <= i < mem.Length && !(old(start) <= i <= end) :: mem[i] == old(mem[i])
    {
      ok := DecodeLoop(raw);
      hide Decode, Collapse, CString;
      if ok {
        ghost var text := Decode(raw, flags).text;
        CStringHolds(mem, start, text);
        if flags.collapse {
          CollapseWhitespace(CString(text));
        }
      }
    }
  }

  lemma CStringHolds(mem: array<char>, start: nat, text: string)
    requires start + |text| < mem.Length && mem[start..start + |text|] == text && mem[start + |text|] == NUL
    ensures Holds(mem, start, CString(text))
  {
    hide *;
    CStringStops(text);
    PrefixHolds(mem, start, text, CString(text));
  }

  lemma PrefixHolds(mem: array<char>, start: nat, text: string, c: string)
    requires start + |text| < mem.Length && mem[start..start + |text|] == text && mem[start + |text|] == NUL
    requires |c| <= |text| && c == text[..|c|] && NUL !in c && (|c| < |text| ==> text[|c|] == NUL)
    ensures Holds(mem, start, c)
  {
    SliceOf(mem, start, start + |text|, start + |c|);
  }

  lemma SliceOf(mem: array<char>, a: nat, b: nat, c: nat)
    requires a <= c <= b <= mem.Length
    ensures mem[a..c] == mem[a..b][..c - a]
    ensures c < b ==> mem[c] == mem[a..b][c - a]
  {
  }

  lemma CollapseEnd()
    ensures CollapseFrom([]) == []
  {
  }

  lemma CollapseBlanks(t: string)
    requires t != [] && IsWhiteSpace(t[0])
    ensures var u := SkipWhiteSpace(t);
            |u| < |t| && CollapseFrom(t) == if u == [] then [] else [' '] + CollapseFrom(u)
  {
    var u := SkipWhiteSpace(t);
    if u != [] {
      CollapseHead(u);
      assert [' '] + ([u[0]] + CollapseFrom(u[1..])) == [' ', u[0]] + CollapseFrom(u[1..]);
    }
  }

  lemma Unflagged(mem: array<char>, start: nat, raw: string)
    requires Rewritten(mem, start, raw, "")
    ensures Decode(raw, NAME) == Decoded(raw) && Holds(mem, start, Visible(raw, NAME))
  {
    hide DecodeFrom;
    DecodeName(raw, 0, "");
    assert [] + raw[0..] == raw;
  }

  // Without flags the text is taken as it stands.
  lemma {:induction false} DecodeName(raw: string, p: nat, out: string)
    requires p <= |raw| && out == raw[..p]
    ensures DecodeFrom(raw, p, out, NAME) == Decoded(raw)
    decreases |raw| - p
  {
    if p < |raw| {
      assert raw[..p + 1] == out + [raw[p]];
      DecodeName(raw, p + 1, raw[..p + 1]);
    }
  }
}
