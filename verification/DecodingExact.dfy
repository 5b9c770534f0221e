/**
  Where the decoding loop of GetStr and the reference decoder agree, for every text.
 */
module DecodingExact {
  import opened Options
  import opened XmlChars
  import opened CharRef
  import opened EntityDecoding

  /**
    Every ampersand that starts no reference is a bare one, and leaves no stale byte: it is met
    either before anything shrank, or where the byte left in place happens to be an ampersand as well.
   */
  predicate StaleFree(raw: string, p: nat, q: nat, f: Flags)
    requires q <= p <= |raw|
    decreases |raw| - p
  {
    p == |raw| ||
    if f.entities && raw[p] == '&' && ReadReference(raw[p..]) == None
    then raw[q] == '&' && Peek(raw[p..], 1) != '#' && StaleFree(raw, p + 1, q + 1, f)
    else
      match DecodeStep(raw, p, q, f)
      case Crash => false
      case Step(bytes, size) => StaleFree(raw, p + size, q + |bytes|, f)
  }

  // ----- a "&#" that is no reference: what the loop writes for it is too short

  /** The shape of a reference: its name holds no semicolon and no stop character, or its digits give its value. */
  predicate Shaped(t: string, text: string, size: nat)
    requires 3 < size <= |t|
  {
    && t[0] == '&' && t[size - 1] == ';'
    && (forall j | 0 <= j < size - 1 :: t[j] != ';')
    && ((forall j | 0 <= j < size :: t[j] != '#' && t[j] != 'x')
        || ShapedNumeric(t, text, size, Hex) || ShapedNumeric(t, text, size, Dec))
  }

  predicate ShapedNumeric(t: string, text: string, size: nat, n: Notation)
    requires 3 < size <= |t|
  {
    var from := if n.Hex? then 3 else 2;
    && t[1] == '#' && (n.Hex? ==> t[2] == 'x')
    && from < size - 1
    && (forall c <- t[from..size - 1] :: n.Digit(c).Some?)
    && Positional(t[from..size - 1], n) < UINT
    && text == Utf8(Positional(t[from..size - 1], n))
  }

  lemma NumericShape(t: string, n: Notation)
    requires ReadNumeric(t, n).Some?
    ensures Shaped(t, ReadNumeric(t, n).value.0, ReadNumeric(t, n).value.1)
  {
    hide Positional, Utf8;
    var head := if n.Hex? then "&#x" else "&#";
    var digits := DigitRun(t[|head|..], n);
    var size := |head| + |digits| + 1;
    assert t[..|head|] == head;
    assert t[0] == head[0] && t[1] == head[1] && (n.Hex? ==> t[2] == head[2]);
    assert t[|head|..size - 1] == digits;
    forall j | 0 <= j < size - 1
      ensures t[j] != ';'
    {
      if j >= |head| {
        assert t[j] == digits[j - |head|] && digits[j - |head|] in digits;
      }
    }
    assert ShapedNumeric(t, ReadNumeric(t, n).value.0, size, n);
  }

  lemma NamedShape(t: string, name: string, text: string)
    requires name in ["&quot;", "&amp;", "&apos;", "&lt;", "&gt;"] && name <= t
    ensures Shaped(t, text, |name|)
  {
    forall j | 0 <= j < |name|
      ensures t[j] == name[j]
    {
    }
  }

  lemma ReferenceShape(t: string)
    requires ReadReference(t).Some?
    ensures Shaped(t, ReadReference(t).value.0, ReadReference(t).value.1)
  {
    hide Shaped, ReadNumeric;
    var (text, _) := ReadReference(t).value;
    if "&quot;" <= t {
      NamedShape(t, "&quot;", text);
    } else if "&amp;" <= t {
      NamedShape(t, "&amp;", text);
    } else if "&apos;" <= t {
      NamedShape(t, "&apos;", text);
    } else if "&lt;" <= t {
      NamedShape(t, "&lt;", text);
    } else if "&gt;" <= t {
      NamedShape(t, "&gt;", text);
    } else if ReadNumeric(t, Hex).Some? {
      NumericShape(t, Hex);
    } else {
      NumericShape(t, Dec);
    }
  }

  /** `s` starts with a delimited "&#...;" whose last stop character is at `k` and whose semicolon is at `e`. */
  predicate Spans(s: string, k: nat, e: nat)
    requires |s| >= 2
  {
    && s[0] == '&' && s[1] == '#' && DigitsFrom(s) - 1 <= k < e < |s|
    && e == SemicolonFrom(s, DigitsFrom(s)) && DigitsBehind(s, NotationOf(s), k, e)
  }

  // A reference that starts inside ends at the semicolon, and is written in the same notation.
  lemma InnerReference(s: string, k: nat, e: nat, i: nat)
    requires |s| >= 2 && Spans(s, k, e) && 1 <= i <= k && ReadReference(s[i..]).Some?
    ensures CharacterRef(s) == Ref(ReadReference(s[i..]).value.0, e + 1) && ReadReference(s[i..]).value.1 == e + 1 - i
  {
    var t := s[i..];
    var (text, size) := ReadReference(t).value;
    ReferenceShape(t);
    hide ReadReference, SemicolonFrom, DigitsBehind, Utf8, Positional, ScanBack, CharacterRef;
    InnerEnd(s, k, e, i, text, size);
    InnerValue(s, k, e, i, text, size);
  }

  lemma InnerEnd(s: string, k: nat, e: nat, i: nat, text: string, size: nat)
    requires |s| >= 2 && Spans(s, k, e) && 1 <= i <= k
    requires 3 < size <= |s| - i && Shaped(s[i..], text, size)
    ensures i >= DigitsFrom(s) && size == e + 1 - i
  {
    var t := s[i..];
    hide SemicolonFrom, DigitsBehind, ShapedNumeric;
    assert t[0] == s[i] && t[size - 1] == s[i + size - 1];
    assert i >= DigitsFrom(s);
    assert i + size - 1 >= e;
    assert t[e - i] == s[e];
  }

  lemma InnerValue(s: string, k: nat, e: nat, i: nat, text: string, size: nat)
    requires |s| >= 2 && Spans(s, k, e) && DigitsFrom(s) <= i <= k
    requires 3 < size == e + 1 - i && Shaped(s[i..], text, size)
    ensures CharacterRef(s) == Ref(text, e + 1)
  {
    var t, n := s[i..], NotationOf(s);
    hide SemicolonFrom, Utf8, Positional, ScanBack, CharacterRef;
    assert t[k - i] == s[k] == n.Stop();
    var m := if ShapedNumeric(t, text, size, Hex) then Hex else Dec;
    assert ShapedNumeric(t, text, size, m);
    InnerStop(s, k, e, i, text, size, m);
    assert s[k + 1..e] == t[if n.Hex? then 3 else 2..size - 1];
    SpanDecodes(s, k, e);
  }

  lemma InnerStop(s: string, k: nat, e: nat, i: nat, text: string, size: nat, m: Notation)
    requires |s| >= 2 && Spans(s, k, e) && DigitsFrom(s) <= i <= k
    requires 3 < size == e + 1 - i && s[i] == '&' && ShapedNumeric(s[i..], text, size, m)
    ensures m == NotationOf(s) && k + 1 == i + if m.Hex? then 3 else 2
  {
    var t, n := s[i..], NotationOf(s);
    var from := if m.Hex? then 3 else 2;
    hide SemicolonFrom, Utf8, Positional;
    assert t[k - i] == s[k] == n.Stop();
    assert t[0] == s[i] && t[1] == s[i + 1] && t[2] == s[i + 2];
    assert m.Digit(n.Stop()).None?;
    forall j | from <= j < size - 1
      ensures m.Digit(t[j]).Some?
    {
      assert t[from..size - 1][j - from] == t[j];
    }
    assert k < i + from;
    assert n.Dec? ==> k == i + 1 && n.Digit(s[k + 1]).Some?;
  }

  lemma SpanDecodes(s: string, k: nat, e: nat)
    requires |s| >= 2 && Spans(s, k, e)
    ensures forall c <- s[k + 1..e] :: NotationOf(s).Digit(c).Some?
    ensures Positional(s[k + 1..e], NotationOf(s)) < UINT ==>
              CharacterRef(s) == Ref(Utf8(Positional(s[k + 1..e], NotationOf(s))), e + 1)
  {
    var n, digits := NotationOf(s), s[k + 1..e];
    SpanDigits(s, k, e);
    hide DigitsBehind, Utf8, Positional, ScanBack, ParseText, SemicolonFrom;
    CutAtSemicolon(s, DigitsFrom(s));
    assert s[..e] == s[..k + 1] + digits;
    if Positional(digits, n) < UINT {
      ScanFromOne(s[..k + 1], digits, n);
    }
  }

  lemma SpanDigits(s: string, k: nat, e: nat)
    requires |s| >= 2 && Spans(s, k, e)
    ensures s[k] == NotationOf(s).Stop() && forall c <- s[k + 1..e] :: NotationOf(s).Digit(c).Some?
  {
    var n, digits := NotationOf(s), s[k + 1..e];
    forall c <- digits
      ensures n.Digit(c).Some?
    {
      var j :| 0 <= j < |digits| && digits[j] == c;
      assert s[k + 1 + j] == c;
    }
  }

  lemma PlainHead(t: string, f: Flags)
    requires t != [] && t[0] != '&' && t[0] != CR && t[0] != LF
    ensures Unescape(t, f) == [t[0]] + Unescape(t[1..], f)
  {
    NoAmpersand(t);
  }

  // The digits and the semicolon stay as they are.
  lemma {:induction false} DigitsStay(s: string, k: nat, e: nat, i: nat, f: Flags)
    requires |s| >= 2 && Spans(s, k, e) && k < i <= e + 1
    ensures |Unescape(s[i..], f)| == e + 1 - i + |Unescape(s[e + 1..], f)|
    decreases e + 1 - i
  {
    hide Unescape, SemicolonFrom;
    if i <= e {
      assert i < e ==> NotationOf(s).Digit(s[i]).Some?;
      assert s[i..][1..] == s[i + 1..];
      PlainHead(s[i..], f);
      DigitsStay(s, k, e, i + 1, f);
    }
  }

  lemma StopStays(s: string, k: nat, e: nat, f: Flags)
    requires |s| >= 2 && Spans(s, k, e)
    ensures |Unescape(s[k..], f)| == e + 1 - k + |Unescape(s[e + 1..], f)|
  {
    hide Unescape;
    assert s[k] == '#' || s[k] == 'x';
    assert s[k..][1..] == s[k + 1..];
    PlainHead(s[k..], f);
    DigitsStay(s, k, e, k + 1, f);
  }

  // From anywhere inside, the reference decoder writes at least the stop character, the digits and the
  // semicolon, or else a reference in it that stands for the same character.
  lemma {:induction false} InnerLength(s: string, k: nat, e: nat, i: nat, f: Flags)
    requires |s| >= 2 && Spans(s, k, e) && 1 <= i <= k
    ensures var u := |Unescape(s[i..], f)| - |Unescape(s[e + 1..], f)|;
            u >= e - k + 1 || (CharacterRef(s).Ref? && u >= |CharacterRef(s).bytes|)
    decreases k - i
  {
    hide ReadReference, CharacterRef, SemicolonFrom, DigitsBehind, Unescape, LineEnd;
    var t := s[i..];
    if i == k {
      StopStays(s, k, e, f);
    } else if f.newlines && (t[0] == CR || t[0] == LF) {
      LineEndInside(s, k, e, i, f);
      InnerLength(s, k, e, i + LineEnd(t), f);
    } else if f.entities && ReadReference(t).Some? {
      InnerReplaced(s, k, e, i, f);
    } else {
      HeadLength(t, f);
      assert t[1..] == s[i + 1..];
      InnerLength(s, k, e, i + 1, f);
    }
  }

  lemma HeadLength(t: string, f: Flags)
    requires t != [] && !(f.newlines && (t[0] == CR || t[0] == LF)) && !(f.entities && ReadReference(t).Some?)
    ensures |Unescape(t, f)| == 1 + |Unescape(t[1..], f)|
  {
    hide ReadReference;
  }

  lemma InnerReplaced(s: string, k: nat, e: nat, i: nat, f: Flags)
    requires |s| >= 2 && Spans(s, k, e) && 1 <= i < k
    requires f.entities && ReadReference(s[i..]).Some? && !(f.newlines && (s[i] == CR || s[i] == LF))
    ensures CharacterRef(s).Ref? && |Unescape(s[i..], f)| == |CharacterRef(s).bytes| + |Unescape(s[e + 1..], f)|
  {
    hide ReadReference, CharacterRef, SemicolonFrom, DigitsBehind;
    InnerReference(s, k, e, i);
    assert s[i..][e + 1 - i..] == s[e + 1..];
  }

  lemma LineEndInside(s: string, k: nat, e: nat, i: nat, f: Flags)
    requires |s| >= 2 && Spans(s, k, e) && 1 <= i < k
    requires f.newlines && (s[i..][0] == CR || s[i..][0] == LF)
    ensures i + LineEnd(s[i..]) <= k
    ensures |Unescape(s[i..], f)| == 1 + |Unescape(s[i + LineEnd(s[i..])..], f)|
  {
    hide ReadReference, SemicolonFrom, DigitsFrom;
    var t := s[i..];
    assert t[1] == s[i + 1];
    assert s[k] == '#' || s[k] == 'x';
    assert t[LineEnd(t)..] == s[i + LineEnd(t)..];
  }

  // Without digits, or with one, a single byte is written.
  lemma FewDigits(s: string, k: nat, e: nat)
    requires |s| >= 2 && Spans(s, k, e) && e - k <= 2
    ensures CharacterRef(s).Ref? && |CharacterRef(s).bytes| == 1
  {
    SpanDecodes(s, k, e);
    var n, digits := NotationOf(s), s[k + 1..e];
    assert digits != [] ==> |digits| == 1 && digits[..0] == [];
    assert Positional(digits, n) < 16;
    hide CharacterRef, Positional;
  }

  // What the loop writes for a "&#" that is no reference, and the reference decoder behind it, are
  // shorter than what the reference decoder writes.
  lemma NonReferenceShrinks(s: string, f: Flags)
    requires |s| >= 2 && s[0] == '&' && s[1] == '#' && f.entities
    requires ReadReference(s) == None && CharacterRef(s).Ref?
    ensures |CharacterRef(s).bytes| + |Unescape(s[CharacterRef(s).size..], f)| < |Unescape(s, f)|
  {
    hide *;
    BareHead(s, f);
    if |s| == 2 {
      CutOffRef(s);
      return;
    }
    ReadsIffDelimited(s);
    var k, e := SpanOf(s);
    SpanShort(s, k, e, f);
  }

  lemma CutOffRef(s: string)
    requires |s| == 2 && s[0] == '&' && s[1] == '#'
    ensures CharacterRef(s) == Ref("", 1)
  {
  }

  lemma SpanShort(s: string, k: nat, e: nat, f: Flags)
    requires |s| >= 2 && Spans(s, k, e) && 1 <= k && CharacterRef(s).Ref?
    ensures |CharacterRef(s).bytes| + |Unescape(s[e + 1..], f)| <= |Unescape(s[1..], f)|
  {
    hide Unescape, CharacterRef, SemicolonFrom;
    InnerLength(s, k, e, 1, f);
    if e - k <= 2 {
      FewDigits(s, k, e);
    } else {
      RefNeverGrows(s);
    }
  }

  lemma BareHead(s: string, f: Flags)
    requires s != [] && s[0] == '&' && ReadReference(s) == None
    ensures Unescape(s, f) == ['&'] + Unescape(s[1..], f)
  {
  }

  lemma SpanOf(s: string) returns (k: nat, e: nat)
    requires |s| > 2 && s[0] == '&' && s[1] == '#' && Delimited(s)
    ensures Spans(s, k, e) && 1 <= k && e == SemicolonFrom(s, DigitsFrom(s))
  {
    var from := DigitsFrom(s);
    e := SemicolonFrom(s, from);
    k :| from - 1 <= k < e && DigitsBehind(s, NotationOf(s), k, e);
  }

  // ----- where the two agree

  /** The loop meets a "&#" that the reference decoder leaves as it is. */
  predicate AtNonReference(s: string, f: Flags)
    requires s != []
  {
    f.entities && s[0] == '&' && Peek(s, 1) == '#' && ReadReference(s) == None
  }

  lemma StepNoLonger(raw: string, p: nat, q: nat, f: Flags)
    requires q <= p < |raw| && DecodeStep(raw, p, q, f).Step?
    ensures var Step(bytes, size) := DecodeStep(raw, p, q, f);
            && |bytes| + |Unescape(raw[p + size..], f)| <= |Unescape(raw[p..], f)|
            && (AtNonReference(raw[p..], f) ==> |bytes| + |Unescape(raw[p + size..], f)| < |Unescape(raw[p..], f)|)
  {
    var s := raw[p..];
    var step := DecodeStep(raw, p, q, f);
    assert s[step.size..] == raw[p + step.size..];
    hide Unescape, ReadReference, CharacterRef;
    if AtNonReference(s, f) {
      NonReferenceStep(raw, p, q, f);
      NonReferenceShrinks(s, f);
    } else {
      assert f.entities && "&#" <= s ==> ReadReference(s).Some?;
      hide DecodeStep;
      StepDecodes(raw, p, q, f);
    }
  }

  lemma NonReferenceStep(raw: string, p: nat, q: nat, f: Flags)
    requires q <= p < |raw| && AtNonReference(raw[p..], f)
    ensures var s := raw[p..];
            |s| >= 2 && s[1] == '#'
            && DecodeStep(raw, p, q, f) == match CharacterRef(s) { case BadRef => Crash case Ref(bytes, size) => Step(bytes, size) }
  {
    hide ReadReference, CharacterRef;
  }

  // The loop never writes more than the reference decoder.
  lemma {:induction false} NoLonger(raw: string, p: nat, out: string, f: Flags)
    requires |out| <= p <= |raw| && DecodeFrom(raw, p, out, f).Decoded?
    ensures |DecodeFrom(raw, p, out, f).text| <= |out| + |Unescape(raw[p..], f)|
    decreases |raw| - p
  {
    hide DecodeStep, Unescape, AtNonReference;
    if p < |raw| {
      var step := DecodeStep(raw, p, |out|, f);
      StepNoLonger(raw, p, |out|, f);
      NoLonger(raw, p + step.size, out + step.bytes, f);
    }
  }

  /** The agreement from position `p` on, with `out` already written. */
  ghost predicate AgreesExactlyWhen(raw: string, p: nat, out: string, f: Flags)
    requires |out| <= p <= |raw|
  {
    DecodeFrom(raw, p, out, f) == Decoded(out + Unescape(raw[p..], f)) <==> StaleFree(raw, p, |out|, f)
  }

  lemma AgreesNowhere(raw: string, p: nat, out: string, f: Flags)
    requires |out| <= p < |raw| && AtNonReference(raw[p..], f)
    ensures AgreesExactlyWhen(raw, p, out, f)
  {
    hide DecodeStep, Unescape, ReadReference;
    assert !StaleFree(raw, p, |out|, f);
    var d := DecodeFrom(raw, p, out, f);
    if d.Decoded? {
      var step := DecodeStep(raw, p, |out|, f);
      StepNoLonger(raw, p, |out|, f);
      NoLonger(raw, p + step.size, out + step.bytes, f);
    }
  }

  lemma AgreesBare(raw: string, p: nat, out: string, f: Flags)
    requires |out| <= p < |raw|
    requires f.entities && raw[p] == '&' && ReadReference(raw[p..]) == None && Peek(raw[p..], 1) != '#'
    requires DecodeStep(raw, p, |out|, f) == Step([raw[|out|]], 1)
    requires Unescape(raw[p..], f) == ['&'] + Unescape(raw[p + 1..], f)
    requires AgreesExactlyWhen(raw, p + 1, out + [raw[|out|]], f)
    ensures AgreesExactlyWhen(raw, p, out, f)
  {
    hide DecodeStep, ReadReference, Unescape;
    var d := DecodeFrom(raw, p, out, f);
    if d.Decoded? {
      StaleByteShows(d.text, out, raw[|out|], Unescape(raw[p + 1..], f));
    }
  }

  lemma AgreesOther(raw: string, p: nat, out: string, f: Flags, bytes: string, size: nat)
    requires |out| <= p < |raw|
    requires !(f.entities && raw[p] == '&' && ReadReference(raw[p..]) == None)
    requires DecodeStep(raw, p, |out|, f) == Step(bytes, size)
    requires Unescape(raw[p..], f) == bytes + Unescape(raw[p + size..], f)
    requires AgreesExactlyWhen(raw, p + size, out + bytes, f)
    ensures AgreesExactlyWhen(raw, p, out, f)
  {
    hide DecodeStep, ReadReference, Unescape;
    var u := Unescape(raw[p + size..], f);
    assert out + (bytes + u) == out + bytes + u;
  }

  lemma {:induction false} AgreesWhen(raw: string, p: nat, out: string, f: Flags)
    requires |out| <= p <= |raw|
    ensures AgreesExactlyWhen(raw, p, out, f)
    decreases |raw| - p
  {
    hide DecodeStep, ReadReference, Unescape, AgreesExactlyWhen;
    if p == |raw| {
      AgreesAtEnd(raw, out, f);
      return;
    }
    if AtNonReference(raw[p..], f) {
      AgreesNowhere(raw, p, out, f);
      return;
    }
    var step := DecodeStep(raw, p, |out|, f);
    StepDecodes(raw, p, |out|, f);
    assert raw[p..][step.size..] == raw[p + step.size..];
    AgreesWhen(raw, p + step.size, out + step.bytes, f);
    if f.entities && raw[p] == '&' && ReadReference(raw[p..]) == None {
      AgreesBare(raw, p, out, f);
    } else {
      AgreesOther(raw, p, out, f, step.bytes, step.size);
    }
  }

  lemma AgreesAtEnd(raw: string, out: string, f: Flags)
    requires |out| <= |raw|
    ensures AgreesExactlyWhen(raw, |raw|, out, f)
  {
    assert raw[|raw|..] == [] && out + Unescape([], f) == out;
  }

  lemma StaleByteShows(text: string, out: string, c: char, u: string)
    requires out + [c] <= text
    ensures text == out + (['&'] + u) <==> c == '&' && text == out + [c] + u
  {
    assert text[|out|] == (out + [c])[|out|] == c;
    assert (out + (['&'] + u))[|out|] == '&';
    assert out + (['&'] + u) == out + ['&'] + u;
  }

  // GetStr computes the reference decoding exactly when it meets no "&#" that starts no reference
  // and leaves no stale byte behind.
  lemma DecodeIsUnescapeIff(raw: string, f: Flags)
    ensures Decode(raw, f) == Decoded(Unescape(raw, f)) <==> StaleFree(raw, 0, 0, f)
  {
    AgreesWhen(raw, 0, "", f);
    assert raw[0..] == raw && "" + Unescape(raw, f) == Unescape(raw, f);
  }

  // ----- texts on which they agree

  /** Every ampersand starts a reference. */
  predicate AmpersandsAreReferences(s: string) {
    forall i | 0 <= i < |s| && s[i] == '&' :: ReadReference(s[i..]).Some?
  }

  lemma {:induction false} NoBareAmpersand(raw: string, p: nat, q: nat, f: Flags)
    requires q <= p <= |raw|
    requires f.entities ==> AmpersandsAreReferences(raw)
    ensures StaleFree(raw, p, q, f)
    decreases |raw| - p
  {
    hide DecodeStep, ReadReference, Unescape, StaleFree;
    if p < |raw| {
      var step := DecodeStep(raw, p, q, f);
      StepDecodes(raw, p, q, f);
      assert f.entities && raw[p] == '&' ==> ReadReference(raw[p..]).Some?;
      NoBareAmpersand(raw, p + step.size, q + |step.bytes|, f);
      StaleFreeStep(raw, p, q, f, step.bytes, step.size);
    } else {
      StaleFreeEnd(raw, q, f);
    }
  }

  lemma StaleFreeEnd(raw: string, q: nat, f: Flags)
    requires q <= |raw|
    ensures StaleFree(raw, |raw|, q, f)
  {
  }

  lemma StaleFreeStep(raw: string, p: nat, q: nat, f: Flags, bytes: string, size: nat)
    requires q <= p < |raw| && DecodeStep(raw, p, q, f) == Step(bytes, size)
    requires f.entities && raw[p] == '&' ==> ReadReference(raw[p..]).Some?
    requires StaleFree(raw, p + size, q + |bytes|, f)
    ensures StaleFree(raw, p, q, f)
  {
    hide DecodeStep, ReadReference;
  }

  lemma DecodeIsUnescape(raw: string, f: Flags)
    requires f.entities ==> AmpersandsAreReferences(raw)
    ensures Decode(raw, f) == Decoded(Unescape(raw, f))
  {
    NoBareAmpersand(raw, 0, 0, f);
    DecodeIsUnescapeIff(raw, f);
  }

  // Leading zeros do no harm, although the multiplier wraps on the way.
  lemma LeadingZeroExample()
    ensures Decode("&#0000000065;", TEXT_ELEMENT) == Decoded("A") && StaleFree("&#0000000065;", 0, 0, TEXT_ELEMENT)
  {
    var s := "&#0000000065;";
    var zeros, value := "00000000", "65";
    assert zeros + value == "0000000065" && s == "&#" + (zeros + value) + ";" + "";
    SixtyFive(value);
    hide *;
    LeadingZeros(zeros, value, Dec);
    NumericReads(s, zeros + value);
    OnlyReference(s, "A");
  }

  lemma SixtyFive(value: string)
    requires value == "65"
    ensures (forall c <- value :: Dec.Digit(c).Some?) && Positional(value, Dec) == 65
  {
    assert value[..1] == "6" && "6"[..0] == "";
  }

  lemma NumericReads(s: string, digits: string)
    requires digits != [] && (forall c <- digits :: Dec.Digit(c).Some?) && Positional(digits, Dec) == 65
    requires s == "&#" + digits + ";" + ""
    ensures |s| >= 2 && s[0] == '&' && s[1] == '#' && CharacterRef(s) == Ref("A", |s|)
    ensures ReadReference(s).Some?
  {
    hide Positional, DigitRun, ScanRef;
    RefDecodes(digits, Dec, "");
    assert s[2..] == digits + ";";
    RunOf(digits, ";", Dec);
    assert s[2 + |digits|] == ';';
    assert s[..2] == "&#" && ReadNumeric(s, Dec).Some?;
  }

  lemma {:induction false} RunOf(digits: string, rest: string, n: Notation)
    requires (forall c <- digits :: n.Digit(c).Some?) && (rest != [] ==> n.Digit(rest[0]).None?)
    ensures DigitRun(digits + rest, n) == digits
  {
    if digits == [] {
      assert digits + rest == rest;
    } else {
      assert (digits + rest)[1..] == digits[1..] + rest;
      RunOf(digits[1..], rest, n);
    }
  }

  lemma OnlyReference(s: string, text: string)
    requires |s| >= 2 && s[0] == '&' && s[1] == '#' && CharacterRef(s) == Ref(text, |s|) && ReadReference(s).Some?
    ensures Decode(s, TEXT_ELEMENT) == Decoded(text) && StaleFree(s, 0, 0, TEXT_ELEMENT)
  {
    RefNeverGrows(s);
    hide CharacterRef, ReadReference;
    assert s[0..] == s;
    assert DecodeStep(s, 0, 0, TEXT_ELEMENT) == Step(text, |s|);
    assert [] + text == text;
    assert DecodeFrom(s, |s|, text, TEXT_ELEMENT) == Decoded(text);
    assert StaleFree(s, |s|, |text|, TEXT_ELEMENT);
  }

  // The family that fails: a bare ampersand behind a replaced reference.
  lemma StaleByteExample()
    ensures Decode("&lt;&z", TEXT_ELEMENT) == Decoded("<lz")
    ensures Unescape("&lt;&z", TEXT_ELEMENT) == "<&z"
  {
    StaleByteDecoded();
    StaleByteUnescaped();
  }

  lemma StaleByteUnescaped()
    ensures Unescape("&lt;&z", TEXT_ELEMENT) == "<&z"
  {
    var raw := "&lt;&z";
    assert raw[4..] == "&z" && raw[4..][1..] == "z" && "z"[1..] == "";
    assert ReadReference(raw) == Some(("<", 4)) by {
      assert raw[1] == 'l' && "&quot;"[1] == 'q' && "&amp;"[1] == 'a' && "&apos;"[1] == 'a';
      assert raw[..4] == "&lt;";
    }
    assert ReadReference("&z") == None;
    assert ReadReference("z") == None;
    assert Unescape("z", TEXT_ELEMENT) == "z";
    assert Unescape("&z", TEXT_ELEMENT) == "&z";
  }

  lemma StaleByteDecoded()
    ensures Decode("&lt;&z", TEXT_ELEMENT) == Decoded("<lz")
  {
    var raw := "&lt;&z";
    LessThanStep(raw);
    assert raw[4..] == "&z" && raw[5..] == "z" && raw[1] == 'l';
    BareStep(raw, 4, 1, TEXT_ELEMENT);
    LetterStep(raw, 5, 2, TEXT_ELEMENT);
    hide DecodeStep;
    assert "" + "<" == "<" && "<" + "l" == "<l" && "<l" + "z" == "<lz";
    assert DecodeFrom(raw, 6, "<lz", TEXT_ELEMENT) == Decoded("<lz");
    assert DecodeFrom(raw, 5, "<l", TEXT_ELEMENT) == Decoded("<lz");
    assert DecodeFrom(raw, 4, "<", TEXT_ELEMENT) == Decoded("<lz");
  }

  lemma LessThanStep(raw: string)
    requires "&lt;" <= raw
    ensures DecodeStep(raw, 0, 0, TEXT_ELEMENT) == Step("<", 4)
  {
    assert raw[0..] == raw && raw[0] == '&' && raw[1] == 'l' && raw[2] == 't' && raw[3] == ';';
    FirstEntity(raw[1..]);
    hide FindEntity;
    assert raw[1..][..3] == "lt" + ";";
    assert ("quot" + ";")[0] == 'q' && ("amp" + ";")[0] == 'a' && ("apos" + ";")[0] == 'a';
    assert ENTITIES[3].value == '<' && ENTITIES[3].pattern == "lt";
  }

  lemma BareStep(raw: string, p: nat, q: nat, f: Flags)
    requires q <= p < |raw| && f.entities && raw[p..] == "&z"
    ensures DecodeStep(raw, p, q, f) == Step([raw[q]], 1)
  {
    assert raw[p..][1..] == "z";
    FirstEntity("z");
    hide FindEntity;
  }

  lemma LetterStep(raw: string, p: nat, q: nat, f: Flags)
    requires q <= p < |raw| && raw[p] == 'z'
    ensures DecodeStep(raw, p, q, f) == Step("z", 1)
  {
  }
}
