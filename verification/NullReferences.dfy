/**
  Which texts make StrPair::GetStr follow the null pointer that GetCharacterRef returns.
 */
module NullReferences {
  import opened Options
  import opened XmlChars
  import opened CharRef
  import opened EntityDecoding

  /**
    Reading on behind every delimited numeric reference, and one character at a time elsewhere,
    a "&#" is met that is not delimited.
   */
  predicate MeetsUndelimited(s: string)
    decreases |s|
  {
    s != [] &&
    if s[0] == '&' && Peek(s, 1) == '#'
    then |s| > 2 && (!Delimited(s) || MeetsUndelimited(s[SemicolonFrom(s, DigitsFrom(s)) + 1..]))
    else MeetsUndelimited(s[1..])
  }

  lemma {:induction false} MeetsBehind(s: string, m: nat)
    requires m <= |s|
    requires forall j | 0 <= j < m :: s[j] == '&' ==> Peek(s, j + 1) != '#'
    ensures MeetsUndelimited(s) <==> MeetsUndelimited(s[m..])
    decreases m
  {
    if m == 0 {
      assert s[0..] == s;
    } else {
      var t := s[1..];
      forall j | 0 <= j < m - 1
        ensures t[j] == '&' ==> Peek(t, j + 1) != '#'
      {
        assert s[j + 1] == '&' ==> Peek(s, j + 2) != '#';
      }
      MeetsBehind(t, m - 1);
      assert t[m - 1..] == s[m..];
    }
  }

  lemma EntityHoldsNoAmpersand(i: nat, j: nat)
    requires i < NUM_ENTITIES && j <= |ENTITIES[i].pattern|
    ensures (ENTITIES[i].pattern + ";")[j] != '&'
  {
    EntityNames();
    var p := ENTITIES[i].pattern;
    assert p in ["quot", "amp", "apos", "lt", "gt"];
  }

  lemma EntityMeets(s: string, i: nat)
    requires s != [] && s[0] == '&' && Peek(s, 1) != '#'
    requires i < NUM_ENTITIES && ENTITIES[i].pattern + ";" <= s[1..]
    ensures MeetsUndelimited(s) <==> MeetsUndelimited(s[|ENTITIES[i].pattern| + 2..])
  {
    var e := ENTITIES[i].pattern + ";";
    forall j | 1 <= j < |e| + 1
      ensures s[j] != '&'
    {
      assert s[j] == s[1..][j - 1] == e[j - 1];
      EntityHoldsNoAmpersand(i, j - 1);
    }
    MeetsBehind(s, |e| + 1);
  }

  // One iteration: a crash at a reference that is not delimited, otherwise nothing met on the way.
  lemma StepMeets(raw: string, p: nat, q: nat, f: Flags)
    requires q <= p < |raw| && f.entities
    ensures var s := raw[p..];
            match DecodeStep(raw, p, q, f)
            case Crash => MeetsUndelimited(s)
            case Step(_, size) => MeetsUndelimited(s) <==> MeetsUndelimited(s[size..])
  {
    var s := raw[p..];
    hide CharacterRef, FindEntity, MeetsUndelimited, LineEnd;
    if s[0] == '&' && Peek(s, 1) == '#' {
      ReferenceMeets(s);
    } else if s[0] == '&' {
      EntityStepMeets(s);
    } else if f.newlines && (s[0] == CR || s[0] == LF) {
      LineEndMeets(s);
    } else {
      MeetsBehind(s, 1);
    }
  }

  lemma LineEndMeets(s: string)
    requires s != [] && (s[0] == CR || s[0] == LF)
    ensures MeetsUndelimited(s) <==> MeetsUndelimited(s[LineEnd(s)..])
  {
    hide MeetsUndelimited;
    MeetsBehind(s, LineEnd(s));
  }

  lemma ReferenceMeets(s: string)
    requires |s| >= 2 && s[0] == '&' && s[1] == '#'
    ensures CharacterRef(s).BadRef? ==> MeetsUndelimited(s)
    ensures CharacterRef(s).Ref? ==>
              CharacterRef(s).size <= |s| && (MeetsUndelimited(s) <==> MeetsUndelimited(s[CharacterRef(s).size..]))
  {
    hide Delimited, SemicolonFrom, DigitsFrom;
    if |s| == 2 {
      CutOffStep(s);
      return;
    }
    ReadsIffDelimited(s);
    hide CharacterRef;
  }

  lemma EntityStepMeets(s: string)
    requires s != [] && s[0] == '&' && Peek(s, 1) != '#'
    ensures var i := FindEntity(s[1..], 0);
            if i == NUM_ENTITIES then MeetsUndelimited(s) <==> MeetsUndelimited(s[1..])
            else |ENTITIES[i].pattern| + 2 <= |s| && (MeetsUndelimited(s) <==> MeetsUndelimited(s[|ENTITIES[i].pattern| + 2..]))
  {
    var i := FindEntity(s[1..], 0);
    hide FindEntity, MeetsUndelimited;
    if i < NUM_ENTITIES {
      EntityMeets(s, i);
    } else {
      MeetsBehind(s, 1);
    }
  }

  lemma CutOffStep(s: string)
    requires s == "&#"
    ensures CharacterRef(s) == Ref("", 1) && !MeetsUndelimited(s[1..])
  {
    assert s[1..] == "#" && "#"[1..] == "";
  }

  lemma {:induction false} CrashesFrom(raw: string, p: nat, out: string, f: Flags)
    requires |out| <= p <= |raw|
    ensures DecodeFrom(raw, p, out, f) == BadReference <==> f.entities && MeetsUndelimited(raw[p..])
    decreases |raw| - p
  {
    hide DecodeStep, MeetsUndelimited;
    if p == |raw| {
      NothingMet();
      assert raw[p..] == "";
    }
    if p < |raw| {
      if f.entities {
        StepMeets(raw, p, |out|, f);
      } else {
        PlainStep(raw, p, |out|, f);
      }
      var step := DecodeStep(raw, p, |out|, f);
      if step.Step? {
        assert raw[p..][step.size..] == raw[p + step.size..];
        CrashesFrom(raw, p + step.size, out + step.bytes, f);
      }
    }
  }

  lemma NothingMet()
    ensures !MeetsUndelimited("")
  {
  }

  lemma PlainStep(raw: string, p: nat, q: nat, f: Flags)
    requires q <= p < |raw| && !f.entities
    ensures DecodeStep(raw, p, q, f).Step?
  {
  }

  // GetStr follows a null pointer exactly if the text has its references processed and reading
  // it meets a numeric reference that is not delimited.
  lemma CrashesIff(raw: string, f: Flags)
    ensures Decode(raw, f) == BadReference <==> f.entities && MeetsUndelimited(raw)
  {
    CrashesFrom(raw, 0, "", f);
    assert raw[0..] == raw;
  }

  // Instances: a letter where digits belong, and no semicolon.
  lemma CrashExample()
    ensures Decode("&#z;", ATTRIBUTE_VALUE) == BadReference
  {
    var s := "&#z;";
    CrashesIff(s, ATTRIBUTE_VALUE);
    assert SemicolonFrom(s, 2) == 3;
    forall k | 1 <= k < 3
      ensures !DigitsBehind(s, Dec, k, 3)
    {
      assert s[2] == 'z' && s[1] == '#';
    }
  }

  lemma UnfinishedCrashExample()
    ensures Decode("a&#12", TEXT_ELEMENT) == BadReference
  {
    var s := "a&#12";
    CrashesIff(s, TEXT_ELEMENT);
    assert s[1..] == "&#12";
    assert SemicolonFrom("&#12", 2) == 4;
  }

  // References that the code reads although they are none: cut off, and without digits.
  lemma NoCrashExamples()
    ensures Decode("&#", TEXT_ELEMENT).Decoded? && Decode("&#;", TEXT_ELEMENT).Decoded?
  {
    var s, t := "&#", "&#;";
    CrashesIff(s, TEXT_ELEMENT);
    CrashesIff(t, TEXT_ELEMENT);
    DelimitedOnce(t, 1, 2);
  }

  // At the end of a text, "&#" loses its ampersand.
  lemma CutOffExample()
    ensures Decode("&#", TEXT_ELEMENT) == Decoded("#")
  {
    var s := "&#";
    assert s[0..] == s && s[1..] == "#";
    assert DecodeStep(s, 0, 0, TEXT_ELEMENT) == Step("", 1);
    assert DecodeStep(s, 1, 0, TEXT_ELEMENT) == Step("#", 1);
    assert DecodeFrom(s, 2, "#", TEXT_ELEMENT) == Decoded("#");
    assert "" + "" == "" && "" + "#" == "#";
    hide DecodeStep;
    assert DecodeFrom(s, 1, "", TEXT_ELEMENT) == DecodeFrom(s, 2, "#", TEXT_ELEMENT);
  }

  lemma DelimitedOnce(s: string, k: nat, e: nat)
    requires |s| == e + 1 && 1 <= k < e && s[0] == '&' && s[1] == '#' && s[2] != 'x' && s[e] == ';'
    requires forall i | 2 <= i < e :: s[i] != ';'
    requires DigitsBehind(s, Dec, k, e)
    ensures !MeetsUndelimited(s)
  {
    hide DigitsBehind;
    assert SemicolonFrom(s, 2) == e;
    assert s[e + 1..] == [];
  }
}
