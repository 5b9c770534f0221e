/**
  Numeric character references and UTF-8 (XMLUtil::GetCharacterRef, ConvertUTF32ToUTF8).
 */
module CharRef {
  import opened Options
  import opened XmlChars

  const UINT: nat := 0x1_0000_0000              // unsigned int wraps here
  const ULONG: nat := 0x1_0000_0000_0000_0000   // unsigned long wraps here

  function Byte(b: nat): char
    requires b < 256
  {
    b as char
  }

  // ----- UTF-8, by the bit layout of section 3 of RFC 3629

  function Utf8(u: nat): (r: string)
    ensures |r| <= 4
    ensures r == [] <==> u >= 0x20_0000
  {
    if u < 0x80 then [Byte(u)]
    else if u < 0x800 then [Byte(0xC0 + u / 0x40), Tail(u)]
    else if u < 0x1_0000 then [Byte(0xE0 + u / 0x1000), Tail(u / 0x40), Tail(u)]
    else if u < 0x20_0000 then [Byte(0xF0 + u / 0x4_0000), Tail(u / 0x1000), Tail(u / 0x40), Tail(u)]
    else []
  }

  function Tail(u: nat): char {
    Byte(0x80 + u % 0x40)
  }

  predicate IsTail(c: char) {
    0x80 <= c as int < 0xC0
  }

  /** The standard decoder: the lead byte gives the length, each tail byte six bits. */
  function FromUtf8(s: string): Option<nat> {
    if |s| == 1 && s[0] as int < 0x80 then Some(s[0] as int)
    else if |s| == 2 && 0xC0 <= s[0] as int < 0xE0 && IsTail(s[1]) then
      Some((s[0] as int - 0xC0) * 0x40 + (s[1] as int - 0x80))
    else if |s| == 3 && 0xE0 <= s[0] as int < 0xF0 && IsTail(s[1]) && IsTail(s[2]) then
      Some((s[0] as int - 0xE0) * 0x1000 + (s[1] as int - 0x80) * 0x40 + (s[2] as int - 0x80))
    else if |s| == 4 && 0xF0 <= s[0] as int < 0xF8 && IsTail(s[1]) && IsTail(s[2]) && IsTail(s[3]) then
      Some((s[0] as int - 0xF0) * 0x4_0000 + (s[1] as int - 0x80) * 0x1000
           + (s[2] as int - 0x80) * 0x40 + (s[3] as int - 0x80))
    else None
  }

  lemma SixBits(u: nat)
    ensures u / 0x1000 == u / 0x40 / 0x40
    ensures u / 0x4_0000 == u / 0x40 / 0x40 / 0x40
    ensures u == u / 0x40 * 0x40 + u % 0x40
  {
  }

  lemma Utf8RoundTrip(u: nat)
    requires u < 0x20_0000
    ensures FromUtf8(Utf8(u)) == Some(u)
    ensures |Utf8(u)| == if u < 0x80 then 1 else if u < 0x800 then 2 else if u < 0x1_0000 then 3 else 4
  {
    var a, b, c := u / 0x40, u / 0x40 / 0x40, u / 0x40 / 0x40 / 0x40;
    SixBits(u);
    SixBits(a);
    SixBits(b);
    TailBits(u);
    TailBits(a);
    TailBits(b);
    hide Tail;
    if u < 0x80 {
      return;
    }
    if u < 0x800 {
      return;
    }
    if u < 0x1_0000 {
      assert Utf8(u) == [Byte(0xE0 + b), Tail(a), Tail(u)];
      return;
    }
    assert Utf8(u) == [Byte(0xF0 + c), Tail(b), Tail(a), Tail(u)];
  }

  lemma TailBits(u: nat)
    ensures IsTail(Tail(u)) && Tail(u) as int - 0x80 == u % 0x40
  {
  }

  lemma Utf8Injective(u: nat, v: nat)
    requires u < 0x20_0000 && v < 0x20_0000
    requires Utf8(u) == Utf8(v)
    ensures u == v
  {
    Utf8RoundTrip(u);
    Utf8RoundTrip(v);
  }

  // The masks of the source: a tail byte is 0x80 plus the low six bits, a shift by six
  // divides by 64, and marking a lead byte adds because the marked bits are clear.
  lemma MasksAreArithmetic(x: bv32, lead: bv8)
    ensures (x | 0x80) & 0xBF == 0x80 + x % 0x40
    ensures x >> 6 == x / 0x40
    ensures lead < 0x20 ==> lead | 0xC0 == 0xC0 + lead
    ensures lead < 0x10 ==> lead | 0xE0 == 0xE0 + lead
    ensures lead < 0x08 ==> lead | 0xF0 == 0xF0 + lead
  {
    assert (x | 0x80) & 0xBF == 0x80 + (x & 0x3F);
  }

  /** Writes the bytes from the last to the first; each `if` is a fall-through case label. */
  method ConvertUTF32ToUTF8(ucs: nat, output: array<char>) returns (length: nat)
    requires output.Length >= 4
    modifies output
    ensures length == |Utf8(ucs)| && output[..length] == Utf8(ucs)
    ensures forall i | length <= i < output.Length :: output[i] == old(output[i])
  {
    var input := ucs;
    if input < 0x80 {
      length := 1;
    } else if input < 0x800 {
      length := 2;
    } else if input < 0x1_0000 {
      length := 3;
    } else if input < 0x20_0000 {
      length := 4;
    } else {
      length := 0;
      return;
    }
    SixBits(ucs);
    var at := length;
    if length >= 4 {
      at := at - 1;
      output[at] := Byte(0x80 + input % 0x40);
      input := input / 0x40;
    }
    if length >= 3 {
      at := at - 1;
      output[at] := Byte(0x80 + input % 0x40);
      input := input / 0x40;
    }
    if length >= 2 {
      at := at - 1;
      output[at] := Byte(0x80 + input % 0x40);
      input := input / 0x40;
    }
    at := at - 1;
    var mark := [0x00, 0x00, 0xC0, 0xE0, 0xF0][length];
    output[at] := Byte(mark + input);
  }

  // ----- digits

  function HexDigit(c: char): (r: Option<nat>)
    ensures r.Some? ==> r.value < 16
  {
    if '0' <= c <= '9' then Some((c - '0') as int)
    else if 'a' <= c <= 'f' then Some((c - 'a') as int + 10)
    else if 'A' <= c <= 'F' then Some((c - 'A') as int + 10)
    else None
  }

  function DecDigit(c: char): (r: Option<nat>)
    ensures r.Some? ==> r.value < 10
  {
    if '0' <= c <= '9' then Some((c - '0') as int) else None
  }

  /** The two notations: `&#x...;` up to an 'x', `&#...;` up to a '#'. */
  datatype Notation = Hex | Dec {
    function Base(): nat { if Hex? then 16 else 10 }
    function Stop(): char { if Hex? then 'x' else '#' }
    function Digit(c: char): (r: Option<nat>)
      ensures r.Some? ==> r.value < Base()
      ensures r.Some? ==> c != Stop()
    {
      if Hex? then HexDigit(c) else DecDigit(c)
    }
  }

  lemma ScanBackLast(t: string, c: char, n: Notation, mult: nat, ucs: nat)
    requires n.Stop() in t && n.Digit(c).Some?
    ensures n.Stop() in t + [c]
    ensures ScanBack(t + [c], n, mult, ucs)
         == ScanBack(t, n, MulUint(mult, n.Base()), AddUlong(ucs, MulUint(mult, n.Digit(c).value)))
  {
    assert (t + [c])[..|t|] == t;
  }

  function MulUint(a: nat, b: nat): nat {
    a * b % UINT
  }

  function AddUlong(a: nat, b: nat): nat {
    (a + b) % ULONG
  }

  lemma NoWrap(a: nat, b: nat, c: nat)
    requires a * b < UINT && c < UINT
    ensures MulUint(a, b) == a * b
    ensures AddUlong(c, a * b) == c + a * b
  {
  }

  /** The backward scan: unsigned int products, summed in an unsigned long. */
  function ScanBack(s: string, n: Notation, mult: nat, ucs: nat): Option<nat>
    requires n.Stop() in s
  {
    var k := |s| - 1;
    if s[k] == n.Stop() then Some(ucs)
    else
      match n.Digit(s[k])
      case None => None
      case Some(d) =>
        assert n.Stop() in s[..k] by { assert s == s[..k] + [s[k]]; }
        ScanBack(s[..k], n, MulUint(mult, n.Base()), AddUlong(ucs, MulUint(mult, d)))
  }

  /** The value of a digit string, most significant digit first. */
  function Positional(digits: string, n: Notation): nat
    requires forall c <- digits :: n.Digit(c).Some?
  {
    if digits == [] then 0
    else Positional(digits[..|digits| - 1], n) * n.Base() + n.Digit(digits[|digits| - 1]).value
  }

  lemma ScanBackStops(head: string, n: Notation, mult: nat, ucs: nat)
    requires head != [] && head[|head| - 1] == n.Stop()
    ensures n.Stop() in head && ScanBack(head, n, mult, ucs) == Some(ucs)
  {
  }

  // One digit of the scan, as arithmetic: below the wrap-around of unsigned int, a multiplier that has
  // wrapped is only ever used on zeros.
  lemma NextDigit(m: nat, base: nat, d: nat, v: nat, ucs: nat)
    requires d < base && m * (v * base + d) + ucs < UINT
    ensures MulUint(m % UINT, base) == (m * base) % UINT
    ensures AddUlong(ucs, MulUint(m % UINT, d)) == ucs + m * d
    ensures m * base * v + (ucs + m * d) == m * (v * base + d) + ucs
  {
    Distribute(m, v, base, d);
    ModuloFactor(m, base);
    hide AddUlong;
    DigitProduct(m, d, ucs);
  }

  lemma DigitProduct(m: nat, d: nat, ucs: nat)
    requires m * d + ucs < UINT
    ensures AddUlong(ucs, MulUint(m % UINT, d)) == ucs + m * d
  {
    if d == 0 {
      assert MulUint(m % UINT, 0) == 0;
    } else {
      MulLe(m, 1, d);
      assert m % UINT == m;
      NoWrap(m, d, ucs);
    }
  }

  lemma ModuloFactor(m: nat, b: nat)
    ensures (m % UINT) * b % UINT == m * b % UINT
  {
    var q, r := m / UINT, m % UINT;
    assert m == q * UINT + r;
    assert m * b == q * b * UINT + r * b;
    AddMultiple(r * b, q * b);
  }

  lemma {:induction false} AddMultiple(a: nat, k: nat)
    ensures (k * UINT + a) % UINT == a % UINT
  {
    if k > 0 {
      AddMultiple(a, k - 1);
      var b := (k - 1) * UINT + a;
      assert k * UINT + a == b + UINT;
    }
  }

  lemma MulLe(m: nat, a: nat, b: nat)
    requires a <= b
    ensures m * a <= m * b
  {
  }

  lemma Distribute(m: nat, v: nat, b: nat, d: nat)
    ensures m * (v * b + d) == m * b * v + m * d
  {
  }

  lemma {:induction false} LeadingZeros(zeros: string, digits: string, n: Notation)
    requires (forall c <- zeros :: c == '0') && forall c <- digits :: n.Digit(c).Some?
    ensures (forall c <- zeros + digits :: n.Digit(c).Some?) && Positional(zeros + digits, n) == Positional(digits, n)
    decreases |zeros| + |digits|
  {
    if digits != [] {
      var init := digits[..|digits| - 1];
      assert (zeros + digits)[..|zeros + digits| - 1] == zeros + init;
      LeadingZeros(zeros, init, n);
    } else if zeros != [] {
      var init := zeros[..|zeros| - 1];
      assert zeros + [] == zeros == init + [zeros[|zeros| - 1]] && init + [] == init;
      assert zeros[|zeros| - 1] in zeros && forall c <- init :: c in zeros;
      LeadingZeros(init, [], n);
    }
  }

  // As long as the value fits an unsigned int, the backward scan is the positional value, however many
  // digits there are.
  lemma {:induction false} ScanBackIsPositional(head: string, digits: string, n: Notation, m: nat, ucs: nat)
    requires head != [] && head[|head| - 1] == n.Stop()
    requires forall c <- digits :: n.Digit(c).Some?
    requires m * Positional(digits, n) + ucs < UINT
    ensures n.Stop() in head + digits
    ensures ScanBack(head + digits, n, m % UINT, ucs) == Some(m * Positional(digits, n) + ucs)
    decreases |digits|
  {
    if digits == [] {
      assert head + digits == head;
      ScanBackStops(head, n, m % UINT, ucs);
    } else {
      var last := |digits| - 1;
      var init, c := digits[..last], digits[last];
      var d, v := n.Digit(c).value, Positional(init, n);
      assert Positional(digits, n) == v * n.Base() + d;
      hide ScanBack, MulUint, AddUlong, Positional;
      assert head + digits == head + init + [c];
      assert n.Stop() in head + init by { assert (head + init)[|head| - 1] == n.Stop(); }
      NextDigit(m, n.Base(), d, v, ucs);
      ScanBackLast(head + init, c, n, m % UINT, ucs);
      ScanBackIsPositional(head, init, n, m * n.Base(), ucs + m * d);
    }
  }

  // ----- references

  /** The scan for a reference at "&#": its value, and the characters up to its semicolon. */
  datatype Scan = NoSemicolonOrDigit | CutOff | Value(ucs: nat, size: nat)

  function ScanRef(s: string): Scan
    requires |s| >= 2 && s[0] == '&' && s[1] == '#'
  {
    if |s| == 2 then CutOff
    else
      var n := if s[2] == 'x' then Hex else Dec;
      var from := if n.Hex? then 3 else 2;
      match ParseText(s[from..], ";")
      case NoCut => NoSemicolonOrDigit
      case Cut(body, _) =>
        var upTo := s[..from + |body|];
        assert n.Stop() in upTo by { assert upTo[from - 1] == n.Stop(); }
        match ScanBack(upTo, n, 1, 0)
        case None => NoSemicolonOrDigit
        case Some(ucs) => Value(ucs, from + |body| + 1)
  }

  /** What GetCharacterRef does: null, or the bytes it writes and the characters it reads. */
  datatype Ref = BadRef | Ref(bytes: string, size: nat)

  function CharacterRef(s: string): (r: Ref)
    requires |s| >= 2 && s[0] == '&' && s[1] == '#'
  {
    match ScanRef(s)
    case NoSemicolonOrDigit => BadRef
    case CutOff => Ref("", 1)
    case Value(ucs, size) => Ref(Utf8(ucs), size)
  }

  // ----- which references can be read

  function NotationOf(s: string): Notation
    requires |s| >= 2
  {
    if Peek(s, 2) == 'x' then Hex else Dec
  }

  /** Where the digits may start. */
  function DigitsFrom(s: string): (from: nat)
    requires |s| >= 2
    ensures 2 <= from <= 3 && from <= |s|
  {
    if NotationOf(s).Hex? then 3 else 2
  }

  /** The first semicolon from `i` on, or the end. */
  function SemicolonFrom(s: string, i: nat): (e: nat)
    requires i <= |s|
    ensures i <= e <= |s|
    ensures e < |s| ==> s[e] == ';'
    ensures forall j | i <= j < e :: s[j] != ';'
    decreases |s| - i
  {
    if i == |s| || s[i] == ';' then i else SemicolonFrom(s, i + 1)
  }

  /** From the stop character at `k` up to `e` there are digits only. */
  predicate DigitsBehind(s: string, n: Notation, k: nat, e: nat)
    requires k < e <= |s|
  {
    s[k] == n.Stop() && forall i | k < i < e :: n.Digit(s[i]).Some?
  }

  /**
    What stands at "&#" can be read: either nothing follows, or there is a semicolon, and
    between the last stop character in front of the first one and itself there are only digits.
   */
  predicate Delimited(s: string)
    requires |s| >= 2
  {
    |s| == 2 ||
    var from := DigitsFrom(s);
    var e := SemicolonFrom(s, from);
    e < |s| && exists k | from - 1 <= k < e :: DigitsBehind(s, NotationOf(s), k, e)
  }

  lemma {:induction false} ScanBackFinds(t: string, n: Notation, mult: nat, ucs: nat)
    requires n.Stop() in t
    ensures ScanBack(t, n, mult, ucs).Some? <==> exists k | 0 <= k < |t| :: DigitsBehind(t, n, k, |t|)
    decreases |t|
  {
    var last := |t| - 1;
    if t[last] == n.Stop() {
      assert DigitsBehind(t, n, last, |t|);
    } else if n.Digit(t[last]).Some? {
      var init := t[..last];
      assert t == init + [t[last]];
      assert n.Stop() in init;
      ScanBackFinds(init, n, MulUint(mult, n.Base()), AddUlong(ucs, MulUint(mult, n.Digit(t[last]).value)));
      if k :| 0 <= k < |init| && DigitsBehind(init, n, k, |init|) {
        assert DigitsBehind(t, n, k, |t|);
      }
      if k :| 0 <= k < |t| && DigitsBehind(t, n, k, |t|) {
        assert k < last;
        assert DigitsBehind(init, n, k, |init|);
      }
    }
  }

  lemma {:induction false} CutAtSemicolon(s: string, i: nat)
    requires i <= |s|
    ensures var e := SemicolonFrom(s, i);
            match ParseText(s[i..], ";")
            case NoCut => e == |s|
            case Cut(text, _) => e < |s| && e == i + |text|
    decreases |s| - i
  {
    if i < |s| {
      assert s[i..][1..] == s[i + 1..];
      CutHead(s[i..], ';');
      CutAtSemicolon(s, i + 1);
    }
  }

  // The scan fails exactly on references that are not delimited.
  lemma ReadsIffDelimited(s: string)
    requires |s| >= 2 && s[0] == '&' && s[1] == '#'
    ensures CharacterRef(s).Ref? <==> Delimited(s)
    ensures Delimited(s) && |s| > 2 ==> CharacterRef(s).size == SemicolonFrom(s, DigitsFrom(s)) + 1
  {
    hide ParseText, ScanBack, DigitsBehind;
    if |s| > 2 {
      var n, from := NotationOf(s), DigitsFrom(s);
      var e := SemicolonFrom(s, from);
      CutAtSemicolon(s, from);
      if e < |s| {
        var t := s[..e];
        assert t[from - 1] == n.Stop();
        ScanBackFinds(t, n, 1, 0);
        StopInRange(s, e);
      }
    }
  }

  // Looking for the stop character from the front of the reference or behind it is the same.
  lemma StopInRange(s: string, e: nat)
    requires |s| > 2 && s[0] == '&' && s[1] == '#' && DigitsFrom(s) <= e <= |s|
    ensures var n := NotationOf(s);
            (exists k | DigitsFrom(s) - 1 <= k < e :: DigitsBehind(s, n, k, e))
            <==> (exists k | 0 <= k < |s[..e]| :: DigitsBehind(s[..e], n, k, |s[..e]|))
  {
    var n := NotationOf(s);
    var t := s[..e];
    if k :| DigitsFrom(s) - 1 <= k < e && DigitsBehind(s, n, k, e) {
      assert DigitsBehind(t, n, k, |t|);
    }
    if k :| 0 <= k < |t| && DigitsBehind(t, n, k, |t|) {
      assert t[k] == s[k];
      assert forall i | k < i < e :: t[i] == s[i];
      assert DigitsBehind(s, n, k, e);
    }
  }

  // The bytes written are never longer than the reference they replace, except that a
  // reference cut off after "&#" writes nothing and consumes only the ampersand.
  lemma RefNeverGrows(s: string)
    requires |s| >= 2 && s[0] == '&' && s[1] == '#'
    ensures CharacterRef(s).Ref? ==> 1 <= CharacterRef(s).size <= |s| && |CharacterRef(s).bytes| <= CharacterRef(s).size
    ensures CharacterRef(s).Ref? ==> |CharacterRef(s).bytes| <= 4
  {
    if |s| > 2 && s[2] != 'x' {
      var cut := ParseText(s[2..], ";");
      if cut.Cut? && cut.text == [] {
        assert s[..2][1] == '#';
        assert ScanBack(s[..2], Dec, 1, 0) == Some(0);
      }
    }
  }

  // A well-formed reference has its positional value, if that fits an unsigned int.
  lemma RefDecodes(digits: string, n: Notation, rest: string)
    requires digits != [] && forall c <- digits :: n.Digit(c).Some?
    requires Positional(digits, n) < UINT
    ensures var s := (if n.Hex? then "&#x" else "&#") + digits + ";" + rest;
            ScanRef(s) == Value(Positional(digits, n), |s| - |rest|)
  {
    var head := if n.Hex? then "&#x" else "&#";
    var s := head + digits + ";" + rest;
    hide ScanBack, Positional, ParseText;
    assert n.Digit(digits[0]).Some?;
    assert s[2] == if n.Hex? then 'x' else digits[0];
    assert s[|head|..] == digits + ";" + rest;
    FirstSemicolon(digits, n, rest);
    assert s[..|head| + |digits|] == head + digits;
    ScanFromOne(head, digits, n);
  }

  // ----- hexadecimal references longer than eight digits

  function Power(base: nat, k: nat): nat {
    if k == 0 then 1 else base * Power(base, k - 1)
  }

  // The scan over some digits, whatever stands in front of them.
  lemma {:induction false} ScanBackOver(t: string, digits: string, n: Notation, m: nat, ucs: nat) returns (mult: nat, sum: nat)
    requires n.Stop() in t && (forall c <- digits :: n.Digit(c).Some?) && m * Positional(digits, n) + ucs < UINT
    ensures n.Stop() in t + digits && mult == m * Power(n.Base(), |digits|) && sum == m * Positional(digits, n) + ucs
    ensures ScanBack(t + digits, n, m % UINT, ucs) == ScanBack(t, n, mult % UINT, sum)
    decreases |digits|
  {
    if digits == [] {
      mult, sum := m, ucs;
      assert t + digits == t;
      hide ScanBack;
    } else {
      PositionalLast(digits, n);
      hide *;
      var init, c := digits[..|digits| - 1], digits[|digits| - 1];
      var v := Positional(init, n);
      var mb, next := ScanBackNext(t + init, c, n, m, ucs, v);
      mult, sum := ScanBackOver(t, init, n, mb, next);
      PowerMore(m, n.Base(), |init|);
      assert t + digits == t + init + [c];
    }
  }

  lemma PositionalLast(digits: string, n: Notation)
    requires digits != [] && forall c <- digits :: n.Digit(c).Some?
    ensures var last := |digits| - 1;
            && (forall c <- digits[..last] :: n.Digit(c).Some?) && n.Digit(digits[last]).Some?
            && Positional(digits, n) == Positional(digits[..last], n) * n.Base() + n.Digit(digits[last]).value
  {
  }

  // One digit of the scan; `v` is the value of the digits in front of it.
  lemma ScanBackNext(t: string, c: char, n: Notation, m: nat, ucs: nat, v: nat) returns (mb: nat, sum: nat)
    requires n.Stop() in t && n.Digit(c).Some? && m * (v * n.Base() + n.Digit(c).value) + ucs < UINT
    ensures n.Stop() in t + [c] && mb == m * n.Base()
    ensures ScanBack(t + [c], n, m % UINT, ucs) == ScanBack(t, n, mb % UINT, sum)
    ensures mb * v + sum == m * (v * n.Base() + n.Digit(c).value) + ucs
  {
    var d := n.Digit(c).value;
    hide ScanBack, MulUint, AddUlong;
    NextDigit(m, n.Base(), d, v, ucs);
    ScanBackLast(t, c, n, m % UINT, ucs);
    mb, sum := m * n.Base(), ucs + m * d;
  }

  lemma PowerMore(m: nat, base: nat, k: nat)
    ensures m * base * Power(base, k) == m * Power(base, k + 1)
  {
  }

  // With a multiplier that has become zero, nothing is added any more.
  lemma {:induction false} ZeroOverDigits(head: string, digits: string, n: Notation, ucs: nat)
    requires head != [] && head[|head| - 1] == n.Stop() && (forall c <- digits :: n.Digit(c).Some?) && ucs < ULONG
    ensures n.Stop() in head + digits && ScanBack(head + digits, n, 0, ucs) == Some(ucs)
    decreases |digits|
  {
    if digits == [] {
      assert head + digits == head;
      ScanBackStops(head, n, 0, ucs);
    } else {
      var last := |digits| - 1;
      assert head + digits == head + digits[..last] + [digits[last]];
      assert (head + digits[..last])[|head| - 1] == n.Stop();
      ScanBackLast(head + digits[..last], digits[last], n, 0, ucs);
      ZeroOverDigits(head, digits[..last], n, ucs);
    }
  }

  lemma {:induction false} EightDigits(digits: string)
    requires forall c <- digits :: Hex.Digit(c).Some?
    ensures Positional(digits, Hex) < Power(16, |digits|)
  {
    if digits != [] {
      EightDigits(digits[..|digits| - 1]);
    }
  }

  lemma SixteenToTheEighth()
    ensures Power(16, 8) == UINT
  {
    assert Power(16, 2) == 0x100;
    assert Power(16, 4) == 0x1_0000 by { PowerSum(16, 2, 2); }
    PowerSum(16, 4, 4);
  }

  lemma {:induction false} PowerSum(base: nat, i: nat, j: nat)
    ensures Power(base, i + j) == Power(base, i) * Power(base, j)
  {
    if i > 0 {
      PowerSum(base, i - 1, j);
      Associates(base, Power(base, i - 1), Power(base, j));
      assert i + j - 1 == i - 1 + j;
    }
  }

  lemma Associates(a: nat, b: nat, c: nat)
    ensures a * (b * c) == a * b * c
  {
  }

  // A hexadecimal reference has the value of its last eight digits, whatever digits stand in front of them.
  lemma HexKeepsEight(front: string, digits: string, rest: string)
    requires |digits| == 8 && (forall c <- front :: Hex.Digit(c).Some?) && forall c <- digits :: Hex.Digit(c).Some?
    ensures var s := "&#x" + (front + digits) + ";" + rest;
            ScanRef(s) == Value(Positional(digits, Hex), |s| - |rest|)
  {
    var all := front + digits;
    var s := "&#x" + all + ";" + rest;
    assert forall c <- all :: c in front || c in digits;
    HexScan("&#x", front, digits);
    FirstSemicolon(all, Hex, rest);
    HexShape(all, rest);
    hide ScanBack, Positional, ParseText;
  }

  lemma HexShape(all: string, rest: string)
    ensures var s := "&#x" + all + ";" + rest;
            && |s| == |all| + |rest| + 4 && s[0] == '&' && s[1] == '#' && s[2] == 'x'
            && s[3..] == all + ";" + rest && s[..3 + |all|] == "&#x" + all
  {
    assert "&#x" + all + ";" + rest == "&#x" + (all + ";" + rest);
  }

  lemma HexScan(head: string, front: string, digits: string)
    requires head == "&#x" && |digits| == 8
    requires (forall c <- front :: Hex.Digit(c).Some?) && forall c <- digits :: Hex.Digit(c).Some?
    ensures Hex.Stop() in head + (front + digits)
    ensures ScanBack(head + (front + digits), Hex, 1, 0) == Some(Positional(digits, Hex))
  {
    hide *;
    var v := Positional(digits, Hex);
    EightHexDigits(digits);
    HexStop(head, front);
    Limits(v);
    var mult, sum := ScanBackOver(head + front, digits, Hex, 1, 0);
    ZeroOverDigits(head, front, Hex, v);
    assert head + front + digits == head + (front + digits);
  }

  lemma EightHexDigits(digits: string)
    requires |digits| == 8 && forall c <- digits :: Hex.Digit(c).Some?
    ensures Positional(digits, Hex) < UINT && Power(16, |digits|) == UINT
  {
    EightDigits(digits);
    SixteenToTheEighth();
    hide *;
  }

  lemma Limits(v: nat)
    requires v < UINT
    ensures v < ULONG && 1 * v == v && 1 * UINT % UINT == 0 && 1 % UINT == 1
  {
  }

  lemma HexStop(head: string, front: string)
    requires head == "&#x"
    ensures head[2] == Hex.Stop() && Hex.Stop() in head + front && Hex.Base() == 16
  {
    assert (head + front)[2] == 'x';
  }

  lemma ScanFromOne(head: string, digits: string, n: Notation)
    requires head != [] && head[|head| - 1] == n.Stop()
    requires forall c <- digits :: n.Digit(c).Some?
    requires Positional(digits, n) < UINT
    ensures n.Stop() in head + digits
    ensures ScanBack(head + digits, n, 1, 0) == Some(Positional(digits, n))
  {
    ScanBackIsPositional(head, digits, n, 1, 0);
  }

  lemma FirstSemicolon(digits: string, n: Notation, rest: string)
    requires forall c <- digits :: n.Digit(c).Some?
    ensures ParseText(digits + ";" + rest, ";") == Cut(digits, rest)
  {
    forall i | 0 <= i < |digits|
      ensures !(";" <= (digits + ";" + rest)[i..])
    {
      assert (digits + ";" + rest)[i..][0] == digits[i];
      assert n.Digit(digits[i]).Some?;
    }
    ParseTextFinds(digits, ";", rest);
  }

  method StrChr(mem: array<char>, p: nat, c: char, ghost s: string) returns (q: Option<nat>)
    requires Holds(mem, p, s) && c != NUL
    ensures match ParseText(s, [c])
            case NoCut => q == None
            case Cut(text, _) => q == Some(p + |text|)
  {
    hide ParseText;
    var i := p;
    ghost var t := s;
    while mem[i] != NUL
      invariant p <= i && i + |t| == p + |s| && Holds(mem, i, t)
      invariant match ParseText(s, [c])
                case NoCut => ParseText(t, [c]) == NoCut
                case Cut(text, _) => ParseText(t, [c]).Cut? && i + |ParseText(t, [c]).text| == p + |text|
      decreases |t|
    {
      FirstRead(mem, i, t);
      CutHead(t, c);
      if mem[i] == c {
        return Some(i);
      }
      i, t := i + 1, t[1..];
    }
    FirstRead(mem, i, t);
    CutNothing(c);
    return None;
  }

  lemma CutHead(t: string, c: char)
    requires t != []
    ensures t[0] == c ==> ParseText(t, [c]).Cut? && ParseText(t, [c]).text == []
    ensures t[0] != c ==> (ParseText(t, [c]).Cut? <==> ParseText(t[1..], [c]).Cut?)
    ensures t[0] != c && ParseText(t, [c]).Cut? ==> |ParseText(t, [c]).text| == 1 + |ParseText(t[1..], [c]).text|
  {
    assert [c] <= t <==> t[0] == c by { assert t[..1] == [t[0]]; }
  }

  lemma CutNothing(c: char)
    ensures ParseText([], [c]) == NoCut
  {
  }

  /** The digit loop of either notation, from the semicolon back to its stop character. */
  method ScanDigits(mem: array<char>, p: nat, semicolon: nat, n: Notation) returns (ucs: Option<nat>)
    requires p <= semicolon <= mem.Length && n.Stop() in mem[p..semicolon]
    ensures ucs == ScanBack(mem[p..semicolon], n, 1, 0)
  {
    ghost var target := ScanBack(mem[p..semicolon], n, 1, 0);
    var q := semicolon - 1;
    var sum: nat, mult: nat := 0, 1;
    while mem[q] != n.Stop()
      invariant p <= q < semicolon
      invariant n.Stop() in mem[p..q + 1]
      invariant ScanBack(mem[p..q + 1], n, mult, sum) == target
      decreases q
    {
      var d := n.Digit(mem[q]);
      assert mem[p..q + 1] == mem[p..q] + [mem[q]];
      assert n.Stop() in mem[p..q];
      if d == None {
        return None;
      }
      ScanBackLast(mem[p..q], mem[q], n, mult, sum);
      sum := AddUlong(sum, MulUint(mult, d.value));
      mult := MulUint(mult, n.Base());
      q := q - 1;
    }
    return Some(sum);
  }

  method FindReference(mem: array<char>, p: nat, ghost s: string) returns (scan: Scan)
    requires Holds(mem, p, s) && |s| >= 2 && s[0] == '&' && s[1] == '#'
    ensures scan == ScanRef(s)
  {
    hide ParseText, ScanBack, Holds;
    HoldsFrom(mem, p, s, 2);
    if mem[p + 2] == NUL {
      NothingThere(mem, p + 2, s[2..]);
      return CutOff;
    }
    FirstRead(mem, p + 2, s[2..]);
    var n := if mem[p + 2] == 'x' then Hex else Dec;
    var from := if n.Hex? then p + 3 else p + 2;
    HoldsFrom(mem, p, s, from - p);
    if mem[from] == NUL {
      NothingThere(mem, from, s[from - p..]);
      NoSemicolon(s[from - p..]);
      return NoSemicolonOrDigit;
    }
    var semicolon := StrChr(mem, from, ';', s[from - p..]);
    if semicolon == None {
      return NoSemicolonOrDigit;
    }
    HoldsFrom(mem, p, s, semicolon.value - p);
    assert s[..semicolon.value - p][from - p - 1] == n.Stop();
    var ucs := ScanDigits(mem, p, semicolon.value, n);
    if ucs == None {
      return NoSemicolonOrDigit;
    }
    return Value(ucs.value, semicolon.value - p + 1);
  }

  lemma NothingThere(mem: array<char>, p: nat, t: string)
    requires Holds(mem, p, t) && mem[p] == NUL
    ensures t == []
  {
    FirstRead(mem, p, t);
  }

  lemma NoSemicolon(s: string)
    requires s == []
    ensures ParseText(s, ";") == NoCut
  {
  }

  method GetCharacterRef(mem: array<char>, p: nat, value: array<char>, ghost s: string)
    returns (next: Option<nat>, length: nat)
    requires Holds(mem, p, s) && |s| >= 2 && s[0] == '&' && s[1] == '#'
    requires value != mem && value.Length >= 4
    modifies value
    ensures match CharacterRef(s)
            case BadRef => next == None
            case Ref(bytes, size) => next == Some(p + size) && length == |bytes| && value[..length] == bytes
  {
    var scan := FindReference(mem, p, s);
    match scan
    case NoSemicolonOrDigit => return None, 0;
    case CutOff => return Some(p + 1), 0;
    case Value(ucs, size) =>
      length := ConvertUTF32ToUTF8(ucs, value);
      return Some(p + size), length;
  }
}
