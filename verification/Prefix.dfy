/**
  prefix2inorder: LTL formulas in prefix form are rewritten to parenthesised infix form.
 */
module Prefix {
  import opened Options
  import opened XmlChars

  predicate IsBinary(c: char) {
    c == 'U' || c == 'u' || c == 'V' || c == 'v' || c == 'i' || c == 'e' || c == '&' || c == '|'
  }

  predicate IsUnary(c: char) {
    c == '!' || c == 'X' || c == 'G' || c == 'F'
  }

  /** The infix spelling of a binary operator. */
  function Operator(c: char): string {
    if c == '&' || c == '|' then [c, c] else if c == 'i' then "->" else if c == 'e' then "<->" else [c]
  }

  // ----- the conversion

  /** The characters up to the next blank. */
  function Word(s: string): (r: string)
    ensures |r| <= |s|
  {
    if s == "" || IsWhiteSpace(s[0]) then "" else [s[0]] + Word(s[1..])
  }

  /** What follows a name: the blank that ended it is gone too. */
  function AfterWord(s: string): (r: string)
    ensures |r| <= |s| && (s != "" ==> |r| < |s|)
  {
    if s == "" then "" else if IsWhiteSpace(s[0]) then s[1..] else AfterWord(s[1..])
  }

  /** The text put into `dest`, and what is left of the input; none on a parse error. */
  function Convert(s: string, dest: string): (r: Option<(string, string)>)
    ensures r.Some? ==> |r.value.1| < |s|
    decreases |s|
  {
    var u := SkipWhiteSpace(s);
    if u == "" then None
    else if IsBinary(u[0]) then
      var left := Convert(u[1..], "");
      if left.None? then None
      else
        var right := Convert(left.value.1, "");
        if right.None? then None
        else Some(("(" + left.value.0 + " " + Operator(u[0]) + " " + right.value.0 + ")", right.value.1))
    else if IsUnary(u[0]) then
      var right := Convert(u[1..], "");
      if right.None? then None else Some(("(" + [u[0]] + " " + right.value.0 + ")", right.value.1))
    else if u[0] == 't' then Some(("1", u[1..]))
    else if u[0] == 'f' then Some(("0", u[1..]))
    else if u[0] == 'p' then Some((dest + Word(u), AfterWord(u)))
    else None
  }

  // ----- the code

  /** An input stream; `get` past the end returns no character and the stream is no longer good. */
  class Stream {
    const text: string
    var position: nat
    var good: bool

    ghost predicate Valid()
      reads this
    {
      position <= |text| && (!good ==> position == |text|)
    }

    ghost function Rest(): string
      requires Valid()
      reads this
    {
      text[position..]
    }

    constructor (text: string)
      ensures Valid() && Rest() == text && good
    {
      this.text, position, good := text, 0, true;
    }

    method Get() returns (c: Option<char>)
      requires Valid()
      modifies this
      ensures Valid() && Rest() == if old(Rest()) == "" then "" else old(Rest())[1..]
      ensures c == if old(Rest()) == "" then None else Some(old(Rest())[0])
      ensures c.Some? ==> good == old(good)
      ensures c.None? ==> !good
    {
      if position < |text| {
        c := Some(text[position]);
        position := position + 1;
      } else {
        good := false;
        c := None;
      }
    }
  }

  /** The first character that is not a blank. */
  method SkipBlanks(input: Stream) returns (ch: Option<char>)
    requires input.Valid()
    modifies input
    ensures input.Valid() && (ch.Some? ==> |input.Rest()| < |old(input.Rest())| && input.good && !IsWhiteSpace(ch.value))
    ensures SkipWhiteSpace(old(input.Rest())) == if ch.Some? then [ch.value] + input.Rest() else ""
  {
    hide IsWhiteSpace;
    ch := input.Get();
    while ch.Some? && IsWhiteSpace(ch.value)
      invariant input.Valid() && (ch.Some? ==> |input.Rest()| < |old(input.Rest())|)
      invariant SkipWhiteSpace(old(input.Rest())) == if ch.Some? then SkipWhiteSpace([ch.value] + input.Rest()) else ""
      invariant ch.Some? ==> input.good
      decreases if ch.Some? then |input.Rest()| + 1 else 0
    {
      ghost var rest := input.Rest();
      assert ([ch.value] + rest)[1..] == rest;
      ch := input.Get();
      assert ch.Some? ==> rest == [ch.value] + input.Rest();
    }
  }

  method Prefix2Inorder(input: Stream, dest: string) returns (ok: bool, out: string)
    requires input.Valid()
    modifies input
    ensures input.Valid() && (ok <==> Convert(old(input.Rest()), dest).Some?)
    ensures ok ==> Convert(old(input.Rest()), dest) == Some((out, input.Rest()))
    decreases |input.Rest()|
  {
    out := dest;
    var ch := SkipBlanks(input);
    if ch.None? {
      return false, out;
    }
    assert ([ch.value] + input.Rest())[1..] == input.Rest();
    if IsBinary(ch.value) {
      var left, right;
      ok, left := Prefix2Inorder(input, "");
      if !ok {
        return;
      }
      ok, right := Prefix2Inorder(input, "");
      if !ok {
        return;
      }
      out := "(" + left + " " + Operator(ch.value) + " " + right + ")";
    } else if IsUnary(ch.value) {
      var right;
      ok, right := Prefix2Inorder(input, "");
      if ok {
        out := "(" + [ch.value] + " " + right + ")";
      }
    } else if ch.value == 't' {
      ok, out := true, "1";
    } else if ch.value == 'f' {
      ok, out := true, "0";
    } else if ch.value == 'p' {
      ok, out := Name(input, dest, ch.value);
    } else {
      ok := false;
    }
  }

  /** The loop over a name; `first` has been taken from the stream already. */
  method Name(input: Stream, dest: string, first: char) returns (ok: bool, out: string)
    requires input.Valid() && input.good && !IsWhiteSpace(first)
    modifies input
    ensures input.Valid() && ok && out == dest + Word([first] + old(input.Rest()))
    ensures input.Rest() == AfterWord([first] + old(input.Rest()))
  {
    hide Word, AfterWord, IsWhiteSpace;
    out := dest;
    var ch := Some(first);
    ghost var all := [first] + input.Rest();
    while ch.Some? && !IsWhiteSpace(ch.value) && input.good
      invariant input.Valid() && (ch.Some? <==> input.good)
      invariant ch.Some? ==> out + Word([ch.value] + input.Rest()) == dest + Word(all)
      invariant ch.Some? ==> AfterWord([ch.value] + input.Rest()) == AfterWord(all)
      invariant ch.None? ==> out == dest + Word(all) && input.Rest() == "" == AfterWord(all)
      decreases if ch.Some? then |input.Rest()| + 1 else 0
    {
      ghost var rest := input.Rest();
      WordHead(ch.value, rest);
      assert out + ([ch.value] + Word(rest)) == out + [ch.value] + Word(rest);
      out := out + [ch.value];
      ch := input.Get();
      if ch.Some? {
        assert rest == [ch.value] + input.Rest();
      } else {
        assert rest == "" && out + "" == out;
        NoWord();
      }
    }
    if ch.Some? {
      WordHead(ch.value, input.Rest());
      assert out + "" == out;
    }
    ok := true;
  }

  lemma WordHead(c: char, rest: string)
    ensures Word([c] + rest) == if IsWhiteSpace(c) then "" else [c] + Word(rest)
    ensures AfterWord([c] + rest) == if IsWhiteSpace(c) then rest else AfterWord(rest)
  {
    assert ([c] + rest)[1..] == rest;
  }

  lemma NoWord()
    ensures Word("") == "" && AfterWord("") == ""
  {
  }

  // ----- formulas, and their prefix spellings

  lemma OperatorLetters(c: char)
    ensures IsBinary(c) <==> c in "UuVvie&|"
    ensures IsUnary(c) <==> c in "!XGF"
  {
    var b, u := "UuVvie&|", "!XGF";
    assert b[0] == 'U' && b[1] == 'u' && b[2] == 'V' && b[3] == 'v' && b[4] == 'i' && b[5] == 'e' && b[6] == '&' && b[7] == '|';
    assert u[0] == '!' && u[1] == 'X' && u[2] == 'G' && u[3] == 'F';
  }

  datatype Term =
    | True
    | False
    | Prop(name: string)
    | Unary(op: char, arg: Term)
    | Binary(op: char, left: Term, right: Term)

  /** A formula in prefix form: each symbol with the blanks before it. */
  datatype Spelling = Leaf(pad: string, symbol: string) | Node1(pad: string, op: char, arg: Spelling)
                    | Node2(pad: string, op: char, left: Spelling, right: Spelling)

  predicate IsName(s: string) {
    s != "" && s[0] == 'p' && forall c <- s :: !IsWhiteSpace(c)
  }

  predicate EndsInName(p: Spelling) {
    match p
    case Leaf(_, symbol) => IsName(symbol)
    case Node1(_, _, arg) => EndsInName(arg)
    case Node2(_, _, _, right) => EndsInName(right)
  }

  /** Known symbols, and a blank after each name that something follows. */
  predicate Spelled(p: Spelling) {
    match p
    case Leaf(pad, symbol) => Blank(pad) && (symbol == "t" || symbol == "f" || IsName(symbol))
    case Node1(pad, op, arg) => Blank(pad) && op in "!XGF" && Spelled(arg)
    case Node2(pad, op, left, right) =>
      Blank(pad) && op in "UuVvie&|" && Spelled(left) && Spelled(right) && (EndsInName(left) ==> right.pad != "")
  }

  function Text(p: Spelling): string
    decreases p, 1
  {
    p.pad + Body(p)
  }

  /** The text from the symbol on. */
  function Body(p: Spelling): string
    decreases p, 0
  {
    match p
    case Leaf(_, symbol) => symbol
    case Node1(_, op, arg) => [op] + Text(arg)
    case Node2(_, op, left, right) => [op] + (Text(left) + Text(right))
  }

  function Meaning(p: Spelling): Term {
    match p
    case Leaf(_, symbol) => if symbol == "t" then True else if symbol == "f" then False else Prop(symbol)
    case Node1(_, op, arg) => Unary(op, Meaning(arg))
    case Node2(_, op, left, right) => Binary(op, Meaning(left), Meaning(right))
  }

  function Infix(t: Term): string {
    match t
    case True => "1"
    case False => "0"
    case Prop(name) => name
    case Unary(op, arg) => "(" + [op] + " " + Infix(arg) + ")"
    case Binary(op, left, right) => "(" + Infix(left) + " " + Operator(op) + " " + Infix(right) + ")"
  }

  lemma {:induction false} WordOf(name: string, rest: string)
    requires (forall c <- name :: !IsWhiteSpace(c)) && (rest != "" ==> IsWhiteSpace(rest[0]))
    ensures Word(name + rest) == name
    ensures AfterWord(name + rest) == if rest == "" then "" else rest[1..]
  {
    if name == "" {
      assert name + rest == rest;
    } else {
      assert name[0] in name && forall c <- name[1..] :: c in name;
      WordOf(name[1..], rest);
      assert (name + rest)[1..] == name[1..] + rest;
    }
  }

  /** What is left after a formula: a blank that ended a name is consumed with it. */
  function Left(p: Spelling, rest: string): string {
    if EndsInName(p) && rest != "" then rest[1..] else rest
  }

  function Size(p: Spelling): nat {
    match p
    case Leaf(_, _) => 0
    case Node1(_, _, arg) => Size(arg) + 1
    case Node2(_, _, left, right) => Size(left) + Size(right) + 1
  }

  /** The same spelling with other blanks in front. */
  function WithPad(p: Spelling, pad: string): (r: Spelling)
    ensures r.pad == pad && Body(r) == Body(p) && Meaning(r) == Meaning(p) && EndsInName(r) == EndsInName(p)
    ensures Size(r) == Size(p) && (Spelled(p) && Blank(pad) ==> Spelled(r))
  {
    match p
    case Leaf(_, symbol) => Leaf(pad, symbol)
    case Node1(_, op, arg) => Node1(pad, op, arg)
    case Node2(_, op, left, right) => Node2(pad, op, left, right)
  }

  /** The spelling without its first blank. */
  function Shorter(p: Spelling): Spelling
    requires p.pad != ""
  {
    WithPad(p, p.pad[1..])
  }

  lemma ShorterIs(p: Spelling)
    requires Spelled(p) && p.pad != ""
    ensures Spelled(Shorter(p)) && Text(p) != "" && IsWhiteSpace(Text(p)[0]) && Text(p)[1..] == Text(Shorter(p))
    ensures Meaning(Shorter(p)) == Meaning(p) && EndsInName(Shorter(p)) == EndsInName(p)
  {
    SpelledPad(p);
    BlankTail(p.pad);
    hide Body, Spelled, Meaning, EndsInName, WithPad, Blank, IsWhiteSpace;
    assert (p.pad + Body(p))[1..] == p.pad[1..] + Body(p);
  }

  lemma BlankTail(pad: string)
    requires Blank(pad) && pad != ""
    ensures IsWhiteSpace(pad[0]) && Blank(pad[1..])
  {
    assert pad[0] in pad && forall c <- pad[1..] :: c in pad;
  }

  lemma SpelledPad(p: Spelling)
    requires Spelled(p)
    ensures Blank(p.pad)
  {
  }

  /** The spelling of the second operand once the first is read. */
  function Following(left: Spelling, right: Spelling): Spelling {
    if EndsInName(left) && right.pad != "" then Shorter(right) else right
  }

  lemma ConvertLeaf(pad: string, symbol: string, rest: string)
    requires Spelled(Leaf(pad, symbol)) && (IsName(symbol) && rest != "" ==> IsWhiteSpace(rest[0]))
    ensures Convert(pad + symbol + rest, "") == Some((Infix(Meaning(Leaf(pad, symbol))), Left(Leaf(pad, symbol), rest)))
  {
    assert pad + symbol + rest == pad + (symbol + rest);
    SymbolStarts(symbol);
    ConvertPad(pad, symbol + rest);
    hide Blank;
    if IsName(symbol) {
      ConvertName(symbol, rest);
      return;
    }
    ConvertConstant(symbol[0], rest);
    assert symbol == [symbol[0]];
  }

  lemma ConvertConstant(c: char, rest: string)
    requires c == 't' || c == 'f'
    ensures Convert([c] + rest, "") == Some((if c == 't' then "1" else "0", rest))
  {
    assert ([c] + rest)[1..] == rest;
  }

  lemma ConvertName(name: string, rest: string)
    requires IsName(name) && (rest != "" ==> IsWhiteSpace(rest[0]))
    ensures Convert(name + rest, "") == Some((name, if rest == "" then "" else rest[1..]))
  {
    WordOf(name, rest);
    assert name[0] in name && "" + name == name;
    hide Word, AfterWord;
    assert (name + rest)[0] == 'p';
  }

  lemma ConvertPad(pad: string, s: string)
    requires Blank(pad) && s != "" && !IsWhiteSpace(s[0])
    ensures Convert(pad + s, "") == Convert(s, "")
  {
    SkipBlanksExactly(pad, s);
  }

  lemma Regroup(a: string, b: string, c: string, d: string, e: string)
    ensures (a + (b + c)) + d == a + (b + (c + d))
    ensures (a + (b + (c + d))) + e == a + (b + (c + (d + e)))
  {
  }

  // Each unary operator is written in front of its operand.
  lemma ConvertUnary(pad: string, op: char, s: string, arg: (string, string))
    requires Blank(pad) && op in "!XGF" && Convert(s, "") == Some(arg)
    ensures Convert(pad + ([op] + s), "") == Some(("(" + [op] + " " + arg.0 + ")", arg.1))
  {
    OperatorLetters(op);
    SkipBlanksExactly(pad, [op] + s);
    assert ([op] + s)[1..] == s;
  }

  lemma ConvertBinary(pad: string, op: char, s: string, left: (string, string), right: (string, string))
    requires Blank(pad) && op in "UuVvie&|" && Convert(s, "") == Some(left) && Convert(left.1, "") == Some(right)
    ensures Convert(pad + ([op] + s), "") == Some(("(" + left.0 + " " + Operator(op) + " " + right.0 + ")", right.1))
  {
    OperatorLetters(op);
    SkipBlanksExactly(pad, [op] + s);
    assert ([op] + s)[1..] == s;
  }

  /** The binary operators with their infix spellings. */
  const BINARY: set<(char, string)> := {
    ('U', "U"), ('u', "u"), ('V', "V"), ('v', "v"), ('&', "&&"), ('|', "||"), ('i', "->"), ('e', "<->")
  }

  // Each binary operator is written between its operands, in parentheses.
  lemma BinaryConverts(pad: string, op: char, text: string, s: string, left: (string, string), right: (string, string))
    requires Blank(pad) && (op, text) in BINARY && Convert(s, "") == Some(left) && Convert(left.1, "") == Some(right)
    ensures Convert(pad + ([op] + s), "") == Some(("(" + left.0 + " " + text + " " + right.0 + ")", right.1))
  {
    BinarySpelling(op, text);
    hide *;
    ConvertBinary(pad, op, s, left, right);
  }

  lemma BinarySpelling(op: char, text: string)
    requires (op, text) in BINARY
    ensures op in "UuVvie&|" && Operator(op) == text
  {
    OperatorLetters(op);
  }

  // Any other symbol is a parse error.
  lemma OthersRefused(pad: string, c: char, s: string)
    requires Blank(pad) && !IsWhiteSpace(c) && c !in "UuVvie&|" && c !in "!XGF" && c !in "tfp"
    ensures Convert(pad + ([c] + s), "") == None && Convert(pad, "") == None
  {
    OperatorLetters(c);
    assert "tfp"[0] == 't' && "tfp"[1] == 'f' && "tfp"[2] == 'p';
    SkipBlanksExactly(pad, [c] + s);
    SkipBlanksExactly(pad, "");
    assert pad + "" == pad;
  }

  // Every spelled formula is converted to its infix form, and nothing behind it is read but a
  // blank that ends a name.
  lemma {:induction false} SpelledConverts(p: Spelling, rest: string)
    requires Spelled(p) && (EndsInName(p) && rest != "" ==> IsWhiteSpace(rest[0]))
    ensures Convert(Text(p) + rest, "") == Some((Infix(Meaning(p)), Left(p, rest)))
    decreases Size(p)
  {
    hide Convert, Blank, IsName;
    match p
    case Leaf(pad, symbol) =>
      ConvertLeaf(pad, symbol, rest);
    case Node1(pad, op, arg) =>
      SpelledConverts(arg, rest);
      ConvertUnary(pad, op, Text(arg) + rest, (Infix(Meaning(arg)), Left(arg, rest)));
      Regroup(pad, [op], Text(arg), rest, "");
    case Node2(pad, op, left, right) =>
      var next := Following(left, right);
      FollowingIs(left, right, rest);
      SpelledConverts(left, Text(right) + rest);
      SpelledConverts(next, rest);
      ConvertBinary(pad, op, Text(left) + (Text(right) + rest), (Infix(Meaning(left)), Text(next) + rest),
                    (Infix(Meaning(right)), Left(right, rest)));
      Regroup(pad, [op], Text(left), Text(right), rest);
  }

  lemma SymbolStarts(symbol: string)
    requires symbol == "t" || symbol == "f" || IsName(symbol)
    ensures symbol != "" && !IsWhiteSpace(symbol[0])
  {
  }

  lemma FollowingIs(left: Spelling, right: Spelling, rest: string)
    requires Spelled(right) && (EndsInName(left) ==> right.pad != "")
    ensures var next := Following(left, right);
            && Spelled(next) && Size(next) == Size(right) && Meaning(next) == Meaning(right)
            && EndsInName(next) == EndsInName(right)
            && Left(left, Text(right) + rest) == Text(next) + rest
            && (EndsInName(left) ==> Text(right) + rest != "" && IsWhiteSpace((Text(right) + rest)[0]))
  {
    if EndsInName(left) {
      ShorterIs(right);
      assert (Text(right) + rest)[1..] == Text(right)[1..] + rest;
    }
  }

  // ----- nothing else is converted

  lemma PadOf(s: string) returns (pad: string)
    ensures Blank(pad) && s == pad + SkipWhiteSpace(s) && (SkipWhiteSpace(s) != "" ==> !IsWhiteSpace(SkipWhiteSpace(s)[0]))
  {
    pad := s[..|s| - |SkipWhiteSpace(s)|];
    SkippedIsBlank(s);
  }

  lemma {:induction false} WordSplits(s: string) returns (tail: string)
    ensures s == Word(s) + tail && (tail != "" ==> IsWhiteSpace(tail[0])) && (forall c <- Word(s) :: !IsWhiteSpace(c))
    ensures AfterWord(s) == if tail == "" then "" else tail[1..]
  {
    if s == "" || IsWhiteSpace(s[0]) {
      tail := s;
    } else {
      tail := WordSplits(s[1..]);
      assert s == [s[0]] + s[1..] && s == [s[0]] + Word(s[1..]) + tail;
    }
  }

  /** `s` starts with the spelling `p`, and `tail` is what follows. */
  predicate Starts(s: string, p: Spelling, tail: string) {
    Spelled(p) && s == Text(p) + tail && (EndsInName(p) && tail != "" ==> IsWhiteSpace(tail[0]))
  }

  /** The second operand with the blank that ended the first put back. */
  function PutBack(left: Spelling, tail: string, right: Spelling): Spelling {
    if EndsInName(left) && tail != "" then WithPad(right, [tail[0]] + right.pad) else right
  }

  lemma PutBackIs(left: Spelling, tail: string, right: Spelling, rest: string)
    requires Spelled(right) && (EndsInName(left) && tail != "" ==> IsWhiteSpace(tail[0])) && Left(left, tail) == Text(right) + rest
    ensures var r := PutBack(left, tail, right);
            && Spelled(r) && tail == Text(r) + rest && Meaning(r) == Meaning(right) && EndsInName(r) == EndsInName(right)
  {
    if EndsInName(left) && tail != "" {
      var b := [tail[0]];
      SpelledPad(right);
      hide Body, Spelled, Meaning, EndsInName, WithPad;
      assert tail == b + tail[1..];
      assert b + (right.pad + Body(right) + rest) == b + right.pad + Body(right) + rest;
    }
  }

  lemma LeafTaken(s: string, u: string)
    requires Convert(s, "").Some? && u == SkipWhiteSpace(s) && u != "" && !IsBinary(u[0]) && !IsUnary(u[0])
    ensures u[0] == 't' ==> Convert(s, "").value == ("1", u[1..])
    ensures u[0] == 'f' ==> Convert(s, "").value == ("0", u[1..])
    ensures u[0] != 't' && u[0] != 'f' ==> u[0] == 'p' && Convert(s, "").value == (Word(u), AfterWord(u))
  {
    assert "" + Word(u) == Word(u);
  }

  lemma LeafSpelled(s: string, pad: string, u: string) returns (p: Spelling, tail: string)
    requires Convert(s, "").Some? && u == SkipWhiteSpace(s) && s == pad + u && Blank(pad) && u != ""
    requires !IsBinary(u[0]) && !IsUnary(u[0]) && !IsWhiteSpace(u[0])
    ensures Starts(s, p, tail) && Convert(s, "").value == (Infix(Meaning(p)), Left(p, tail))
  {
    hide Convert, IsBinary, IsUnary, SkipWhiteSpace, Blank, IsWhiteSpace;
    LeafTaken(s, u);
    if u[0] == 't' || u[0] == 'f' {
      p, tail := Leaf(pad, [u[0]]), u[1..];
      assert Spelled(p) && Text(p) == pad + [u[0]];
      assert u == [u[0]] + u[1..];
      assert pad + ([u[0]] + tail) == pad + [u[0]] + tail;
      return;
    }
    tail := WordSplits(u);
    p := Leaf(pad, Word(u));
    NameFirst(u);
    assert Spelled(p) && Text(p) == pad + Word(u);
    assert pad + (Word(u) + tail) == pad + Word(u) + tail;
  }

  lemma NameFirst(u: string)
    requires u != "" && !IsWhiteSpace(u[0])
    ensures Word(u) != "" && Word(u)[0] == u[0]
  {
  }

  lemma UnaryTaken(s: string, u: string)
    requires Convert(s, "").Some? && u == SkipWhiteSpace(s) && u != "" && IsUnary(u[0])
    ensures var arg := Convert(u[1..], "");
            arg.Some? && Convert(s, "").value == ("(" + [u[0]] + " " + arg.value.0 + ")", arg.value.1)
  {
  }

  lemma BinaryTaken(s: string, u: string)
    requires Convert(s, "").Some? && u == SkipWhiteSpace(s) && u != "" && IsBinary(u[0])
    ensures var left := Convert(u[1..], "");
            && left.Some?
            && var right := Convert(left.value.1, "");
               right.Some? && Convert(s, "").value
                              == ("(" + left.value.0 + " " + Operator(u[0]) + " " + right.value.0 + ")", right.value.1)
  {
  }

  lemma NothingConverts()
    ensures Convert("", "") == None
  {
  }

  lemma ConvertedStarts(s: string)
    requires Convert(s, "").Some?
    ensures SkipWhiteSpace(s) != ""
  {
  }

  // Whatever is converted is a spelled formula, up to what is left of the input.
  lemma {:induction false} ConvertedIsSpelled(s: string) returns (p: Spelling, tail: string)
    requires Convert(s, "").Some?
    ensures Starts(s, p, tail) && Convert(s, "").value == (Infix(Meaning(p)), Left(p, tail))
    decreases |s|
  {
    hide Convert, IsWhiteSpace, Blank, IsName;
    var pad := PadOf(s);
    ConvertedStarts(s);
    hide SkipWhiteSpace;
    var u := SkipWhiteSpace(s);
    assert u == [u[0]] + u[1..];
    if IsBinary(u[0]) {
      BinaryTaken(s, u);
      NothingConverts();
      var l, lt := ConvertedIsSpelled(u[1..]);
      var r, rt := ConvertedIsSpelled(Left(l, lt));
      PutBackIs(l, lt, r, rt);
      var back := PutBack(l, lt, r);
      p, tail := Node2(pad, u[0], l, back), rt;
      assert Text(p) == pad + ([u[0]] + (Text(l) + Text(back)));
      Regroup(pad, [u[0]], Text(l), Text(back), rt);
    } else if IsUnary(u[0]) {
      UnaryTaken(s, u);
      p, tail := ConvertedIsSpelled(u[1..]);
      Regroup(pad, [u[0]], Text(p), tail, "");
      p := Node1(pad, u[0], p);
      assert Text(p) == pad + ([u[0]] + Text(p.arg));
    } else {
      p, tail := LeafSpelled(s, pad, u);
    }
  }

  // ----- reading infix formulas

  predicate IsAlnum(c: char) {
    '0' <= c <= '9' || 'A' <= c <= 'Z' || 'a' <= c <= 'z'
  }

  /** Alphanumeric names, and operators that prefix2inorder handles. */
  predicate WellFormed(t: Term) {
    match t
    case True => true
    case False => true
    case Prop(name) => name != "" && name[0] == 'p' && forall c <- name :: IsAlnum(c)
    case Unary(op, arg) => op in "!XGF" && WellFormed(arg)
    case Binary(op, left, right) => op in "UuVvie&|" && WellFormed(left) && WellFormed(right)
  }

  function AlnumRun(s: string): (n: nat)
    ensures n <= |s| && (s != "" && IsAlnum(s[0]) ==> n > 0)
  {
    if s == "" || !IsAlnum(s[0]) then 0 else 1 + AlnumRun(s[1..])
  }

  /** The operator whose infix spelling, with a blank behind it, the text starts with. */
  function ReadOperator(s: string): (r: Option<(char, string)>)
    ensures r.Some? ==> |r.value.1| < |s|
  {
    if s == "" then None
    else if s[0] == '&' then if "&& " <= s then Some(('&', s[3..])) else None
    else if s[0] == '|' then if "|| " <= s then Some(('|', s[3..])) else None
    else if s[0] == '-' then if "-> " <= s then Some(('i', s[3..])) else None
    else if s[0] == '<' then if "<-> " <= s then Some(('e', s[4..])) else None
    else if s[0] in "UuVv" && |s| >= 2 && s[1] == ' ' then Some((s[0], s[2..]))
    else None
  }

  /** A fully parenthesised formula at the start of the text, and what follows it. */
  function ReadInfix(s: string): (r: Option<(Term, string)>)
    ensures r.Some? ==> |r.value.1| < |s|
    decreases |s|
  {
    if s == "" then None
    else if s[0] == '1' then Some((True, s[1..]))
    else if s[0] == '0' then Some((False, s[1..]))
    else if s[0] == 'p' then Some((Prop(s[..AlnumRun(s)]), s[AlnumRun(s)..]))
    else if s[0] != '(' then None
    else if |s| >= 3 && s[1] in "!XGF" then
      if s[2] != ' ' then None
      else
        var arg := ReadInfix(s[3..]);
        if arg.None? || !(")" <= arg.value.1) then None else Some((Unary(s[1], arg.value.0), arg.value.1[1..]))
    else
      var left := ReadInfix(s[1..]);
      if left.None? || !(" " <= left.value.1) then None
      else
        var op := ReadOperator(left.value.1[1..]);
        if op.None? then None
        else
          var right := ReadInfix(op.value.1);
          if right.None? || !(")" <= right.value.1) then None
          else Some((Binary(op.value.0, left.value.0, right.value.0), right.value.1[1..]))
  }

  lemma {:induction false} AlnumRunOf(name: string, rest: string)
    requires (forall c <- name :: IsAlnum(c)) && (rest != "" ==> !IsAlnum(rest[0]))
    ensures AlnumRun(name + rest) == |name|
  {
    if name == "" {
      assert name + rest == rest;
    } else {
      assert name[0] in name && forall c <- name[1..] :: c in name;
      AlnumRunOf(name[1..], rest);
      assert (name + rest)[1..] == name[1..] + rest;
    }
  }

  lemma OperatorReads(op: char, rest: string)
    requires op in "UuVvie&|"
    ensures ReadOperator(Operator(op) + (" " + rest)) == Some((op, rest))
  {
    var s := Operator(op) + (" " + rest);
    assert s == Operator(op) + " " + rest;
    if op == '&' {
      assert Operator(op) + " " == "&& ";
    } else if op == '|' {
      assert Operator(op) + " " == "|| ";
    } else if op == 'i' {
      assert Operator(op) + " " == "-> ";
    } else if op == 'e' {
      assert Operator(op) + " " == "<-> ";
    } else {
      assert s[0] == op && s[1] == ' ' && s[2..] == rest;
    }
  }

  lemma ReadUnary(op: char, text: string, arg: Term, rest: string)
    requires op in "!XGF" && ReadInfix(text) == Some((arg, ")" + rest))
    ensures ReadInfix("(" + ([op] + (" " + text))) == Some((Unary(op, arg), rest))
  {
    var s := "(" + ([op] + (" " + text));
    assert s[3..] == text;
    assert (")" + rest)[1..] == rest;
  }

  lemma ReadBinary(op: char, text: string, left: Term, more: string, right: Term, rest: string)
    requires op in "UuVvie&|" && text != "" && text[0] !in "!XGF"
    requires ReadInfix(text) == Some((left, " " + (Operator(op) + (" " + more))))
    requires ReadInfix(more) == Some((right, ")" + rest))
    ensures ReadInfix("(" + text) == Some((Binary(op, left, right), rest))
  {
    var s := "(" + text;
    assert s[1..] == text && s[1] == text[0];
    assert (" " + (Operator(op) + (" " + more)))[1..] == Operator(op) + (" " + more);
    OperatorReads(op, more);
    assert (")" + rest)[1..] == rest;
    hide ReadOperator, Operator;
  }

  lemma InfixStarts(t: Term)
    requires WellFormed(t)
    ensures Infix(t) != "" && Infix(t)[0] !in "!XGF"
  {
    match t
    case True =>
      assert Infix(t)[0] == '1';
    case False =>
      assert Infix(t)[0] == '0';
    case Prop(name) =>
      assert Infix(t)[0] == 'p';
    case Unary(op, arg) =>
      assert Infix(t)[0] == '(';
    case Binary(op, left, right) =>
      assert Infix(t)[0] == '(';
  }

  lemma UnaryText(t: Term, rest: string)
    requires t.Unary?
    ensures Infix(t) + rest == "(" + ([t.op] + (" " + (Infix(t.arg) + (")" + rest))))
  {
  }

  lemma BinaryText(t: Term, rest: string)
    requires t.Binary?
    ensures Infix(t) + rest
            == "(" + (Infix(t.left) + (" " + (Operator(t.op) + (" " + (Infix(t.right) + (")" + rest))))))
  {
    hide Operator;
  }

  // What was written is read back as the same formula.
  lemma {:induction false} InfixReadsBack(t: Term, rest: string)
    requires WellFormed(t) && (rest != "" ==> !IsAlnum(rest[0]))
    ensures ReadInfix(Infix(t) + rest) == Some((t, rest))
  {
    hide Operator, ReadOperator;
    match t
    case True =>
      assert (Infix(t) + rest)[1..] == rest;
    case False =>
      assert (Infix(t) + rest)[1..] == rest;
    case Prop(name) =>
      AlnumRunOf(name, rest);
      assert (name + rest)[..|name|] == name && (name + rest)[|name|..] == rest;
    case Unary(op, arg) =>
      UnaryText(t, rest);
      InfixReadsBack(arg, ")" + rest);
      ReadUnary(op, Infix(arg) + (")" + rest), arg, rest);
    case Binary(op, left, right) =>
      BinaryText(t, rest);
      var more := Infix(right) + (")" + rest);
      InfixReadsBack(right, ")" + rest);
      InfixReadsBack(left, " " + (Operator(op) + (" " + more)));
      InfixStarts(left);
      ReadBinary(op, Infix(left) + (" " + (Operator(op) + (" " + more))), left, more, right, rest);
  }

  // The whole way: a formula in prefix form, however it is spaced, is converted to a text that
  // reads back, under the infix grammar, as the same formula.
  lemma PrefixToInfix(p: Spelling)
    requires Spelled(p) && WellFormed(Meaning(p))
    ensures Convert(Text(p), "").Some?
    ensures var (out, left) := Convert(Text(p), "").value;
            left == "" && ReadInfix(out) == Some((Meaning(p), ""))
  {
    SpelledConverts(p, "");
    assert Text(p) + "" == Text(p);
    InfixReadsBack(Meaning(p), "");
    assert Infix(Meaning(p)) + "" == Infix(Meaning(p));
  }

  /** A prefix form of the formula, with a blank in front of each second operand. */
  function Prefixed(t: Term, pad: string): Spelling {
    match t
    case True => Leaf(pad, "t")
    case False => Leaf(pad, "f")
    case Prop(name) => Leaf(pad, name)
    case Unary(op, arg) => Node1(pad, op, Prefixed(arg, ""))
    case Binary(op, left, right) => Node2(pad, op, Prefixed(left, ""), Prefixed(right, " "))
  }

  lemma {:induction false} PrefixedMeans(t: Term, pad: string)
    requires WellFormed(t) && Blank(pad)
    ensures Spelled(Prefixed(t, pad)) && Meaning(Prefixed(t, pad)) == t && Prefixed(t, pad).pad == pad
  {
    match t
    case True =>
    case False =>
    case Prop(name) =>
      assert name[0] == 'p';
    case Unary(_, arg) => PrefixedMeans(arg, "");
    case Binary(_, left, right) =>
      PrefixedMeans(left, "");
      PrefixedMeans(right, " ");
  }

  // Every formula over the operators and names led by p is what some prefix text is converted to.
  lemma EveryFormulaConverts(t: Term)
    requires WellFormed(t)
    ensures var r := Convert(Text(Prefixed(t, "")), "");
            r.Some? && r.value.1 == "" && ReadInfix(r.value.0) == Some((t, ""))
  {
    PrefixedMeans(t, "");
    PrefixToInfix(Prefixed(t, ""));
  }

  lemma NameConverts(pad: string, name: string, rest: string)
    requires Blank(pad) && IsName(name) && (rest != "" ==> IsWhiteSpace(rest[0]))
    ensures Convert(pad + (name + rest), "") == Some((name, if rest == "" then "" else rest[1..]))
  {
    ConvertName(name, rest);
    assert name[0] in name && (name + rest)[0] == name[0];
    ConvertPad(pad, name + rest);
    hide *;
  }

  lemma TwoNames()
    ensures " p0 p1" == " " + ("p0" + " p1") && "p1" == "" + ("p1" + "") && " p1"[1..] == "p1"
    ensures IsName("p0") && IsName("p1") && Blank(" ") && Blank("") && IsWhiteSpace(" p1"[0])
    ensures ('U', "U") in BINARY
  {
  }

  // Until, over two propositions.
  lemma UntilExample()
    ensures Convert("U p0 p1", "") == Some(("(p0 U p1)", ""))
  {
    hide *;
    TwoNames();
    NameConverts(" ", "p0", " p1");
    NameConverts("", "p1", "");
    BinaryConverts("", 'U', "U", " p0 p1", ("p0", "p1"), ("p1", ""));
    assert "" + (['U'] + " p0 p1") == "U p0 p1";
    assert "(" + "p0" + " " + "U" + " " + "p1" + ")" == "(p0 U p1)";
  }
}
