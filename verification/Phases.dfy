/**
  The three threads of ex3 with delta notifications and and-list waits, and the sweep that
  collects the execution orders they produce.
 */
module Phases {
  const EXE_LENGTH: nat := 9
  const MAX_EXE_ORDERS: nat := 216

  predicate Distinct<T(==)>(s: seq<T>) {
    forall i, j | 0 <= i < j < |s| :: s[i] != s[j]
  }

  // ----- the threads

  /** Thread t (from 0) is about to run segment number `segment`; it still waits for the events `waits`. */
  datatype Thread = Thread(segment: nat, waits: set<nat>, runnable: bool)

  datatype State = State(threads: seq<Thread>, notified: set<nat>, register: seq<nat>)

  datatype Choice = Execute(t: nat) | Delta

  function Init(): State {
    State([Thread(0, {}, true), Thread(0, {}, true), Thread(0, {}, true)], {}, [])
  }

  /** The events of the other two threads. */
  function Others(t: nat): (events: set<nat>)
    ensures events <= {0, 1, 2} && events != {}
  {
    assert (if t == 0 then 1 else 0) in {0, 1, 2} - {t};
    {0, 1, 2} - {t}
  }

  predicate Enabled(s: State, c: Choice) {
    match c
    case Execute(t) => t < |s.threads| && s.threads[t].runnable
    case Delta => s.notified != {} && forall t | 0 <= t < |s.threads| :: !s.threads[t].runnable
  }

  /** One segment: the register entry, the notification for the next delta, and the wait. */
  function Ran(s: State, t: nat): State
    requires t < |s.threads|
  {
    var segment := s.threads[t].segment;
    var last := segment + 1 >= 3;
    State(s.threads[t := Thread(segment + 1, if last then {} else Others(t), false)],
          if last then s.notified else s.notified + {t},
          s.register + [3 * segment + t + 1])
  }

  /** A waiting thread ticks off the events of this delta; with none left it can run. */
  function Woken(u: Thread, events: set<nat>): Thread {
    if u.waits == {} then u else u.(waits := u.waits - events, runnable := u.waits <= events)
  }

  function Next(s: State, c: Choice): State
    requires Enabled(s, c)
  {
    match c
    case Execute(t) => Ran(s, t)
    case Delta =>
      State(seq(|s.threads|, t requires 0 <= t < |s.threads| => Woken(s.threads[t], s.notified)), {}, s.register)
  }

  /** The shared register and index of the threads. */
  class Register {
    const executionRegister: array<nat>
    var index: nat

    ghost predicate Valid()
      reads this
    {
      executionRegister.Length == EXE_LENGTH && index <= EXE_LENGTH
    }

    constructor ()
      ensures Valid() && fresh(executionRegister) && index == 0
    {
      executionRegister := new nat[EXE_LENGTH](_ => 0);
      index := 0;
    }

    /** What a segment of thread t, counted from 0, leaves behind. */
    method Segment(t: nat, segment: nat)
      requires Valid() && index < EXE_LENGTH
      modifies this, executionRegister
      ensures Valid() && index == old(index) + 1
      ensures executionRegister[..index] == old(executionRegister[..index]) + [3 * segment + t + 1]
    {
      executionRegister[index] := 3 * segment + t + 1;
      index := index + 1;
    }
  }

  // ----- what every schedule keeps

  /** A permutation of base + 1, base + 2 and base + 3. */
  predicate IsBlock(block: seq<nat>, base: nat) {
    |block| == 3 && Distinct(block) && forall i | 0 <= i < 3 :: base < block[i] <= base + 3
  }

  /** The triples of the register are permutations of {1, 2, 3}, {4, 5, 6} and so on. */
  predicate Phased(register: seq<nat>, phases: nat) {
    |register| == 3 * phases && forall k {:trigger IsBlock(register[3 * k..3 * k + 3], 3 * k)} | 0 <= k < phases ::
                                  IsBlock(register[3 * k..3 * k + 3], 3 * k)
  }

  /** The segments run so far in the phase after `base` entries. */
  predicate PartialBlock(block: seq<nat>, base: nat) {
    Distinct(block) && forall x <- block :: base < x <= base + 3
  }

  /** A thread that has run its segment of phase k waits for the others, any other can run. */
  function Expected(t: nat, k: nat, ran: bool): Thread {
    if ran then Thread(k + 1, if k < 2 then Others(t) else {}, false) else Thread(k, {}, true)
  }

  predicate HasRun(t: nat, k: nat, block: seq<nat>) {
    3 * k + t + 1 in block
  }

  /** The state when `block` is what has run of phase k, after `past`. */
  function Midway(k: nat, past: seq<nat>, block: seq<nat>): State {
    var a, b, c := HasRun(0, k, block), HasRun(1, k, block), HasRun(2, k, block);
    State([Expected(0, k, a), Expected(1, k, b), Expected(2, k, c)],
          if k < 2 then (if a then {0} else {}) + (if b then {1} else {}) + (if c then {2} else {}) else {},
          past + block)
  }

  predicate InPhase(s: State, k: nat, past: seq<nat>, block: seq<nat>) {
    k < 3 && s == Midway(k, past, block) && Phased(past, k) && PartialBlock(block, 3 * k)
  }

  lemma RunsMore(block: seq<nat>, k: nat, t: nat, u: nat)
    ensures HasRun(u, k, block + [3 * k + t + 1]) <==> HasRun(u, k, block) || u == t
  {
  }

  lemma PartialMore(block: seq<nat>, k: nat, t: nat)
    requires PartialBlock(block, 3 * k) && t < 3 && !HasRun(t, k, block)
    ensures PartialBlock(block + [3 * k + t + 1], 3 * k)
  {
  }

  lemma ExecuteKeeps(s: State, k: nat, past: seq<nat>, block: seq<nat>, t: nat)
    requires InPhase(s, k, past, block) && Enabled(s, Execute(t))
    ensures InPhase(Next(s, Execute(t)), k, past, block + [3 * k + t + 1])
  {
    hide Phased, PartialBlock, HasRun;
    var more := block + [3 * k + t + 1];
    RunsMore(block, k, t, 0);
    RunsMore(block, k, t, 1);
    RunsMore(block, k, t, 2);
    assert t == 0 || t == 1 || t == 2;
    PartialMore(block, k, t);
    assert past + block + [3 * k + t + 1] == past + more;
  }

  lemma AllThree(block: seq<nat>, k: nat)
    requires PartialBlock(block, 3 * k) && HasRun(0, k, block) && HasRun(1, k, block) && HasRun(2, k, block)
    ensures IsBlock(block, 3 * k)
  {
    PartialSize(block, 3 * k);
    var a: nat, b: nat, c: nat :| a < |block| && b < |block| && c < |block|
                                && block[a] == 3 * k + 1 && block[b] == 3 * k + 2 && block[c] == 3 * k + 3;
  }

  lemma PartialSize(block: seq<nat>, base: nat)
    requires PartialBlock(block, base)
    ensures |block| <= 3
  {
    if |block| > 3 {
      InRange(block, base, 0);
      InRange(block, base, 1);
      InRange(block, base, 2);
      InRange(block, base, 3);
    }
  }

  lemma InRange(block: seq<nat>, base: nat, i: nat)
    requires PartialBlock(block, base) && i < |block|
    ensures base < block[i] <= base + 3
  {
    assert block[i] in block;
  }

  lemma AllHaveRun(s: State, k: nat, past: seq<nat>, block: seq<nat>)
    requires InPhase(s, k, past, block) && forall t | 0 <= t < |s.threads| :: !s.threads[t].runnable
    ensures HasRun(0, k, block) && HasRun(1, k, block) && HasRun(2, k, block)
    ensures s.notified == if k < 2 then {0, 1, 2} else {}
  {
    hide HasRun, Phased;
    assert !s.threads[0].runnable && !s.threads[1].runnable && !s.threads[2].runnable;
  }

  lemma AllWoken(t: nat, k: nat)
    requires t < 3 && k < 2
    ensures Woken(Expected(t, k, true), {0, 1, 2}) == Expected(t, k + 1, false)
  {
    assert Others(t) - {0, 1, 2} == {};
  }

  lemma DeltaKeeps(s: State, k: nat, past: seq<nat>, block: seq<nat>)
    requires InPhase(s, k, past, block) && Enabled(s, Delta)
    ensures IsBlock(block, 3 * k) && InPhase(Next(s, Delta), k + 1, past + block, [])
  {
    AllHaveRun(s, k, past, block);
    AllThree(block, k);
    PhasedMore(past, k, block);
    AllWoken(0, k);
    AllWoken(1, k);
    AllWoken(2, k);
    hide Phased, PartialBlock, Woken, Expected, IsBlock;
    assert past + block + [] == past + block;
    assert PartialBlock([], 3 * (k + 1)) by {
      NothingRun(3 * (k + 1));
    }
    assert Next(s, Delta) == Midway(k + 1, past + block, []);
  }

  lemma NothingRun(base: nat)
    ensures PartialBlock([], base)
  {
  }

  lemma PhasedMore(past: seq<nat>, k: nat, block: seq<nat>)
    requires Phased(past, k) && IsBlock(block, 3 * k)
    ensures Phased(past + block, k + 1)
  {
    var all := past + block;
    forall i | 0 <= i < k + 1
      ensures IsBlock(all[3 * i..3 * i + 3], 3 * i)
    {
      if i < k {
        assert all[3 * i..3 * i + 3] == past[3 * i..3 * i + 3];
      } else {
        assert all[3 * i..3 * i + 3] == block;
      }
    }
  }

  // ----- runs

  /** The scheduler may make these choices one after the other. */
  ghost predicate Legal(choices: seq<Choice>)
    decreases |choices|, 0
  {
    choices == []
    || (Legal(choices[..|choices| - 1]) && Enabled(Run(choices[..|choices| - 1]), choices[|choices| - 1]))
  }

  /** The state they lead to. */
  ghost function Run(choices: seq<Choice>): State
    requires Legal(choices)
    decreases |choices|, 1
  {
    if choices == [] then Init() else Next(Run(choices[..|choices| - 1]), choices[|choices| - 1])
  }

  /** Nothing can run and nothing is notified. */
  predicate Finished(s: State) {
    s.notified == {} && forall t | 0 <= t < |s.threads| :: !s.threads[t].runnable
  }

  lemma {:induction false} RunPhases(choices: seq<Choice>) returns (k: nat, past: seq<nat>, block: seq<nat>)
    requires Legal(choices)
    ensures InPhase(Run(choices), k, past, block)
    decreases |choices|
  {
    hide InPhase, Next, Enabled;
    if choices == [] {
      k, past, block := 0, [], [];
      InitInPhase();
    } else {
      var init, c := choices[..|choices| - 1], choices[|choices| - 1];
      k, past, block := RunPhases(init);
      match c
      case Execute(t) =>
        ExecuteKeeps(Run(init), k, past, block, t);
        block := block + [3 * k + t + 1];
      case Delta =>
        DeltaKeeps(Run(init), k, past, block);
        k, past, block := k + 1, past + block, [];
    }
  }

  lemma InitInPhase()
    ensures InPhase(Init(), 0, [], [])
  {
  }

  // Every schedule ends with permutations of {1, 2, 3}, {4, 5, 6} and {7, 8, 9} in the register,
  // and none can get stuck before.
  lemma SchedulesArePhased(choices: seq<Choice>)
    requires Legal(choices)
    ensures Finished(Run(choices)) ==> Phased(Run(choices).register, 3)
    ensures !Finished(Run(choices)) ==> exists c :: Enabled(Run(choices), c)
    ensures |Run(choices).register| <= EXE_LENGTH
  {
    var k, past, block := RunPhases(choices);
    var s := Run(choices);
    PartialSize(block, 3 * k);
    if t :| 0 <= t < |s.threads| && s.threads[t].runnable {
      assert Enabled(s, Execute(t));
    } else {
      AllHaveRun(s, k, past, block);
      AllThree(block, k);
      PhasedMore(past, k, block);
      assert s.notified != {} ==> Enabled(s, Delta);
    }
  }

  /** How often a thread has run. */
  function Turns(choices: seq<Choice>, t: nat): nat {
    if choices == [] then 0
    else Turns(choices[..|choices| - 1], t) + if choices[|choices| - 1] == Execute(t) then 1 else 0
  }

  lemma {:induction false} SegmentIsTurns(choices: seq<Choice>, t: nat)
    requires Legal(choices) && t < 3
    ensures |Run(choices).threads| == 3 && Run(choices).threads[t].segment == Turns(choices, t)
    decreases |choices|
  {
    if choices != [] {
      SegmentIsTurns(choices[..|choices| - 1], t);
    }
  }

  // The three threads put 1, 4, 7 and 2, 5, 8 and 3, 6, 9 into the register, one at each turn.
  lemma EachWritesItsOwn(choices: seq<Choice>, t: nat)
    requires Legal(choices) && Enabled(Run(choices), Execute(t))
    ensures t < 3 && Turns(choices, t) < 3
    ensures Next(Run(choices), Execute(t)).register
         == Run(choices).register + [[[1, 4, 7], [2, 5, 8], [3, 6, 9]][t][Turns(choices, t)]]
  {
    var k, past, block := RunPhases(choices);
    SegmentIsTurns(choices, 0);
    InThird(Run(choices), k, past, block, t);
    SegmentIsTurns(choices, t);
    hide Legal, Run, InPhase, Turns;
    Table(t, Turns(choices, t));
  }

  lemma InThird(s: State, k: nat, past: seq<nat>, block: seq<nat>, t: nat)
    requires InPhase(s, k, past, block) && Enabled(s, Execute(t))
    ensures t < 3 && s.threads[t].segment < 3
  {
    hide Phased, PartialBlock, HasRun;
  }

  lemma Table(t: nat, k: nat)
    requires t < 3 && k < 3
    ensures [[1, 4, 7], [2, 5, 8], [3, 6, 9]][t][k] == 3 * k + t + 1
  {
  }

  // ----- every order is possible

  lemma OneMore(choices: seq<Choice>, c: Choice)
    requires Legal(choices) && Enabled(Run(choices), c)
    ensures Legal(choices + [c]) && Run(choices + [c]) == Next(Run(choices), c)
  {
    assert (choices + [c])[..|choices|] == choices;
  }

  lemma OneSegment(choices: seq<Choice>, k: nat, past: seq<nat>, block: seq<nat>, x: nat) returns (longer: seq<Choice>)
    requires Legal(choices) && InPhase(Run(choices), k, past, block) && 3 * k < x <= 3 * k + 3 && x !in block
    ensures Legal(longer) && InPhase(Run(longer), k, past, block + [x])
  {
    var t := x - 3 * k - 1;
    assert !HasRun(t, k, block);
    assert t == 0 || t == 1 || t == 2;
    OneMore(choices, Execute(t));
    ExecuteKeeps(Run(choices), k, past, block, t);
    longer := choices + [Execute(t)];
  }

  lemma OneBlock(choices: seq<Choice>, k: nat, past: seq<nat>, block: seq<nat>) returns (longer: seq<Choice>)
    requires Legal(choices) && InPhase(Run(choices), k, past, []) && IsBlock(block, 3 * k)
    ensures Legal(longer) && InPhase(Run(longer), k, past, block)
  {
    hide InPhase, Legal, Run;
    assert [] + [block[0]] == [block[0]] && [block[0]] + [block[1]] == [block[0], block[1]];
    assert [block[0], block[1]] + [block[2]] == block;
    longer := OneSegment(choices, k, past, [], block[0]);
    longer := OneSegment(longer, k, past, [block[0]], block[1]);
    longer := OneSegment(longer, k, past, [block[0], block[1]], block[2]);
  }

  lemma OneDelta(choices: seq<Choice>, k: nat, past: seq<nat>, block: seq<nat>) returns (longer: seq<Choice>)
    requires Legal(choices) && InPhase(Run(choices), k, past, block) && IsBlock(block, 3 * k) && k < 2
    ensures Legal(longer) && InPhase(Run(longer), k + 1, past + block, [])
  {
    hide Legal, Run, Next;
    DeltaComes(Run(choices), k, past, block);
    OneMore(choices, Delta);
    DeltaKeeps(Run(choices), k, past, block);
    longer := choices + [Delta];
  }

  lemma DeltaComes(s: State, k: nat, past: seq<nat>, block: seq<nat>)
    requires InPhase(s, k, past, block) && IsBlock(block, 3 * k) && k < 2
    ensures Enabled(s, Delta)
  {
    BlockIsFull(block, 3 * k);
    assert HasRun(0, k, block) && HasRun(1, k, block) && HasRun(2, k, block);
    assert 0 in s.notified;
  }

  // Three different numbers out of three are all of them.
  lemma BlockIsFull(block: seq<nat>, base: nat)
    requires IsBlock(block, base)
    ensures base + 1 in block && base + 2 in block && base + 3 in block
  {
    assert block[0] != block[1] && block[0] != block[2] && block[1] != block[2];
  }

  lemma StartInPhase()
    ensures Legal([]) && InPhase(Run([]), 0, [], [])
  {
    InitInPhase();
  }

  // Conversely each register of that form is the outcome of a schedule.
  lemma PhasedIsPossible(register: seq<nat>) returns (choices: seq<Choice>)
    requires Phased(register, 3)
    ensures Legal(choices) && Finished(Run(choices)) && Run(choices).register == register
  {
    hide InPhase, Legal, Run, IsBlock, Phased, HasRun, Finished;
    BlocksOf(register);
    JoinBlocks(register);
    var a, b, c := register[0..3], register[3..6], register[6..9];
    StartInPhase();
    choices := OneBlock([], 0, [], a);
    choices := OneDelta(choices, 0, [], a);
    choices := OneBlock(choices, 1, [] + a, b);
    choices := OneDelta(choices, 1, [] + a, b);
    choices := OneBlock(choices, 2, [] + a + b, c);
    FullAtLast(Run(choices), [] + a + b, c);
  }

  lemma JoinBlocks(register: seq<nat>)
    requires Phased(register, 3)
    ensures |register| == 9 && [] + register[0..3] + register[3..6] + register[6..9] == register
  {
  }

  lemma FullAtLast(s: State, past: seq<nat>, block: seq<nat>)
    requires InPhase(s, 2, past, block) && IsBlock(block, 6)
    ensures Finished(s) && s.register == past + block
  {
    BlockIsFull(block, 6);
    assert HasRun(0, 2, block) && HasRun(1, 2, block) && HasRun(2, 2, block);
  }

  // ----- counting the orders

  /** The place of a permutation among the six. */
  function Rank(block: seq<nat>, base: nat): (rank: nat)
    requires IsBlock(block, base)
    ensures rank < 6
  {
    2 * (block[0] - base - 1) + if block[1] < block[2] then 0 else 1
  }

  lemma RankInjective(a: seq<nat>, b: seq<nat>, base: nat)
    requires IsBlock(a, base) && IsBlock(b, base) && Rank(a, base) == Rank(b, base)
    ensures a == b
  {
    assert a[0] != a[1] && a[0] != a[2] && a[1] != a[2];
    assert b[0] != b[1] && b[0] != b[2] && b[1] != b[2];
  }

  lemma BlocksOf(register: seq<nat>)
    requires Phased(register, 3)
    ensures IsBlock(register[0..3], 0) && IsBlock(register[3..6], 3) && IsBlock(register[6..9], 6)
  {
    assert IsBlock(register[3 * 0..3 * 0 + 3], 3 * 0) && IsBlock(register[3 * 1..3 * 1 + 3], 3 * 1)
        && IsBlock(register[3 * 2..3 * 2 + 3], 3 * 2);
  }

  /** The place of an execution order among the 216. */
  function Code(register: seq<nat>): (code: nat)
    requires Phased(register, 3)
    ensures code < MAX_EXE_ORDERS
  {
    BlocksOf(register);
    36 * Rank(register[0..3], 0) + 6 * Rank(register[3..6], 3) + Rank(register[6..9], 6)
  }

  lemma CodeInjective(a: seq<nat>, b: seq<nat>)
    requires Phased(a, 3) && Phased(b, 3) && Code(a) == Code(b)
    ensures a == b
  {
    BlocksOf(a);
    BlocksOf(b);
    hide IsBlock, Rank, Phased;
    RankInjective(a[0..3], b[0..3], 0);
    RankInjective(a[3..6], b[3..6], 3);
    RankInjective(a[6..9], b[6..9], 6);
    assert a == a[0..3] + a[3..6] + a[6..9] && b == b[0..3] + b[3..6] + b[6..9];
  }

  ghost function Below(n: nat): (r: set<nat>)
    ensures |r| == n && forall i: nat :: i in r <==> i < n
  {
    if n == 0 then {} else Below(n - 1) + {n - 1}
  }

  ghost function Elements(s: seq<nat>): (r: set<nat>)
    ensures forall x :: x in r <==> x in s
  {
    if s == [] then {} else {s[0]} + Elements(s[1..])
  }

  lemma {:induction false} SizeOfDistinct(s: seq<nat>)
    requires Distinct(s)
    ensures |Elements(s)| == |s|
  {
    if s != [] {
      SizeOfDistinct(s[1..]);
      assert s[0] !in Elements(s[1..]);
    }
  }

  lemma SubsetSize(a: set<nat>, b: set<nat>)
    requires a <= b
    ensures |a| <= |b| && (|a| == |b| ==> a == b)
  {
    var rest := b - a;
    assert b == a + rest;
    if |a| == |b| {
      assert rest == {};
    }
  }

  // Pigeons and holes.
  lemma Pigeonhole(s: seq<nat>, n: nat)
    requires Distinct(s) && forall x <- s :: x < n
    ensures |s| <= n && (|s| == n ==> forall i: nat | i < n :: i in s)
  {
    SizeOfDistinct(s);
    SubsetSize(Elements(s), Below(n));
    assert |s| == n ==> forall i: nat | i < n :: i in Below(n);
  }

  /** No order twice, and only orders the threads can produce. */
  predicate IsBook(book: seq<seq<nat>>) {
    Distinct(book) && forall e <- book :: Phased(e, 3)
  }

  // A book never has more than 216 orders, and with 216 it has all of them.
  lemma BookBound(book: seq<seq<nat>>)
    requires IsBook(book)
    ensures |book| <= MAX_EXE_ORDERS
    ensures |book| == MAX_EXE_ORDERS ==> forall e | Phased(e, 3) :: e in book
  {
    hide Phased;
    var codes := seq(|book|, i requires 0 <= i < |book| => assert book[i] in book; Code(book[i]));
    forall i, j | 0 <= i < j < |codes|
      ensures codes[i] != codes[j]
    {
      assert book[i] in book && book[j] in book;
      if codes[i] == codes[j] {
        CodeInjective(book[i], book[j]);
      }
    }
    Pigeonhole(codes, MAX_EXE_ORDERS);
    if |book| == MAX_EXE_ORDERS {
      forall e | Phased(e, 3)
        ensures e in book
      {
        assert Code(e) in codes;
        var i :| 0 <= i < |codes| && codes[i] == Code(e);
        assert book[i] in book;
        CodeInjective(book[i], e);
      }
    }
  }

  // ----- the sweep

  /** The orders in the book after these executions, each where it first came. */
  function Collected(executions: seq<seq<nat>>): seq<seq<nat>> {
    if executions == [] then []
    else
      var before, last := Collected(executions[..|executions| - 1]), executions[|executions| - 1];
      if last in before then before else before + [last]
  }

  lemma {:induction false} CollectedIsBook(executions: seq<seq<nat>>)
    requires forall e <- executions :: Phased(e, 3)
    ensures IsBook(Collected(executions))
    ensures forall e :: e in Collected(executions) <==> e in executions
  {
    hide Phased;
    if executions != [] {
      var init, last := executions[..|executions| - 1], executions[|executions| - 1];
      assert executions == init + [last];
      CollectedIsBook(init);
    }
  }

  method DuplicatedExe(book: seq<seq<nat>>, exe: seq<nat>) returns (duplicated: bool)
    requires |exe| == EXE_LENGTH && forall e <- book :: |e| == EXE_LENGTH
    ensures duplicated <==> exe in book
  {
    var i := 0;
    while i < |book|
      invariant 0 <= i <= |book| && exe !in book[..i]
    {
      var same := true;
      var j := 0;
      assert book[i] in book;
      while j < |exe|
        invariant 0 <= j <= |exe| && same && exe[..j] == book[i][..j]
      {
        if exe[j] != book[i][j] {
          same := false;
          break;
        }
        j := j + 1;
      }
      if same {
        assert exe == exe[..j] && book[i] == book[i][..j];
        return true;
      }
      i := i + 1;
    }
    duplicated := false;
  }

  /**
    The sweep over what successive runs of ex3 leave behind; `numberExe` is -1 to go on until
    all orders were seen, and the sweep stops early only when there are no more runs to look at.
   */
  method Sweep(executions: seq<seq<nat>>, numberExe: int) returns (book: seq<seq<nat>>, runs: nat)
    requires executions != [] && (numberExe == -1 || numberExe > 0) && forall e <- executions :: Phased(e, 3)
    ensures 1 <= runs <= |executions| && book == Collected(executions[..runs])
    ensures IsBook(book) && |book| <= MAX_EXE_ORDERS && |book| <= runs
    ensures forall e :: e in book <==> e in executions[..runs]
    ensures runs < |executions| ==> if numberExe == -1 then forall e | Phased(e, 3) :: e in book else runs == numberExe
    ensures numberExe != -1 ==> runs <= numberExe
    ensures numberExe == -1 && runs > 1 ==> |Collected(executions[..runs - 1])| < MAX_EXE_ORDERS
  {
    hide Phased, Collected, IsBook, IsBlock, Distinct;
    CollectedNext(executions, 0);
    assert executions[..0] == [];
    CollectedNothing();
    book, runs := [executions[0]], 1;
    var runnable := numberExe != runs && runs != MAX_EXE_ORDERS;
    Kept(executions, runs);
    while runnable && runs < |executions|
      invariant 1 <= runs <= |executions| && book == Collected(executions[..runs]) && |book| <= runs
      invariant forall e <- book :: |e| == EXE_LENGTH
      invariant !runnable <==> (if numberExe == -1 then |book| == MAX_EXE_ORDERS else runs == numberExe)
      invariant numberExe != -1 ==> runs <= numberExe
      invariant numberExe == -1 && runs > 1 ==> |Collected(executions[..runs - 1])| < MAX_EXE_ORDERS
    {
      Kept(executions, runs);
      BookBound(book);
      var exe := executions[runs];
      assert exe in executions;
      LengthOf(exe);
      var duplicated := DuplicatedExe(book, exe);
      if !duplicated {
        book := book + [exe];
      }
      CollectedNext(executions, runs);
      runs := runs + 1;
      Kept(executions, runs);
      if numberExe == -1 {
        runnable := |book| != MAX_EXE_ORDERS;
      } else {
        runnable := runs != numberExe;
      }
    }
    Kept(executions, runs);
    BookBound(book);
  }

  lemma CollectedNothing()
    ensures Collected([]) == []
  {
  }

  lemma CollectedNext(executions: seq<seq<nat>>, runs: nat)
    requires runs < |executions|
    ensures Collected(executions[..runs + 1]) ==
              (var before := Collected(executions[..runs]);
               if executions[runs] in before then before else before + [executions[runs]])
  {
    assert executions[..runs + 1][..runs] == executions[..runs];
  }

  lemma LengthOf(e: seq<nat>)
    requires Phased(e, 3)
    ensures |e| == EXE_LENGTH
  {
  }

  lemma Kept(executions: seq<seq<nat>>, runs: nat)
    requires runs <= |executions| && forall e <- executions :: Phased(e, 3)
    ensures var book := Collected(executions[..runs]);
            && IsBook(book) && (forall e :: e in book <==> e in executions[..runs])
            && (forall e <- book :: |e| == EXE_LENGTH)
  {
    assert forall e <- executions[..runs] :: e in executions;
    CollectedIsBook(executions[..runs]);
  }
}
