/**
  The blocking FIFO between one producer and one consumer, under every interleaving: waits are
  step boundaries, and a notification is immediate, so it wakes only who already waits.
 */
module Fifo {
  const MAX: nat := 10
  const SOURCE := "&abcdefgh@"

  // ----- the ring

  datatype Ring = Ring(data: seq<char>, first: nat, num: nat)

  predicate GoodRing(r: Ring) {
    |r.data| == MAX && r.first < MAX && r.num <= MAX
  }

  /** The elements from the oldest on. */
  function Contents(r: Ring): (s: seq<char>)
    requires GoodRing(r)
    ensures |s| == r.num
  {
    seq(r.num, i requires 0 <= i < r.num => r.data[(r.first + i) % MAX])
  }

  function Write(r: Ring, c: char): Ring
    requires GoodRing(r)
  {
    r.(data := r.data[(r.first + r.num) % MAX := c], num := r.num + 1)
  }

  function Read(r: Ring): Ring
    requires GoodRing(r) && r.num > 0
  {
    r.(num := r.num - 1, first := (r.first + 1) % MAX)
  }

  lemma WriteContents(r: Ring, c: char)
    requires GoodRing(r) && r.num < MAX
    ensures GoodRing(Write(r, c)) && Contents(Write(r, c)) == Contents(r) + [c]
  {
    forall i | 0 <= i < r.num
      ensures Contents(Write(r, c))[i] == Contents(r)[i]
    {
      OtherPlace(r.first, i, r.num);
    }
  }

  // Places of the ring less than its size apart are different.
  lemma OtherPlace(first: nat, i: nat, j: nat)
    requires first < MAX && i < j < MAX
    ensures (first + i) % MAX != (first + j) % MAX
  {
    Wrapped(first + i);
    Wrapped(first + j);
  }

  lemma Wrapped(n: nat)
    requires n < 2 * MAX
    ensures n % MAX == if n < MAX then n else n - MAX
  {
  }

  lemma ReadContents(r: Ring)
    requires GoodRing(r) && r.num > 0
    ensures GoodRing(Read(r)) && Contents(r) == [r.data[r.first]] + Contents(Read(r))
  {
    forall i | 0 <= i < r.num - 1
      ensures Contents(Read(r))[i] == Contents(r)[i + 1]
    {
      Wrapped(r.first + 1);
      Wrapped(r.first + (i + 1));
      Wrapped((r.first + 1) % MAX + i);
    }
  }

  class FifoChannel {
    const data: array<char>
    var numElements: nat
    var first: nat

    ghost predicate Valid()
      reads this, data
    {
      data.Length == MAX && first < MAX && numElements <= MAX
    }

    ghost function Value(): Ring
      reads this, data
    {
      Ring(data[..], first, numElements)
    }

    constructor ()
      ensures Valid() && numElements == 0 && fresh(data)
    {
      data := new char[MAX](_ => ' ');
      numElements, first := 0, 0;
    }

    /** fifo_write from after the wait on. */
    method FifoWrite(c: char)
      requires Valid() && numElements < MAX
      modifies this`numElements, data
      ensures Valid() && Value() == Write(old(Value()), c)
      ensures Contents(Value()) == old(Contents(Value())) + [c]
    {
      WriteContents(Value(), c);
      data[(first + numElements) % MAX] := c;
      numElements := numElements + 1;
      assert data[..] == old(data[..])[(first + old(numElements)) % MAX := c];
    }

    /** fifo_read from after the wait on. */
    method FifoRead() returns (c: char)
      requires Valid() && numElements > 0
      modifies this`numElements, this`first
      ensures Valid() && Value() == Read(old(Value()))
      ensures old(Contents(Value())) == [c] + Contents(Value())
    {
      ReadContents(Value());
      c := data[first];
      numElements := numElements - 1;
      first := (first + 1) % MAX;
    }
  }

  // ----- the two threads

  /** Sleeping until a time, waiting for the other's event, or woken from that wait. */
  datatype Thread = Idle(wake: nat) | Blocked | Woken

  datatype State = State(ring: Ring, p: nat, producer: Thread, consumer: Thread, now: nat,
                         written: seq<char>, read: seq<char>)

  function Init(): State {
    State(Ring(seq(MAX, _ => ' '), 0, 0), 0, Idle(0), Idle(0), 0, [], [])
  }

  /** `act` is the outcome of the Bernoulli draw. */
  datatype Choice = Produce(act: bool) | Consume(act: bool) | Tick

  predicate Runnable(t: Thread, now: nat) {
    t.Woken? || t == Idle(now)
  }

  predicate Enabled(s: State, c: Choice) {
    match c
    case Produce(_) => Runnable(s.producer, s.now)
    case Consume(_) => Runnable(s.consumer, s.now)
    case Tick => !Runnable(s.producer, s.now) && !Runnable(s.consumer, s.now) && (s.producer.Idle? || s.consumer.Idle?)
  }

  function Notified(t: Thread): Thread {
    if t.Blocked? then Woken else t
  }

  /** The rest of send, the step of p through the source string, and the wait of one nanosecond. */
  function Send(s: State): State
    requires GoodRing(s.ring) && s.p < |SOURCE|
  {
    s.(ring := Write(s.ring, SOURCE[s.p]), written := s.written + [SOURCE[s.p]], consumer := Notified(s.consumer),
       p := if s.p + 1 == |SOURCE| then 0 else s.p + 1, producer := Idle(s.now + 1))
  }

  function Receive(s: State): State
    requires GoodRing(s.ring) && s.ring.num > 0
  {
    s.(ring := Read(s.ring), read := s.read + [s.ring.data[s.ring.first]], producer := Notified(s.producer),
       consumer := Idle(s.now + 1))
  }

  /** The earliest time a sleeping thread wakes up. */
  function NextTime(s: State): nat
    requires s.producer.Idle? || s.consumer.Idle?
  {
    if !s.consumer.Idle? then s.producer.wake
    else if !s.producer.Idle? || s.consumer.wake < s.producer.wake then s.consumer.wake
    else s.producer.wake
  }

  function Next(s: State, c: Choice): State
    requires Inv(s) && Enabled(s, c)
  {
    match c
    case Produce(act) =>
      if s.producer.Woken? then Send(s)
      else if !act then s.(producer := Idle(s.now + 1))
      else if s.ring.num == MAX then s.(producer := Blocked)
      else Send(s)
    case Consume(act) =>
      if s.consumer.Woken? then Receive(s)
      else if !act then s.(consumer := Idle(s.now + 1))
      else if s.ring.num == 0 then s.(consumer := Blocked)
      else Receive(s)
    case Tick => s.(now := NextTime(s))
  }

  // ----- what every interleaving keeps

  /** A blocked thread waits for what is still the case; a woken one finds what it was woken for. */
  predicate Waits(s: State) {
    && (s.producer.Blocked? ==> s.ring.num == MAX) && (s.producer.Woken? ==> s.ring.num < MAX)
    && (s.consumer.Blocked? ==> s.ring.num == 0) && (s.consumer.Woken? ==> s.ring.num > 0)
    && (s.producer.Idle? ==> s.now <= s.producer.wake <= s.now + 1)
    && (s.consumer.Idle? ==> s.now <= s.consumer.wake <= s.now + 1)
  }

  /** The characters written are the source string over and over. */
  predicate Cyclic(s: seq<char>) {
    forall k | 0 <= k < |s| :: s[k] == SOURCE[k % |SOURCE|]
  }

  predicate Inv(s: State) {
    && GoodRing(s.ring) && Waits(s)
    && s.written == s.read + Contents(s.ring) && Cyclic(s.written) && s.p == |s.written| % |SOURCE|
  }

  lemma SendKeeps(s: State)
    requires Inv(s) && s.ring.num < MAX
    ensures Inv(Send(s))
  {
    WriteContents(s.ring, SOURCE[s.p]);
    var t := Send(s);
    assert t.written == s.read + (Contents(s.ring) + [SOURCE[s.p]]);
    hide Contents, Write, GoodRing;
    assert forall k | 0 <= k < |s.written| :: t.written[k] == s.written[k];
  }

  lemma ReceiveKeeps(s: State)
    requires Inv(s) && s.ring.num > 0
    ensures Inv(Receive(s))
  {
    ReadContents(s.ring);
    assert s.read + ([s.ring.data[s.ring.first]] + Contents(Receive(s).ring))
           == (s.read + [s.ring.data[s.ring.first]]) + Contents(Receive(s).ring);
  }

  lemma StepKeeps(s: State, c: Choice)
    requires Inv(s) && Enabled(s, c)
    ensures Inv(Next(s, c))
  {
    hide Contents, Cyclic, Write, Read;
    match c
    case Produce(act) =>
      if s.producer.Woken? || (act && s.ring.num < MAX) {
        SendKeeps(s);
      }
    case Consume(act) =>
      if s.consumer.Woken? || (act && s.ring.num > 0) {
        ReceiveKeeps(s);
      }
    case Tick =>
  }

  // ----- runs

  /** The scheduler may make these choices one after the other. */
  ghost predicate Legal(choices: seq<Choice>)
    decreases |choices|, 0
  {
    choices == []
    || (Legal(choices[..|choices| - 1]) && Enabled(Run(choices[..|choices| - 1]), choices[|choices| - 1]))
  }

  /** The state they lead to. */
  ghost function Run(choices: seq<Choice>): (s: State)
    requires Legal(choices)
    ensures Inv(s)
    decreases |choices|, 1
  {
    if choices == [] then Init()
    else
      var before := Run(choices[..|choices| - 1]);
      StepKeeps(before, choices[|choices| - 1]);
      Next(before, choices[|choices| - 1])
  }

  // Nothing is lost, repeated or reordered: what was written is what was read and then what the
  // ring holds; and what was read is the beginning of the source string repeated for ever.
  lemma Delivered(choices: seq<Choice>)
    requires Legal(choices)
    ensures var s := Run(choices);
            && s.written == s.read + Contents(s.ring) && |s.read| <= |s.written| <= |s.read| + MAX
            && Cyclic(s.read) && Cyclic(s.written)
  {
    var s := Run(choices);
    assert forall k | 0 <= k < |s.read| :: s.read[k] == s.written[k];
  }

  // The threads never block each other: one of them can always run, now or after a tick.
  lemma NoDeadlock(choices: seq<Choice>)
    requires Legal(choices)
    ensures var s := Run(choices);
            && !(s.producer.Blocked? && s.consumer.Blocked?)
            && (Legal(choices + [Produce(true)]) || Legal(choices + [Consume(true)]) || Legal(choices + [Tick]))
  {
    forall c: Choice
      ensures Legal(choices + [c]) <==> Enabled(Run(choices), c)
    {
      assert (choices + [c])[..|choices|] == choices;
    }
  }

  // No wake-up is lost: whoever is blocked is woken by the other's next access.
  lemma WokenByTheOther(choices: seq<Choice>)
    requires Legal(choices)
    ensures var s := Run(choices);
            && (s.consumer.Blocked? && Runnable(s.producer, s.now) ==> Next(s, Produce(true)).consumer.Woken?)
            && (s.producer.Blocked? && Runnable(s.consumer, s.now) ==> Next(s, Consume(true)).producer.Woken?)
  {
    hide Contents, Cyclic;
  }

  // ----- what one turn does, seen from outside

  // The producer writes the next character of the source if it acts and fewer than ten are unread, or was woken from a
  // wait for room; only a full fifo blocks it, and a consumer that waits for a character is woken.
  lemma ProducerTurn(s: State, act: bool)
    requires Inv(s) && Enabled(s, Produce(act))
    ensures var t, sends := Next(s, Produce(act)), s.producer.Woken? || (act && |s.written| - |s.read| < 10);
            && t.written == (if sends then s.written + ["&abcdefgh@"[|s.written| % 10]] else s.written)
            && t.read == s.read && t.now == s.now
            && t.producer == (if act && |s.written| - |s.read| == 10 then Blocked else Idle(s.now + 1))
            && t.consumer == if sends && s.consumer.Blocked? then Woken else s.consumer
  {
    hide Contents, Cyclic, Write;
  }

  // The consumer reads the oldest unread character if it acts and there is one, or was woken from a wait for one.
  lemma ConsumerTurn(s: State, act: bool)
    requires Inv(s) && Enabled(s, Consume(act))
    ensures var t, takes := Next(s, Consume(act)), s.consumer.Woken? || (act && |s.read| < |s.written|);
            && (takes ==> |s.read| < |s.written|)
            && t.read == (if takes then s.read + [s.written[|s.read|]] else s.read)
            && t.written == s.written && t.now == s.now
            && t.consumer == (if act && |s.read| == |s.written| then Blocked else Idle(s.now + 1))
            && t.producer == if takes && s.producer.Blocked? then Woken else s.producer
  {
    if s.ring.num > 0 {
      ReadContents(s.ring);
      assert (s.read + Contents(s.ring))[|s.read|] == Contents(s.ring)[0];
    }
    hide Contents, Cyclic, Read;
  }

  // A tick is one nanosecond, and somebody runs after it.
  lemma ClockTurn(s: State)
    requires Inv(s) && Enabled(s, Tick)
    ensures Next(s, Tick) == s.(now := s.now + 1)
    ensures Runnable(s.producer, s.now + 1) || Runnable(s.consumer, s.now + 1)
  {
    hide Contents, Cyclic;
  }
}
