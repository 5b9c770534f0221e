/**
  The payload event queue peq_with_get: a multimap from times to transactions and one event
  that is re-armed while the queue is drained.
 */
module PayloadQueue {
  import opened Options

  datatype Entry<T> = Entry(time: nat, trans: T)

  // ----- the multimap

  /** An entry goes behind all entries that are not later. */
  function Insert<T>(s: seq<Entry<T>>, e: Entry<T>): (r: seq<Entry<T>>)
    ensures |r| == |s| + 1
  {
    if s == [] || s[0].time > e.time then [e] + s else [s[0]] + Insert(s[1..], e)
  }

  predicate Sorted<T>(s: seq<Entry<T>>) {
    forall i, j | 0 <= i < j < |s| :: s[i].time <= s[j].time
  }

  lemma HeadLeast<T>(s: seq<Entry<T>>)
    requires Sorted(s) && s != []
    ensures forall x <- s :: s[0].time <= x.time
  {
    forall x <- s
      ensures s[0].time <= x.time
    {
      var i :| 0 <= i < |s| && s[i] == x;
    }
  }

  lemma SortedCons<T>(x: Entry<T>, s: seq<Entry<T>>)
    requires Sorted(s) && (s != [] ==> x.time <= s[0].time)
    ensures Sorted([x] + s)
  {
    var r := [x] + s;
    assert forall i | 1 <= i < |r| :: r[i] == s[i - 1];
  }

  lemma {:induction false} InsertSorted<T>(s: seq<Entry<T>>, e: Entry<T>)
    requires Sorted(s)
    ensures Sorted(Insert(s, e)) && Insert(s, e)[0].time <= e.time
    ensures s != [] ==> Insert(s, e)[0] == s[0] || Insert(s, e)[0] == e
    ensures s == [] ==> Insert(s, e)[0] == e
  {
    if s == [] || s[0].time > e.time {
      SortedCons(e, s);
    } else {
      InsertSorted(s[1..], e);
      SortedCons(s[0], Insert(s[1..], e));
    }
  }

  lemma {:induction false} InsertBehind<T>(a: seq<Entry<T>>, b: seq<Entry<T>>, e: Entry<T>)
    requires forall x <- a :: x.time <= e.time
    ensures Insert(a + b, e) == a + Insert(b, e)
  {
    if a == [] {
      assert a + b == b;
    } else {
      InsertBehind(a[1..], b, e);
      assert (a + b)[1..] == a[1..] + b;
      assert a + Insert(b, e) == [a[0]] + (a[1..] + Insert(b, e));
    }
  }

  // ----- stable sorting

  /** All notified transactions, by time, and in the order of notification where times agree. */
  function StableSort<T>(notified: seq<Entry<T>>): seq<Entry<T>> {
    if notified == [] then [] else Insert(StableSort(notified[..|notified| - 1]), notified[|notified| - 1])
  }

  /** The entries with this time, in order. */
  function At<T>(s: seq<Entry<T>>, time: nat): seq<Entry<T>> {
    if s == [] then [] else (if s[0].time == time then [s[0]] else []) + At(s[1..], time)
  }

  lemma {:induction false} AtAppend<T>(a: seq<Entry<T>>, b: seq<Entry<T>>, time: nat)
    ensures At(a + b, time) == At(a, time) + At(b, time)
  {
    if a == [] {
      assert a + b == b;
    } else {
      AtAppend(a[1..], b, time);
      assert (a + b)[0] == a[0] && (a + b)[1..] == a[1..] + b;
      var first := if a[0].time == time then [a[0]] else [];
      assert first + (At(a[1..], time) + At(b, time)) == (first + At(a[1..], time)) + At(b, time);
    }
  }

  lemma {:induction false} AtLater<T>(s: seq<Entry<T>>, time: nat)
    requires forall x <- s :: x.time > time
    ensures At(s, time) == []
  {
    if s != [] {
      AtLater(s[1..], time);
    }
  }

  lemma {:induction false} AtInsert<T>(s: seq<Entry<T>>, e: Entry<T>, time: nat)
    requires Sorted(s)
    ensures At(Insert(s, e), time) == At(s, time) + if e.time == time then [e] else []
  {
    if s == [] || s[0].time > e.time {
      assert ([e] + s)[1..] == s;
      if e.time == time {
        AtLater(s, time);
      }
    } else {
      AtInsert(s[1..], e, time);
      assert Insert(s, e)[1..] == Insert(s[1..], e);
    }
  }

  // StableSort is what its name says: sorted, and for each time the entries of that time are
  // the notified ones, in their order.
  lemma {:induction false} StableSortSorts<T>(notified: seq<Entry<T>>)
    ensures Sorted(StableSort(notified))
    ensures forall time: nat :: At(StableSort(notified), time) == At(notified, time)
  {
    if notified != [] {
      var init, last := notified[..|notified| - 1], notified[|notified| - 1];
      StableSortSorts(init);
      InsertSorted(StableSort(init), last);
      forall time: nat
        ensures At(StableSort(notified), time) == At(notified, time)
      {
        AtInsert(StableSort(init), last, time);
        AtAppend(init, [last], time);
        assert notified == init + [last];
        assert At([last], time) == if last.time == time then [last] else [];
      }
    }
  }

  lemma {:induction false} AtNonempty<T>(s: seq<Entry<T>>, k: nat)
    requires k < |s|
    ensures s[k] in At(s, s[k].time)
  {
    if k > 0 {
      AtNonempty(s[1..], k - 1);
    }
  }

  lemma {:induction false} AtMembers<T>(s: seq<Entry<T>>, time: nat)
    ensures forall x <- At(s, time) :: x in s && x.time == time
  {
    if s != [] {
      AtMembers(s[1..], time);
    }
  }

  lemma SomeAt<T>(s: seq<Entry<T>>, time: nat)
    ensures At(s, time) != [] ==> s != []
  {
  }

  lemma NowhereEmpty<T>(s: seq<Entry<T>>)
    requires forall time: nat :: At(s, time) == []
    ensures s == []
  {
    if s != [] {
      AtNonempty(s, 0);
    }
  }

  // There is only one such sequence.
  lemma {:induction false} StableSortUnique<T>(a: seq<Entry<T>>, b: seq<Entry<T>>)
    requires Sorted(a) && Sorted(b) && forall time: nat :: At(a, time) == At(b, time)
    ensures a == b
  {
    if a == [] {
      assert forall time: nat :: At(a, time) == [];
      NowhereEmpty(b);
    } else {
      AtNonempty(a, 0);
      SomeAt(b, a[0].time);
      AtMembers(b, a[0].time);
      AtNonempty(b, 0);
      AtMembers(a, b[0].time);
      assert a[0].time <= b[0].time <= a[0].time;
      assert At(a, a[0].time)[0] == a[0] && At(b, a[0].time)[0] == b[0];
      forall time: nat
        ensures At(a[1..], time) == At(b[1..], time)
      {
        var first := if a[0].time == time then [a[0]] else [];
        assert At(a, time) == first + At(a[1..], time) && At(b, time) == first + At(b[1..], time);
        assert At(a[1..], time) == At(a, time)[|first|..] && At(b[1..], time) == At(b, time)[|first|..];
      }
      StableSortUnique(a[1..], b[1..]);
    }
  }

  // ----- the queue and its event, over whole runs

  /** `pending` is the time for which the event is notified; `awake` while the consumer drains the queue. */
  datatype State<T> = State(queue: seq<Entry<T>>, pending: Option<nat>, awake: bool, now: nat,
                            notified: seq<Entry<T>>, delivered: seq<(Entry<T>, nat)>)

  /** An event keeps the earlier of two notifications (section 5.10 of IEEE 1666-2011). */
  function Earlier(pending: Option<nat>, time: nat): Option<nat> {
    if pending == None || pending.value > time then Some(time) else pending
  }

  datatype Step<T> =
    | Notify(trans: T, delay: nat)
    | NotifyNow(trans: T)
    | Get
    | CancelAll
    | Fire
    | Advance(time: nat)

  predicate Enabled<T(==)>(s: State<T>, step: Step<T>) {
    match step
    case Notify(_, _) => true
    case NotifyNow(_) => true
    case Get => true
    case CancelAll => true
    case Fire => s.pending == Some(s.now)
    case Advance(time) => time > s.now && (s.pending == None || time <= s.pending.value)
  }

  /** get_next_transaction: what it returns, the queue and the event afterwards. */
  function Fetch<T>(queue: seq<Entry<T>>, pending: Option<nat>, now: nat): (Option<Entry<T>>, seq<Entry<T>>, Option<nat>) {
    if queue == [] then (None, queue, pending)
    else if queue[0].time <= now then (Some(queue[0]), queue[1..], pending)
    else (None, queue, Earlier(pending, queue[0].time))
  }

  /**
    The consumer goes on until it gets null, then waits for the event again. A transaction that is
    cancelled counts as not notified.
   */
  function Next<T>(s: State<T>, step: Step<T>): State<T> {
    match step
    case Notify(trans, delay) =>
      var e := Entry(s.now + delay, trans);
      s.(queue := Insert(s.queue, e), pending := Earlier(s.pending, e.time), notified := s.notified + [e])
    case NotifyNow(trans) =>
      var e := Entry(s.now, trans);
      s.(queue := Insert(s.queue, e), pending := None, awake := true, notified := s.notified + [e])
    case Get =>
      var (got, queue, pending) := Fetch(s.queue, s.pending, s.now);
      s.(queue := queue, pending := pending, awake := got.Some?,
         delivered := if got.Some? then s.delivered + [(got.value, s.now)] else s.delivered)
    case CancelAll => s.(queue := [], pending := None, notified := Entries(s.delivered))
    case Fire => s.(pending := None, awake := true)
    case Advance(time) => s.(now := time)
  }

  function Entries<T>(delivered: seq<(Entry<T>, nat)>): (r: seq<Entry<T>>)
    ensures |r| == |delivered|
  {
    seq(|delivered|, i requires 0 <= i < |delivered| => delivered[i].0)
  }

  ghost predicate Inv<T>(s: State<T>) {
    && Sorted(s.queue)
    && Entries(s.delivered) + s.queue == StableSort(s.notified)
    && (forall d <- s.delivered :: d.0.time <= d.1 <= s.now)
    && (s.pending.Some? ==> s.pending.value >= s.now)
    && (!s.awake && s.queue != [] ==> s.pending.Some? && s.pending.value <= s.queue[0].time)
  }

  lemma NotifiedKept<T>(s: State<T>, e: Entry<T>)
    requires Inv(s) && e.time >= s.now
    ensures Sorted(Insert(s.queue, e)) && Entries(s.delivered) + Insert(s.queue, e) == StableSort(s.notified + [e])
    ensures Insert(s.queue, e)[0].time <= e.time
    ensures s.queue != [] ==> Insert(s.queue, e)[0] == s.queue[0] || Insert(s.queue, e)[0] == e
    ensures s.queue == [] ==> Insert(s.queue, e)[0] == e
  {
    InsertSorted(s.queue, e);
    hide Insert;
    assert forall x <- Entries(s.delivered) :: x.time <= e.time;
    InsertBehind(Entries(s.delivered), s.queue, e);
    assert (s.notified + [e])[..|s.notified|] == s.notified;
  }

  lemma {:induction false} SortedStays<T>(s: seq<Entry<T>>)
    requires Sorted(s)
    ensures StableSort(s) == s
  {
    if s != [] {
      var init, last := s[..|s| - 1], s[|s| - 1];
      SortedStays(init);
      assert s == init + [last] && init + [] == init;
      LastLatest(s);
      InsertBehind(init, [], last);
      hide Sorted, Insert;
      assert StableSort(s) == Insert(StableSort(init), last);
      InsertNowhere(last);
    }
  }

  lemma LastLatest<T>(s: seq<Entry<T>>)
    requires Sorted(s) && s != []
    ensures forall x <- s[..|s| - 1] :: x.time <= s[|s| - 1].time
  {
    var init := s[..|s| - 1];
    forall x <- init
      ensures x.time <= s[|s| - 1].time
    {
      var i :| 0 <= i < |init| && init[i] == x;
      assert s[i] == x;
    }
  }

  lemma InsertNowhere<T>(e: Entry<T>)
    ensures Insert([], e) == [e]
  {
  }

  lemma CancelledKept<T>(s: State<T>)
    requires Inv(s)
    ensures Entries(s.delivered) + [] == StableSort(Entries(s.delivered))
  {
    var delivered := Entries(s.delivered);
    StableSortSorts(s.notified);
    hide StableSort;
    forall i, j | 0 <= i < j < |delivered|
      ensures delivered[i].time <= delivered[j].time
    {
      assert delivered[i] == (delivered + s.queue)[i] && delivered[j] == (delivered + s.queue)[j];
    }
    SortedStays(delivered);
    assert delivered + [] == delivered;
  }

  // Every step keeps: what was delivered followed by what is queued is the stable sort of all that
  // was notified, nothing came early, and the event is pending unless there is nothing to wait for.
  lemma StepKeeps<T>(s: State<T>, step: Step<T>)
    requires Inv(s) && Enabled(s, step)
    ensures Inv(Next(s, step))
  {
    hide Inv, Next;
    match step
    case Notify(trans, delay) => NotifyKeeps(s, trans, delay);
    case NotifyNow(trans) => NotifyNowKeeps(s, trans);
    case Get => GetKeeps(s);
    case CancelAll => CancelKeeps(s);
    case _ => ClockKeeps(s, step);
  }

  lemma NotifyKeeps<T>(s: State<T>, trans: T, delay: nat)
    requires Inv(s)
    ensures Inv(Next(s, Notify(trans, delay)))
  {
    var e := Entry(s.now + delay, trans);
    NotifiedKept(s, e);
    hide Insert, StableSort, Sorted, Entries;
    var queue, pending := Insert(s.queue, e), Earlier(s.pending, e.time);
    EarlierInTime(s, e, queue[0].time);
    hide Earlier;
    NotifiedInv(s, queue, pending, s.notified + [e]);
    hide Inv;
    assert Next(s, Notify(trans, delay)) == s.(queue := queue, pending := pending, notified := s.notified + [e]);
  }

  lemma NotifiedInv<T>(s: State<T>, queue: seq<Entry<T>>, pending: Option<nat>, notified: seq<Entry<T>>)
    requires Inv(s) && Sorted(queue) && Entries(s.delivered) + queue == StableSort(notified) && queue != []
    requires pending.Some? && pending.value >= s.now && (!s.awake ==> pending.value <= queue[0].time)
    ensures Inv(s.(queue := queue, pending := pending, notified := notified))
  {
    hide StableSort, Sorted, Entries;
  }

  // Another notification does not make the event late.
  lemma EarlierInTime<T>(s: State<T>, e: Entry<T>, first: nat)
    requires Inv(s) && e.time >= s.now && first <= e.time && (s.queue == [] || first == s.queue[0].time || first == e.time)
    requires s.queue == [] ==> first == e.time
    ensures var pending := Earlier(s.pending, e.time);
            pending.Some? && pending.value >= s.now && (!s.awake ==> pending.value <= first)
  {
    hide StableSort, Sorted, Entries;
  }

  lemma NotifyNowKeeps<T>(s: State<T>, trans: T)
    requires Inv(s)
    ensures Inv(Next(s, NotifyNow(trans)))
  {
    NotifiedKept(s, Entry(s.now, trans));
    hide Insert, StableSort, Sorted, Entries;
  }

  lemma CancelKeeps<T>(s: State<T>)
    requires Inv(s)
    ensures Inv(Next(s, CancelAll))
  {
    CancelledKept(s);
  }

  lemma ClockKeeps<T>(s: State<T>, step: Step<T>)
    requires Inv(s) && Enabled(s, step) && (step.Fire? || step.Advance?)
    ensures Inv(Next(s, step))
  {
    hide StableSort;
  }

  lemma GetKeeps<T>(s: State<T>)
    requires Inv(s)
    ensures Inv(Next(s, Get))
  {
    hide StableSort;
    var t := Next(s, Get);
    if s.queue != [] && s.queue[0].time <= s.now {
      assert Entries(t.delivered) == Entries(s.delivered) + [s.queue[0]];
      assert Entries(t.delivered) + t.queue == Entries(s.delivered) + s.queue;
    }
  }

  function Start<T>(): State<T> {
    State([], None, false, 0, [], [])
  }

  /** The event is not pending in vain: at its time an entry is due, or that time is now. */
  predicate Needed<T>(s: State<T>) {
    s.pending.Some? ==> s.pending.value == s.now || exists i :: 0 <= i < |s.queue| && s.queue[i].time == s.pending.value
  }

  lemma {:induction false} InsertsOne<T>(s: seq<Entry<T>>, e: Entry<T>) returns (k: nat)
    ensures k <= |s| && Insert(s, e) == s[..k] + [e] + s[k..]
  {
    if s == [] || s[0].time > e.time {
      k := 0;
    } else {
      var j := InsertsOne(s[1..], e);
      k := j + 1;
      assert s[..k] + [e] + s[k..] == [s[0]] + (s[1..][..j] + [e] + s[1..][j..]);
    }
  }

  lemma InsertedTimes<T>(s: seq<Entry<T>>, e: Entry<T>, time: nat)
    requires e.time == time || exists i :: 0 <= i < |s| && s[i].time == time
    ensures exists i :: 0 <= i < |Insert(s, e)| && Insert(s, e)[i].time == time
  {
    var k := InsertsOne(s, e);
    var r := Insert(s, e);
    hide Insert;
    assert r[k] == e;
    if e.time != time {
      var i :| 0 <= i < |s| && s[i].time == time;
      assert r[if i < k then i else i + 1] == s[i];
    }
  }

  lemma NeededStep<T>(s: State<T>, step: Step<T>)
    requires Inv(s) && Enabled(s, step) && Needed(s)
    ensures Needed(Next(s, step))
  {
    var t := Next(s, step);
    match step {
      case Notify(trans, delay) =>
        if t.pending.Some? && t.pending.value != s.now {
          InsertedTimes(s.queue, Entry(s.now + delay, trans), t.pending.value);
        }
      case Get => NeededGet(s);
      case _ =>
    }
  }

  lemma NeededGet<T>(s: State<T>)
    requires Inv(s) && Needed(s)
    ensures Needed(Next(s, Get))
  {
    hide StableSort, Entries;
    var t := Next(s, Get);
    if s.queue != [] && s.queue[0].time <= s.now && s.pending.Some? && s.pending.value != s.now {
      var i :| 0 <= i < |s.queue| && s.queue[i].time == s.pending.value;
      assert i > 0 && t.queue[i - 1] == s.queue[i];
    }
  }

  // In every state of every run, the event is pending for an entry of the queue, or for now.
  lemma {:induction false} NeverInVain<T>(states: seq<State<T>>, steps: seq<Step<T>>, k: nat)
    requires IsRun(states, steps) && k < |states|
    ensures Needed(states[k])
  {
    hide Inv, Enabled, Next, Needed;
    if k == 0 {
      StartNeeded<T>();
    } else {
      NeverInVain(states, steps, k - 1);
      RunKeeps(states, steps, k - 1);
      assert Enabled(states[k - 1], steps[k - 1]);
      NeededStep(states[k - 1], steps[k - 1]);
    }
  }

  lemma StartNeeded<T>()
    ensures Needed(Start<T>())
  {
  }

  /** The states of a run. */
  ghost predicate IsRun<T>(states: seq<State<T>>, steps: seq<Step<T>>) {
    && |states| == |steps| + 1 && states[0] == Start()
    && forall k {:trigger steps[k]} | 0 <= k < |steps| :: Enabled(states[k], steps[k]) && states[k + 1] == Next(states[k], steps[k])
  }

  lemma {:induction false} RunKeeps<T>(states: seq<State<T>>, steps: seq<Step<T>>, k: nat)
    requires IsRun(states, steps) && k < |states|
    ensures Inv(states[k])
  {
    hide Inv, Enabled, Next;
    if k == 0 {
      StartKeeps<T>();
    } else {
      RunKeeps(states, steps, k - 1);
      assert Enabled(states[k - 1], steps[k - 1]);
      StepKeeps(states[k - 1], steps[k - 1]);
    }
  }

  lemma StartKeeps<T>()
    ensures Inv(Start<T>())
  {
    assert Entries<T>([]) + [] == [];
  }

  /** Time stands still while the consumer drains. */
  ghost predicate PromptRun<T>(states: seq<State<T>>, steps: seq<Step<T>>) {
    IsRun(states, steps) && forall k | 0 <= k < |steps| && steps[k].Advance? :: !states[k].awake
  }

  // A consumer that drains the queue without waiting gets each transaction exactly at its time.
  lemma {:induction false} PromptlyDelivered<T>(states: seq<State<T>>, steps: seq<Step<T>>, k: nat)
    requires PromptRun(states, steps) && k < |states|
    ensures forall d <- states[k].delivered :: d.1 == d.0.time
    ensures forall e <- states[k].queue :: e.time >= states[k].now
  {
    hide IsRun, Inv;
    FirstState(states, steps);
    if k > 0 {
      PromptlyDelivered(states, steps, k - 1);
      RunKeeps(states, steps, k - 1);
      PromptStep(states, steps, k - 1);
    }
  }

  lemma FirstState<T>(states: seq<State<T>>, steps: seq<Step<T>>)
    requires IsRun(states, steps)
    ensures |states| == |steps| + 1 && states[0] == Start()
  {
  }

  lemma PromptStep<T>(states: seq<State<T>>, steps: seq<Step<T>>, k: nat)
    requires PromptRun(states, steps) && k < |steps| && Inv(states[k])
    requires forall d <- states[k].delivered :: d.1 == d.0.time
    requires forall e <- states[k].queue :: e.time >= states[k].now
    ensures forall d <- states[k + 1].delivered :: d.1 == d.0.time
    ensures forall e <- states[k + 1].queue :: e.time >= states[k + 1].now
  {
    var s, t, step := states[k], states[k + 1], steps[k];
    assert Enabled(s, step) && t == Next(s, step);
    if step.Notify? || step.NotifyNow? {
      InsertSorted(s.queue, Entry(s.now + if step.Notify? then step.delay else 0, step.trans));
      HeadLeast(t.queue);
    }
  }

  // ----- the class

  /** `now` is the kernel's clock, sc_time_stamp(). */
  class PeqWithGet<T> {
    var scheduledEvents: seq<Entry<T>>
    var event: Option<nat>
    var now: nat
    ghost var awake: bool
    ghost var notified: seq<Entry<T>>
    ghost var delivered: seq<(Entry<T>, nat)>

    ghost function Now(): State<T>
      reads this
    {
      State(scheduledEvents, event, awake, now, notified, delivered)
    }

    ghost predicate Valid()
      reads this
    {
      Inv(Now())
    }

    constructor ()
      ensures Valid() && Now() == Start()
    {
      hide Inv;
      scheduledEvents, event, now, awake, notified, delivered := [], None, 0, false, [], [];
      StartKeeps<T>();
    }

    method Notify(trans: T, t: nat)
      requires Valid()
      modifies this
      ensures Valid() && Now() == Next(old(Now()), Step.Notify(trans, t))
      ensures Entry(now + t, trans) in scheduledEvents && event.Some? && now <= event.value <= now + t
    {
      hide Inv, Insert;
      StepKeeps(Now(), Step.Notify(trans, t));
      NotifiedHeld(Now(), trans, t);
      scheduledEvents := Insert(scheduledEvents, Entry(t + now, trans));
      event := Earlier(event, now + t);
      notified := notified + [Entry(now + t, trans)];
    }

    /** Notifies at once: what was pending is cancelled, and the consumer is triggered. */
    method NotifyNow(trans: T)
      requires Valid()
      modifies this
      ensures Valid() && Now() == Next(old(Now()), Step.NotifyNow(trans))
      ensures awake && Entry(now, trans) in scheduledEvents && scheduledEvents[0].time <= now
    {
      hide Inv, Insert;
      StepKeeps(Now(), Step.NotifyNow(trans));
      NotifiedNowHeld(Now(), trans);
      scheduledEvents := Insert(scheduledEvents, Entry(now, trans));
      event := None;
      notified, awake := notified + [Entry(now, trans)], true;
    }

    /**
      The transaction notified for the earliest time, and first for that time, if its time has come. With
      null nothing is due, and the event is pending in time for whatever is left.
     */
    method GetNextTransaction() returns (trans: Option<T>)
      requires Valid()
      modifies this
      ensures Valid() && Now() == Next(old(Now()), Get)
      ensures trans.Some? ==> IsNext(old(Now()), trans.value)
      ensures trans == None ==> NothingDue(Now()) && scheduledEvents == old(scheduledEvents) && delivered == old(delivered)
    {
      hide Inv, IsNext, NothingDue;
      StepKeeps(Now(), Get);
      GetMeans(Now());
      if scheduledEvents == [] {
        awake := false;
        return None;
      }
      if scheduledEvents[0].time <= now {
        trans := Some(scheduledEvents[0].trans);
        delivered, awake := delivered + [(scheduledEvents[0], now)], true;
        scheduledEvents := scheduledEvents[1..];
        return;
      }
      event := Earlier(event, now + (scheduledEvents[0].time - now));
      awake := false;
      return None;
    }

    /** Nothing that was notified and not yet delivered comes any more. */
    method CancelAll()
      requires Valid()
      modifies this
      ensures Valid() && Now() == Next(old(Now()), Step.CancelAll)
      ensures StableSort(notified) == Entries(old(delivered))
    {
      hide Inv, StableSort, Entries;
      StepKeeps(Now(), Step.CancelAll);
      CancelledKept(Now());
      assert Entries(delivered) + [] == Entries(delivered);
      scheduledEvents := [];
      event := None;
      notified := Entries(delivered);
    }

    // ----- what the kernel does

    /** The event triggers at its time and wakes the consumer. */
    method Fire()
      requires Valid() && event == Some(now)
      modifies this`event, this`awake
      ensures Valid() && Now() == Next(old(Now()), Step.Fire)
    {
      hide Inv;
      StepKeeps(Now(), Step.Fire);
      event, awake := None, true;
    }

    /** Time does not pass a pending notification. */
    method Advance(time: nat)
      requires Valid() && time > now && (event == None || time <= event.value)
      modifies this`now
      ensures Valid() && Now() == Next(old(Now()), Step.Advance(time))
    {
      hide Inv;
      StepKeeps(Now(), Step.Advance(time));
      now := time;
    }
  }

  /** Behind what was delivered, `trans` comes next in the order of all that was notified, and it is due. */
  ghost predicate IsNext<T>(s: State<T>, trans: T) {
    && |s.delivered| < |StableSort(s.notified)|
    && StableSort(s.notified)[|s.delivered|].trans == trans && StableSort(s.notified)[|s.delivered|].time <= s.now
  }

  /** All that is left comes later, and the event is pending in time for it. */
  ghost predicate NothingDue<T>(s: State<T>) {
    forall e <- s.queue :: s.now < e.time && s.pending.Some? && s.pending.value <= e.time
  }

  lemma GetMeans<T>(s: State<T>)
    requires Inv(s)
    ensures if s.queue != [] && s.queue[0].time <= s.now then IsNext(s, s.queue[0].trans) else NothingDue(Next(s, Get))
  {
    hide StableSort;
    if s.queue != [] {
      HeadLeast(s.queue);
      assert (Entries(s.delivered) + s.queue)[|s.delivered|] == s.queue[0];
    }
  }

  lemma NotifiedNowHeld<T>(s: State<T>, trans: T)
    requires Inv(s)
    ensures var q := Next(s, Step.NotifyNow(trans)).queue;
            q != [] && Entry(s.now, trans) in q && q[0].time <= s.now
  {
    hide StableSort;
    InsertHolds(s.queue, Entry(s.now, trans));
    InsertSorted(s.queue, Entry(s.now, trans));
  }

  lemma NotifiedHeld<T>(s: State<T>, trans: T, delay: nat)
    requires Inv(s)
    ensures var r := Next(s, Step.Notify(trans, delay));
            Entry(s.now + delay, trans) in r.queue && r.pending.Some? && s.now <= r.pending.value <= s.now + delay
  {
    hide StableSort, Insert;
    InsertHolds(s.queue, Entry(s.now + delay, trans));
  }

  lemma {:induction false} InsertHolds<T>(s: seq<Entry<T>>, e: Entry<T>)
    ensures e in Insert(s, e)
  {
    if s == [] || s[0].time > e.time {
      assert ([e] + s)[0] == e;
    } else {
      InsertHolds(s[1..], e);
      var i :| 0 <= i < |Insert(s[1..], e)| && Insert(s[1..], e)[i] == e;
      assert Insert(s, e)[i + 1] == e;
    }
  }
}
