/**
  The dependability control system as a state machine over the steps of the scheduler: each
  thread runs from one wait to the next, port writes reach the bus one delta later, and time
  advances to the earliest wake-up.
 */
module ControlSystem {
  const MAX_COUNT := 4
  const N_SENSOR: nat := 50
  const M_SENSOR: nat := 37
  const N_ACTUATOR: nat := 30
  const M_ACTUATOR: nat := 27
  const TIME_UNIT: nat := 1

  // ----- the modules

  /** A chain of levels that only goes down; `armed` while it waits for its next transition. */
  datatype Degrading = Degrading(level: nat, armed: bool)

  /** The input and output processors; `targets` are the states of positive probability when the wait began. */
  datatype Processor = Processor(status: nat, reboots: nat, targets: set<nat>)

  /** Procm's count of skipped cycles and the value of comp taken when the wait began. */
  datatype Cycles = Cycles(count: int, sample: bool, armed: bool)

  datatype Bus = Bus(comp: bool, reqi: bool, reqo: bool)

  datatype Event = InputReboot | OutputReboot | Timeout

  datatype Thread =
    | SensorThread(i: nat)
    | ActuatorThread(i: nat)
    | GroupThread
    | ProciThread
    | ProcoThread
    | ProcmThread
    | TimeoutThread

  /** Threads run in the evaluate phase of an instant, the bus methods in the delta after it. */
  datatype Phase = Evaluate | Deliver

  datatype World = World(
    sensor: seq<Degrading>, actuator: seq<Degrading>, sensors: nat, actuators: nat,
    proci: Processor, proco: Processor, procm: Degrading, cycles: Cycles, bus: Bus,
    phase: Phase, now: nat, wake: map<Thread, nat>, events: set<Event>)

  /** What the scheduler picks next; `pick` is the outcome of the random choice, if there is one. */
  datatype Choice = Resume(thread: Thread, delay: nat, pick: nat) | Update | Handle(event: Event) | Advance(time: nat)

  function Threads(): set<Thread> {
    (set i: nat | i < N_SENSOR :: SensorThread(i)) + (set i: nat | i < N_ACTUATOR :: ActuatorThread(i))
    + {GroupThread, ProciThread, ProcoThread, ProcmThread, TimeoutThread}
  }

  function Init(): World {
    World(
      seq(N_SENSOR, _ => Degrading(3, false)), seq(N_ACTUATOR, _ => Degrading(2, false)), N_SENSOR, N_ACTUATOR,
      Processor(2, 0, {}), Processor(2, 0, {}), Degrading(1, false), Cycles(0, false, false), Bus(true, true, false),
      Evaluate, 0, map t | t in Threads() :: 0, {})
  }

  // ----- what a thread does between two waits

  function Degrade(u: Degrading): Degrading {
    var level := if u.armed && u.level > 0 then u.level - 1 else u.level;
    Degrading(level, level > 0)
  }

  /** How many have at least this level. */
  function Count(s: seq<Degrading>, least: nat): (n: nat)
    ensures n <= |s|
  {
    if s == [] then 0 else Count(s[..|s| - 1], least) + if s[|s| - 1].level >= least then 1 else 0
  }

  /** The states of positive probability, given whether enough groups work. */
  function Targets(status: nat, enough: bool): set<nat> {
    if !enough then {} else if status == 2 then {0, 1} else if status == 1 then {0, 2} else {}
  }

  predicate Reboots(p: Processor, pick: nat) {
    p.targets != {} && p.status == 1 && pick == 2
  }

  function Transition(p: Processor, pick: nat, enough: bool): Processor {
    var status := if p.targets == {} then p.status else pick;
    Processor(status, p.reboots + if Reboots(p, pick) then 1 else 0, Targets(status, enough))
  }

  function Skip(count: int): int {
    if count > MAX_COUNT then MAX_COUNT + 1 else count + 1
  }

  function CycleEnd(c: Cycles, comp: bool): Cycles {
    Cycles(if !c.armed then c.count else if c.sample then 0 else Skip(c.count), comp, true)
  }

  // ----- what the bus does

  predicate InputSide(w: World) {
    w.proci.status == 2 && w.sensors >= M_SENSOR
  }

  predicate OutputSide(w: World) {
    w.proco.status == 2 && w.actuators >= M_ACTUATOR
  }

  predicate MainUp(w: World) {
    w.procm.level == 1
  }

  function OnInputReboot(b: Bus, main: bool, output: bool): Bus {
    Bus(b.comp || (main && !b.reqo), true, !output && (b.reqo || main))
  }

  function OnOutputReboot(b: Bus, main: bool, down: bool, input: bool): Bus {
    Bus(b.comp || (main && b.reqi), input || (b.reqi && down), false)
  }

  /** The flags are assigned in turn: reqo sees the new reqi. */
  function OnTimeout(b: Bus, main: bool, down: bool, input: bool, output: bool): Bus {
    var reqi := input || (b.reqi && (down || b.reqo));
    Bus(b.reqi && !b.reqo && main, reqi, !output && (b.reqo || (main && reqi)))
  }

  function Handled(w: World, e: Event): Bus {
    match e
    case InputReboot => OnInputReboot(w.bus, MainUp(w), OutputSide(w))
    case OutputReboot => OnOutputReboot(w.bus, MainUp(w), w.procm.level == 0, InputSide(w))
    case Timeout => OnTimeout(w.bus, MainUp(w), w.procm.level == 0, InputSide(w), OutputSide(w))
  }

  // ----- the scheduler

  /** Whether the thread's wait is one without a transition behind it. */
  predicate PlainWait(w: World, t: Thread) {
    match t
    case SensorThread(i) => i < |w.sensor| && !w.sensor[i].armed
    case ActuatorThread(i) => i < |w.actuator| && !w.actuator[i].armed
    case GroupThread => true
    case ProciThread => w.proci.targets == {}
    case ProcoThread => w.proco.targets == {}
    case ProcmThread => !w.procm.armed
    case TimeoutThread => false
  }

  /** A wait for a transition takes at least a time unit, any other wait exactly one. */
  predicate DelayOf(w: World, c: Choice)
    requires c.Resume?
  {
    c.delay >= TIME_UNIT && (PlainWait(Ran(w, c.thread, c.pick), c.thread) ==> c.delay == TIME_UNIT)
  }

  predicate PickOf(w: World, c: Choice)
    requires c.Resume?
  {
    && (c.thread == ProciThread && w.proci.targets != {} ==> c.pick in w.proci.targets)
    && (c.thread == ProcoThread && w.proco.targets != {} ==> c.pick in w.proco.targets)
  }

  predicate Enabled(w: World, c: Choice) {
    match c
    case Resume(t, d, pick) =>
      w.phase == Evaluate && t in w.wake && w.wake[t] == w.now && DelayOf(w, c) && PickOf(w, c)
    case Update => w.phase == Evaluate && forall t | t in w.wake :: w.wake[t] > w.now
    case Handle(e) => w.phase == Deliver && e in w.events
    case Advance(time) =>
      w.phase == Deliver && w.events == {} && (exists t | t in w.wake :: w.wake[t] == time)
      && forall t | t in w.wake :: w.wake[t] >= time
  }

  function Ran(w: World, t: Thread, pick: nat): World {
    match t
    case SensorThread(i) => if i < |w.sensor| then w.(sensor := w.sensor[i := Degrade(w.sensor[i])]) else w
    case ActuatorThread(i) => if i < |w.actuator| then w.(actuator := w.actuator[i := Degrade(w.actuator[i])]) else w
    case GroupThread => w.(sensors := Count(w.sensor, 2), actuators := Count(w.actuator, 1))
    case ProciThread =>
      w.(proci := Transition(w.proci, pick, w.sensors >= M_SENSOR),
         events := if Reboots(w.proci, pick) then w.events + {InputReboot} else w.events)
    case ProcoThread =>
      w.(proco := Transition(w.proco, pick, w.actuators >= M_ACTUATOR),
         events := if Reboots(w.proco, pick) then w.events + {OutputReboot} else w.events)
    case ProcmThread => w.(procm := Degrade(w.procm))
    case TimeoutThread =>
      w.(cycles := CycleEnd(w.cycles, w.bus.comp),
         events := if w.cycles.armed then w.events + {Timeout} else w.events)
  }

  function Next(w: World, c: Choice): World {
    match c
    case Resume(t, d, pick) => Ran(w, t, pick).(wake := w.wake[t := w.now + d])
    case Update => w.(phase := Deliver)
    case Handle(e) => w.(bus := Handled(w, e), events := w.events - {e})
    case Advance(time) => w.(phase := Evaluate, now := time)
  }

  /** The worlds of a run, and the choices between them. */
  ghost predicate IsRun(ws: seq<World>, cs: seq<Choice>) {
    && |ws| == |cs| + 1 && ws[0] == Init()
    && forall k {:trigger cs[k]} | 0 <= k < |cs| :: Enabled(ws[k], cs[k]) && ws[k + 1] == Next(ws[k], cs[k])
  }

  // ----- what every step keeps

  /** The thread that writes the event's port. */
  function Writer(e: Event): Thread {
    match e
    case InputReboot => ProciThread
    case OutputReboot => ProcoThread
    case Timeout => TimeoutThread
  }

  predicate GoodUnits(s: seq<Degrading>, size: nat, top: nat) {
    |s| == size && forall i | 0 <= i < |s| :: s[i].level <= top && (s[i].armed ==> s[i].level > 0)
  }

  predicate GoodProcessor(p: Processor) {
    p.status <= 2 && (p.targets != {} ==> p.targets == Targets(p.status, true))
  }

  /** Whoever is waiting wakes up now or later; whoever wrote a port wakes up later. */
  predicate GoodTimes(w: World) {
    && w.wake.Keys == Threads()
    && (forall t | t in w.wake :: w.wake[t] >= w.now && (w.phase == Deliver ==> w.wake[t] > w.now))
    && forall e | e in w.events :: w.wake[Writer(e)] > w.now
  }

  ghost predicate Inv(w: World) {
    && GoodUnits(w.sensor, N_SENSOR, 3) && GoodUnits(w.actuator, N_ACTUATOR, 2)
    && GoodProcessor(w.proci) && GoodProcessor(w.proco)
    && w.procm.level <= 1 && (w.procm.armed ==> w.procm.level > 0)
    && 0 <= w.cycles.count <= MAX_COUNT + 1
    && Count(w.sensor, 2) <= w.sensors && Count(w.actuator, 1) <= w.actuators
    && GoodTimes(w)
  }

  lemma {:induction false} CountMonotone(s: seq<Degrading>, t: seq<Degrading>, least: nat)
    requires |s| == |t| && forall i | 0 <= i < |s| :: s[i].level <= t[i].level
    ensures Count(s, least) <= Count(t, least)
  {
    if s != [] {
      CountMonotone(s[..|s| - 1], t[..|t| - 1], least);
    }
  }

  lemma ResumeTimes(w: World, c: Choice)
    requires GoodTimes(w) && c.Resume? && Enabled(w, c)
    ensures GoodTimes(Next(w, c))
  {
    var w' := Next(w, c);
    assert w'.wake.Keys == w.wake.Keys;
    forall e | e in w'.events
      ensures w'.wake[Writer(e)] > w'.now
    {
      assert e in w.events || Writer(e) == c.thread;
      assert Writer(e) in w.wake;
    }
  }

  lemma OtherTimes(w: World, c: Choice)
    requires GoodTimes(w) && !c.Resume? && Enabled(w, c)
    ensures GoodTimes(Next(w, c))
  {
  }

  lemma UnitsKept(w: World, c: Choice)
    requires Inv(w) && Enabled(w, c)
    ensures GoodUnits(Next(w, c).sensor, N_SENSOR, 3) && GoodUnits(Next(w, c).actuator, N_ACTUATOR, 2)
    ensures Count(Next(w, c).sensor, 2) <= Count(w.sensor, 2) && Count(Next(w, c).actuator, 1) <= Count(w.actuator, 1)
  {
    hide Enabled, GoodTimes;
    CountMonotone(Next(w, c).sensor, w.sensor, 2);
    CountMonotone(Next(w, c).actuator, w.actuator, 1);
  }

  lemma ProcessorsKept(w: World, c: Choice)
    requires GoodProcessor(w.proci) && GoodProcessor(w.proco) && Enabled(w, c)
    ensures GoodProcessor(Next(w, c).proci) && GoodProcessor(Next(w, c).proco)
  {
    hide PlainWait;
  }

  lemma ScalarsKept(w: World, c: Choice)
    requires w.procm.level <= 1 && (w.procm.armed ==> w.procm.level > 0) && 0 <= w.cycles.count <= MAX_COUNT + 1
    ensures Next(w, c).procm.level <= 1 && (Next(w, c).procm.armed ==> Next(w, c).procm.level > 0)
    ensures 0 <= Next(w, c).cycles.count <= MAX_COUNT + 1
  {
    hide Count;
  }

  lemma GroupsKept(w: World, c: Choice)
    requires Inv(w)
    requires Count(Next(w, c).sensor, 2) <= Count(w.sensor, 2) && Count(Next(w, c).actuator, 1) <= Count(w.actuator, 1)
    ensures Count(Next(w, c).sensor, 2) <= Next(w, c).sensors <= w.sensors
    ensures Count(Next(w, c).actuator, 1) <= Next(w, c).actuators <= w.actuators
  {
    hide GoodTimes, GoodUnits, GoodProcessor, Count;
  }

  lemma InvKept(w: World, c: Choice)
    requires Inv(w) && Enabled(w, c)
    ensures Inv(Next(w, c))
    ensures Next(w, c).sensors <= w.sensors && Next(w, c).actuators <= w.actuators
  {
    hide GoodTimes, GoodUnits, GoodProcessor, Count, Enabled, Next;
    UnitsKept(w, c);
    ProcessorsKept(w, c);
    ScalarsKept(w, c);
    GroupsKept(w, c);
    if c.Resume? {
      ResumeTimes(w, c);
    } else {
      OtherTimes(w, c);
    }
  }

  lemma {:induction false} CountAll(s: seq<Degrading>, least: nat)
    requires forall i | 0 <= i < |s| :: s[i].level >= least
    ensures Count(s, least) == |s|
  {
    if s != [] {
      CountAll(s[..|s| - 1], least);
    }
  }

  lemma InvInit()
    ensures Inv(Init())
  {
    CountAll(Init().sensor, 2);
    CountAll(Init().actuator, 1);
  }

  lemma {:induction false} InvAt(ws: seq<World>, cs: seq<Choice>, k: nat)
    requires IsRun(ws, cs) && k < |ws|
    ensures Inv(ws[k])
  {
    hide Inv, Enabled, Next, Init;
    if k == 0 {
      InvInit();
    } else {
      InvAt(ws, cs, k - 1);
      assert Enabled(ws[k - 1], cs[k - 1]);
      InvKept(ws[k - 1], cs[k - 1]);
    }
  }

  // ----- working groups are lost for ever

  /** How often the status of the input processor changes between two worlds of a run. */
  function InputChanges(ws: seq<World>, i: nat, j: nat): nat
    requires i <= j < |ws|
  {
    if i == j then 0 else InputChanges(ws, i, j - 1) + if ws[j - 1].proci.status != ws[j].proci.status then 1 else 0
  }

  function OutputChanges(ws: seq<World>, i: nat, j: nat): nat
    requires i <= j < |ws|
  {
    if i == j then 0 else OutputChanges(ws, i, j - 1) + if ws[j - 1].proco.status != ws[j].proco.status then 1 else 0
  }

  /** A transition chosen before the wait may still happen after it. */
  function Due(p: Processor): nat {
    if p.targets == {} then 0 else 1
  }

  lemma DueSpent(w: World, c: Choice)
    requires Inv(w) && Enabled(w, c)
    ensures w.sensors < M_SENSOR ==>
              Due(Next(w, c).proci) + (if w.proci.status != Next(w, c).proci.status then 1 else 0) <= Due(w.proci)
    ensures w.actuators < M_ACTUATOR ==>
              Due(Next(w, c).proco) + (if w.proco.status != Next(w, c).proco.status then 1 else 0) <= Due(w.proco)
  {
    hide GoodTimes, GoodUnits, Count;
  }

  // With too few sensors the input processor makes one more change at most, and only if it was
  // already waiting for it; the sensors never come back.
  lemma {:induction false} SensorsLost(ws: seq<World>, cs: seq<Choice>, i: nat, j: nat)
    requires IsRun(ws, cs) && i <= j < |ws|
    ensures ws[j].sensors <= ws[i].sensors
    ensures ws[i].sensors < M_SENSOR ==> InputChanges(ws, i, j) + Due(ws[j].proci) <= Due(ws[i].proci) <= 1
    decreases j - i
  {
    hide Inv, Enabled, Next, Init;
    if i < j {
      SensorsLost(ws, cs, i, j - 1);
      InvAt(ws, cs, j - 1);
      assert Enabled(ws[j - 1], cs[j - 1]);
      InvKept(ws[j - 1], cs[j - 1]);
      DueSpent(ws[j - 1], cs[j - 1]);
    }
  }

  lemma {:induction false} ActuatorsLost(ws: seq<World>, cs: seq<Choice>, i: nat, j: nat)
    requires IsRun(ws, cs) && i <= j < |ws|
    ensures ws[j].actuators <= ws[i].actuators
    ensures ws[i].actuators < M_ACTUATOR ==> OutputChanges(ws, i, j) + Due(ws[j].proco) <= Due(ws[i].proco) <= 1
    decreases j - i
  {
    hide Inv, Enabled, Next, Init;
    if i < j {
      ActuatorsLost(ws, cs, i, j - 1);
      InvAt(ws, cs, j - 1);
      assert Enabled(ws[j - 1], cs[j - 1]);
      InvKept(ws[j - 1], cs[j - 1]);
      DueSpent(ws[j - 1], cs[j - 1]);
    }
  }

  // ----- skipped cycles

  predicate Writes(w: World, c: Choice) {
    c.Resume? && c.thread == TimeoutThread && w.cycles.armed
  }

  /** How many timeouts were written between two worlds of a run. */
  function Timeouts(ws: seq<World>, cs: seq<Choice>, i: nat, j: nat): nat
    requires i <= j <= |cs| < |ws|
  {
    if i == j then 0 else Timeouts(ws, cs, i, j - 1) + if Writes(ws[j - 1], cs[j - 1]) then 1 else 0
  }

  /** How many of the latest timeouts in a row came with a zero sample of comp. */
  function ZeroRun(ws: seq<World>, cs: seq<Choice>, j: nat): nat
    requires j <= |cs| < |ws|
  {
    if j == 0 then 0
    else if !Writes(ws[j - 1], cs[j - 1]) then ZeroRun(ws, cs, j - 1)
    else if ws[j - 1].cycles.sample then 0
    else ZeroRun(ws, cs, j - 1) + 1
  }

  lemma CyclesStep(w: World, c: Choice)
    requires Enabled(w, c)
    ensures Next(w, c).cycles ==
              if c.Resume? && c.thread == TimeoutThread then CycleEnd(w.cycles, w.bus.comp) else w.cycles
  {
  }

  lemma {:induction false} CountIsZeroRun(ws: seq<World>, cs: seq<Choice>, j: nat)
    requires IsRun(ws, cs) && j < |ws|
    ensures ws[j].cycles.count == if ZeroRun(ws, cs, j) > MAX_COUNT then MAX_COUNT + 1 else ZeroRun(ws, cs, j)
  {
    hide Enabled, Next;
    if j > 0 {
      CountIsZeroRun(ws, cs, j - 1);
      assert Enabled(ws[j - 1], cs[j - 1]);
      CyclesStep(ws[j - 1], cs[j - 1]);
    }
  }

  /** No request is pending and none can come: too few sensors, no reboot due or under way. */
  predicate Dry(w: World) {
    w.sensors < M_SENSOR && w.proci.targets == {} && InputReboot !in w.events && !w.bus.reqi
  }

  /** Nothing will be computed any more. */
  predicate Down(w: World) {
    w.procm.level == 0 || Dry(w)
  }

  /** What is known of the cycles once the system is down and `n` timeouts were written since. */
  predicate Failing(w: World, n: nat) {
    && Down(w)
    && (n >= 1 ==> w.cycles.armed && (Timeout in w.events || !w.bus.comp))
    && (n >= 2 ==> !w.bus.comp && !w.cycles.sample)
    && (n >= 2 ==> w.cycles.count >= n - 2 || w.cycles.count == MAX_COUNT + 1)
  }

  lemma DownKept(w: World, c: Choice)
    requires Inv(w) && Enabled(w, c) && Down(w)
    ensures Down(Next(w, c)) && (w.procm.level == 0 ==> Next(w, c).procm.level == 0)
    ensures Next(w, c).bus.comp ==> w.bus.comp && c != Handle(Timeout)
  {
    if c.Resume? {
      hide Inv, Enabled;
      DownResumed(w, c);
    } else {
      hide GoodUnits, GoodTimes, Count, PlainWait, GoodProcessor;
      assert c.Handle? ==> Next(w, c) == w.(bus := Handled(w, c.event), events := w.events - {c.event});
    }
  }

  lemma DownResumed(w: World, c: Choice)
    requires Inv(w) && Enabled(w, c) && Down(w) && c.Resume?
    ensures Down(Next(w, c)) && (w.procm.level == 0 ==> Next(w, c).procm.level == 0) && Next(w, c).bus == w.bus
  {
    SensorsKept(w, c);
    hide GoodUnits, GoodTimes, Count, PlainWait, GoodProcessor;
  }

  lemma SensorsKept(w: World, c: Choice)
    requires Inv(w) && Enabled(w, c)
    ensures Next(w, c).sensors <= w.sensors
  {
    InvKept(w, c);
  }

  lemma FailingStep(w: World, c: Choice, n: nat)
    requires Inv(w) && Enabled(w, c) && Failing(w, n)
    ensures Failing(Next(w, c), n + if Writes(w, c) then 1 else 0)
  {
    hide GoodUnits, GoodProcessor, Count, PlainWait, Down, Handled;
    DownKept(w, c);
    CyclesStep(w, c);
    if c.Resume? && c.thread == TimeoutThread {
      assert Timeout in w.events ==> w.wake[Writer(Timeout)] > w.now;
    }
  }

  // Once the main processor is down or the sensors are lost and served for the last time, this
  // stays so, and from the seventh timeout on the count of skipped cycles is at its limit.
  lemma {:induction false} DownForEver(ws: seq<World>, cs: seq<Choice>, i: nat, j: nat)
    requires IsRun(ws, cs) && i <= j < |ws| && Down(ws[i])
    ensures Failing(ws[j], Timeouts(ws, cs, i, j)) && (ws[i].procm.level == 0 ==> ws[j].procm.level == 0)
    ensures Timeouts(ws, cs, i, j) >= 7 ==> ws[j].cycles.count == MAX_COUNT + 1
    decreases j - i
  {
    hide Enabled, Next, Init, Dry;
    InvAt(ws, cs, j);
    if i < j {
      DownForEver(ws, cs, i, j - 1);
      InvAt(ws, cs, j - 1);
      assert Enabled(ws[j - 1], cs[j - 1]);
      DownKept(ws[j - 1], cs[j - 1]);
      FailingStep(ws[j - 1], cs[j - 1], Timeouts(ws, cs, i, j - 1));
    }
  }

  // ----- requests

  // A pending input request goes away only together with a computation, a pending output request
  // only by an output reboot or when the output side works.
  lemma RequestsServed(w: World, c: Choice)
    requires Inv(w) && Enabled(w, c)
    ensures w.bus.reqi && !Next(w, c).bus.reqi ==> c.Handle? && Next(w, c).bus.comp
    ensures w.bus.reqo && !Next(w, c).bus.reqo ==> c.Handle? && (c.event == OutputReboot || OutputSide(w))
  {
    hide GoodTimes, GoodUnits, Count;
  }

  lemma RequestsServedInRuns(ws: seq<World>, cs: seq<Choice>, k: nat)
    requires IsRun(ws, cs) && k < |cs|
    ensures ws[k].bus.reqi && !ws[k + 1].bus.reqi ==> cs[k].Handle? && ws[k + 1].bus.comp
    ensures ws[k].bus.reqo && !ws[k + 1].bus.reqo ==> cs[k].Handle? && (cs[k].event == OutputReboot || OutputSide(ws[k]))
  {
    InvAt(ws, cs, k);
    hide Inv, Enabled, Next, Init;
    assert Enabled(ws[k], cs[k]);
    RequestsServed(ws[k], cs[k]);
  }

  /** How often the bus handled the event. */
  function Runs(cs: seq<Choice>, j: nat, e: Event): nat
    requires j <= |cs|
  {
    if j == 0 then 0 else Runs(cs, j - 1, e) + if cs[j - 1] == Handle(e) then 1 else 0
  }

  function Pending(w: World, e: Event): nat {
    if e in w.events then 1 else 0
  }

  lemma RebootsStep(w: World, c: Choice)
    requires Inv(w) && Enabled(w, c)
    ensures var w' := Next(w, c);
            && w'.proci.reboots - w.proci.reboots
               == Pending(w', InputReboot) - Pending(w, InputReboot) + (if c == Handle(InputReboot) then 1 else 0)
            && w'.proco.reboots - w.proco.reboots
               == Pending(w', OutputReboot) - Pending(w, OutputReboot) + (if c == Handle(OutputReboot) then 1 else 0)
  {
    InputRebootsStep(w, c);
    OutputRebootsStep(w, c);
    hide *;
  }

  lemma InputRebootsStep(w: World, c: Choice)
    requires Inv(w) && Enabled(w, c)
    ensures Next(w, c).proci.reboots - w.proci.reboots
         == Pending(Next(w, c), InputReboot) - Pending(w, InputReboot) + (if c == Handle(InputReboot) then 1 else 0)
  {
    if InputReboot in w.events {
      WriterWaits(w, InputReboot);
    }
    hide Inv, PlainWait, DelayOf;
  }

  lemma OutputRebootsStep(w: World, c: Choice)
    requires Inv(w) && Enabled(w, c)
    ensures Next(w, c).proco.reboots - w.proco.reboots
         == Pending(Next(w, c), OutputReboot) - Pending(w, OutputReboot) + (if c == Handle(OutputReboot) then 1 else 0)
  {
    if OutputReboot in w.events {
      WriterWaits(w, OutputReboot);
    }
    hide Inv, PlainWait, DelayOf;
  }

  lemma WriterWaits(w: World, e: Event)
    requires Inv(w) && e in w.events
    ensures Writer(e) in w.wake && w.wake[Writer(e)] > w.now
  {
  }

  // Every reboot is handled once, in the delta after it.
  lemma {:induction false} RebootsHandled(ws: seq<World>, cs: seq<Choice>, j: nat)
    requires IsRun(ws, cs) && j < |ws|
    ensures Runs(cs, j, InputReboot) + Pending(ws[j], InputReboot) == ws[j].proci.reboots
    ensures Runs(cs, j, OutputReboot) + Pending(ws[j], OutputReboot) == ws[j].proco.reboots
  {
    hide Inv, Enabled, Next;
    if j > 0 {
      RebootsHandled(ws, cs, j - 1);
      InvAt(ws, cs, j - 1);
      assert Enabled(ws[j - 1], cs[j - 1]);
      RebootsStep(ws[j - 1], cs[j - 1]);
    }
  }
}
