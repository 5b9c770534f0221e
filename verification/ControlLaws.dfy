/**
  What the control system does in a run, in terms of its worlds alone: when requests are raised and
  computed, that a working system recovers, and how units, groups and processors move.
 */
module ControlLaws {
  import opened ControlSystem

  // ----- requests

  predicate InputWorks(w: World) {
    w.proci.status == 2 && w.sensors >= 37
  }

  predicate OutputWorks(w: World) {
    w.proco.status == 2 && w.actuators >= 27
  }

  /** The main processor computes what the input sent: something waits or comes in, and the output is free or just cleared. */
  predicate Computes(w: World, c: Choice) {
    && w.procm.level == 1 && c.Handle?
    && (c.event == InputReboot || w.bus.reqi) && (c.event == OutputReboot || !w.bus.reqo)
  }

  // An input request is raised by an input reboot, and by any other bus step that sees the input side work; it is
  // taken away only by a computation of a step that does not raise it.
  lemma InputRequests(w: World, c: Choice)
    requires Inv(w) && Enabled(w, c)
    ensures Next(w, c).bus.reqi <==>
              || (c.Handle? && (c.event == InputReboot || InputWorks(w)))
              || (w.bus.reqi && !Computes(w, c))
  {
    hide GoodTimes, GoodUnits, Count;
  }

  // An output request is raised by an input reboot with the main processor up, and by a timeout that leaves an input
  // request with it up; a bus step that sees the output side work, or its reboot, takes it away.
  lemma OutputRequests(w: World, c: Choice)
    requires Inv(w) && Enabled(w, c)
    ensures c.Handle? ==>
              (Next(w, c).bus.reqo <==>
                 && !OutputWorks(w) && c.event != OutputReboot
                 && (w.bus.reqo || (w.procm.level == 1 && (c.event == InputReboot || Next(w, c).bus.reqi))))
    ensures !c.Handle? ==> Next(w, c).bus == w.bus
  {
    hide GoodTimes, GoodUnits, Count;
  }

  // A timeout says whether it computed; a reboot adds a computation to what was said.
  lemma Computations(w: World, c: Choice)
    requires Inv(w) && Enabled(w, c) && c.Handle?
    ensures Next(w, c).bus.comp <==> Computes(w, c) || (c.event != Timeout && w.bus.comp)
  {
    hide GoodTimes, GoodUnits, Count;
  }

  lemma RequestsInRuns(ws: seq<World>, cs: seq<Choice>, k: nat)
    requires IsRun(ws, cs) && k < |cs|
    ensures cs[k] == Handle(InputReboot) ==> ws[k + 1].bus.reqi
    ensures cs[k].Handle? && InputWorks(ws[k]) ==> ws[k + 1].bus.reqi
    ensures cs[k].Handle? && OutputWorks(ws[k]) ==> !ws[k + 1].bus.reqo
    ensures cs[k] == Handle(Timeout) && ws[k + 1].bus.comp ==> ws[k].bus.reqi && !ws[k].bus.reqo && ws[k].procm.level == 1
    ensures cs[k] == Handle(Timeout) && !OutputWorks(ws[k]) && ws[k].procm.level == 1 && ws[k + 1].bus.reqi ==>
              ws[k + 1].bus.reqo
  {
    InvAt(ws, cs, k);
    assert Enabled(ws[k], cs[k]);
    hide IsRun, Inv, Enabled, Next, InputWorks, OutputWorks;
    InputRequests(ws[k], cs[k]);
    OutputRequests(ws[k], cs[k]);
    if cs[k].Handle? {
      Computations(ws[k], cs[k]);
    }
  }

  // ----- a system that works

  predicate Works(w: World) {
    w.procm.level == 1 && InputWorks(w) && OutputWorks(w)
  }

  /** What is known of a working system `n` timeouts after it last failed. */
  predicate Recovering(w: World, n: nat) {
    && (n >= 1 ==> w.cycles.armed && (Timeout in w.events || (w.bus.reqi && !w.bus.reqo)))
    && (n >= 2 ==> w.bus.reqi && !w.bus.reqo && (Timeout in w.events || w.bus.comp))
    && (n >= 3 ==> w.bus.comp && w.cycles.sample)
    && (n >= 4 ==> w.cycles.count == 0)
  }

  lemma RecoveringBus(w: World, c: Choice, n: nat)
    requires Inv(w) && Enabled(w, c) && Works(w) && Recovering(w, n) && c.Handle?
    ensures Recovering(Next(w, c), n)
  {
    InputRequests(w, c);
    OutputRequests(w, c);
    Computations(w, c);
    hide Inv, Enabled, Handled;
  }

  lemma RecoveringStep(w: World, c: Choice, n: nat)
    requires Inv(w) && Enabled(w, c) && Works(w) && Recovering(w, n)
    ensures Recovering(Next(w, c), n + if Writes(w, c) then 1 else 0)
  {
    if c.Handle? {
      RecoveringBus(w, c, n);
    } else {
      CyclesStep(w, c);
      if Timeout in w.events {
        WriterWaits(w, Timeout);
      }
      hide Inv, PlainWait, DelayOf, PickOf;
    }
  }

  // As long as the main processor and both sides work, the system computes: after the fourth timeout no cycle
  // counts as skipped, whatever was pending before.
  lemma {:induction false} RecoversWhileWorking(ws: seq<World>, cs: seq<Choice>, i: nat, j: nat)
    requires IsRun(ws, cs) && i <= j < |ws| && forall k | i <= k < j :: Works(ws[k])
    ensures Recovering(ws[j], Timeouts(ws, cs, i, j))
    ensures Timeouts(ws, cs, i, j) >= 4 ==> ws[j].bus.comp && ws[j].cycles.count == 0
    decreases j - i
  {
    hide Enabled, Next, Init, Works, Inv;
    if i < j {
      RecoversWhileWorking(ws, cs, i, j - 1);
      InvAt(ws, cs, j - 1);
      assert Enabled(ws[j - 1], cs[j - 1]);
      RecoveringStep(ws[j - 1], cs[j - 1], Timeouts(ws, cs, i, j - 1));
    }
  }

  /** Nothing has been missed so far. */
  predicate Unfailing(w: World) {
    w.bus == Bus(true, true, false) && w.cycles.count == 0 && (w.cycles.armed ==> w.cycles.sample)
  }

  lemma UnfailingStep(w: World, c: Choice)
    requires Inv(w) && Enabled(w, c) && Works(w) && Unfailing(w)
    ensures Unfailing(Next(w, c))
  {
    if c.Handle? {
      InputRequests(w, c);
      OutputRequests(w, c);
      Computations(w, c);
      hide Inv, Enabled, Handled;
    } else {
      CyclesStep(w, c);
      hide Inv, PlainWait, DelayOf, PickOf;
    }
  }

  // From the start on, as long as everything has worked, no cycle is skipped and every timeout computes.
  lemma {:induction false} NeverSkipsWhileWorking(ws: seq<World>, cs: seq<Choice>, j: nat)
    requires IsRun(ws, cs) && j < |ws| && forall k | 0 <= k < j :: Works(ws[k])
    ensures ws[j].bus.comp && ws[j].bus.reqi && !ws[j].bus.reqo && ws[j].cycles.count == 0
    ensures Unfailing(ws[j])
    decreases j
  {
    if j > 0 {
      hide Enabled, Next, Init, Works, Inv, Unfailing;
      NeverSkipsWhileWorking(ws, cs, j - 1);
      InvAt(ws, cs, j - 1);
      assert Enabled(ws[j - 1], cs[j - 1]);
      UnfailingStep(ws[j - 1], cs[j - 1]);
      BusOfUnfailing(ws[j]);
    }
  }

  lemma BusOfUnfailing(w: World)
    requires Unfailing(w)
    ensures w.bus.comp && w.bus.reqi && !w.bus.reqo && w.cycles.count == 0
  {
  }

  lemma InitialWorks()
    ensures Works(Init())
  {
  }

  // ----- skipped cycles

  /** Where the timeout thread last ran. */
  function LastTurn(cs: seq<Choice>, j: nat): (k: int)
    requires j <= |cs|
    ensures -1 <= k < j
    ensures k >= 0 ==> cs[k].Resume? && cs[k].thread == TimeoutThread
    ensures forall i | k < i < j :: !(cs[i].Resume? && cs[i].thread == TimeoutThread)
  {
    if j == 0 then -1
    else if cs[j - 1].Resume? && cs[j - 1].thread == TimeoutThread then j - 1 else LastTurn(cs, j - 1)
  }

  // What counts at a timeout is comp as the wait for it began.
  lemma {:induction false} SampleIsComp(ws: seq<World>, cs: seq<Choice>, j: nat)
    requires IsRun(ws, cs) && j < |ws|
    ensures var k := LastTurn(cs, j);
            ws[j].cycles.armed == (k >= 0) && (k >= 0 ==> ws[j].cycles.sample == ws[k].bus.comp)
  {
    if j > 0 {
      hide Enabled, Next;
      SampleIsComp(ws, cs, j - 1);
      assert Enabled(ws[j - 1], cs[j - 1]);
      CyclesStep(ws[j - 1], cs[j - 1]);
    }
  }

  // A timeout clears the count if the system had computed when the wait for it began; otherwise it adds one, up to five.
  lemma CountAtTimeout(ws: seq<World>, cs: seq<Choice>, j: nat)
    requires IsRun(ws, cs) && j < |cs| && cs[j].Resume? && cs[j].thread == TimeoutThread && LastTurn(cs, j) >= 0
    ensures ws[j + 1].cycles.count ==
              if ws[LastTurn(cs, j)].bus.comp then 0 else if ws[j].cycles.count < 5 then ws[j].cycles.count + 1 else 5
    ensures Timeout in ws[j + 1].events
  {
    SampleIsComp(ws, cs, j);
    InvAt(ws, cs, j);
    assert Enabled(ws[j], cs[j]);
    hide IsRun, GoodTimes, GoodUnits, GoodProcessor, Count;
  }

  // ----- units and groups

  /** How often the thread ran. */
  function Turns(cs: seq<Choice>, t: Thread, j: nat): nat
    requires j <= |cs|
  {
    if j == 0 then 0 else Turns(cs, t, j - 1) + if cs[j - 1].Resume? && cs[j - 1].thread == t then 1 else 0
  }

  function LevelAfter(top: nat, turns: nat): nat {
    if turns <= 1 then top else if turns - 1 <= top then top - (turns - 1) else 0
  }

  /** The unit starts at `top` and goes down one level at each turn but the first. */
  predicate HasFallen(u: Degrading, top: nat, turns: nat) {
    u.level == LevelAfter(top, turns) && (u.armed <==> turns > 0 && u.level > 0)
  }

  lemma FallenStep(u: Degrading, top: nat, turns: nat)
    requires HasFallen(u, top, turns)
    ensures HasFallen(Degrade(u), top, turns + 1)
  {
  }

  lemma {:induction false} SensorsFall(ws: seq<World>, cs: seq<Choice>, j: nat, i: nat)
    requires IsRun(ws, cs) && j < |ws| && i < 50
    ensures |ws[j].sensor| == 50 && HasFallen(ws[j].sensor[i], 3, Turns(cs, SensorThread(i), j))
    decreases j
  {
    if j > 0 {
      hide Enabled, HasFallen;
      SensorsFall(ws, cs, j - 1, i);
      assert Enabled(ws[j - 1], cs[j - 1]);
      FallenStep(ws[j - 1].sensor[i], 3, Turns(cs, SensorThread(i), j - 1));
      hide Degrade;
    }
  }

  lemma {:induction false} ActuatorsFall(ws: seq<World>, cs: seq<Choice>, j: nat, i: nat)
    requires IsRun(ws, cs) && j < |ws| && i < 30
    ensures |ws[j].actuator| == 30 && HasFallen(ws[j].actuator[i], 2, Turns(cs, ActuatorThread(i), j))
    decreases j
  {
    if j > 0 {
      hide Enabled, HasFallen;
      ActuatorsFall(ws, cs, j - 1, i);
      assert Enabled(ws[j - 1], cs[j - 1]);
      FallenStep(ws[j - 1].actuator[i], 2, Turns(cs, ActuatorThread(i), j - 1));
      hide Degrade;
    }
  }

  // The main processor fails for good at the second turn of its thread.
  lemma {:induction false} MainFalls(ws: seq<World>, cs: seq<Choice>, j: nat)
    requires IsRun(ws, cs) && j < |ws|
    ensures HasFallen(ws[j].procm, 1, Turns(cs, ProcmThread, j))
    decreases j
  {
    if j > 0 {
      hide Enabled, HasFallen;
      MainFalls(ws, cs, j - 1);
      assert Enabled(ws[j - 1], cs[j - 1]);
      FallenStep(ws[j - 1].procm, 1, Turns(cs, ProcmThread, j - 1));
      hide Degrade;
    }
  }

  lemma {:induction false} CountIsSize(s: seq<Degrading>, least: nat)
    ensures Count(s, least) == |set i | 0 <= i < |s| && s[i].level >= least|
  {
    var all := set i | 0 <= i < |s| && s[i].level >= least;
    if s == [] {
      assert all == {};
    } else {
      var last := |s| - 1;
      var init := s[..last];
      CountIsSize(init, least);
      var some := set i | 0 <= i < |init| && init[i].level >= least;
      assert all == if s[last].level >= least then some + {last} else some;
    }
  }

  // The group thread, every unit of time, counts the sensors with two of their three parts and the actuators with one of two.
  lemma GroupsCounted(w: World, d: nat, pick: nat)
    requires Enabled(w, Resume(GroupThread, d, pick))
    ensures var w' := Next(w, Resume(GroupThread, d, pick));
            && w'.sensors == |set i | 0 <= i < |w.sensor| && w.sensor[i].level >= 2|
            && w'.actuators == |set i | 0 <= i < |w.actuator| && w.actuator[i].level >= 1|
            && w'.wake == w.wake[GroupThread := w.now + 1]
  {
    CountIsSize(w.sensor, 2);
    CountIsSize(w.actuator, 1);
    hide Count;
  }

  // ----- the input and output processors

  /** The transitions of a processor: failures, a transient fault, and the reboot after one. */
  const MOVES: set<(nat, nat)> := {(2, 0), (2, 1), (1, 0), (1, 2)}

  /** From `p` to `q` the awaited transition to `pick` happened, if there was one; the next is awaited if enough groups work. */
  ghost predicate Moved(p: Processor, q: Processor, pick: nat, enough: bool) {
    && (p.targets == {} ==> q.status == p.status && q.reboots == p.reboots)
    && (p.targets != {} ==> q.status == pick && (p.status, pick) in MOVES
                            && q.reboots == p.reboots + if p.status == 1 && pick == 2 then 1 else 0)
    && (forall s: nat :: s in q.targets <==> enough && (q.status, s) in MOVES)
  }

  lemma InputMoves(w: World, d: nat, pick: nat)
    requires Inv(w) && Enabled(w, Resume(ProciThread, d, pick))
    ensures var w' := Next(w, Resume(ProciThread, d, pick));
            && Moved(w.proci, w'.proci, pick, w.sensors >= 37) && w'.proco == w.proco
            && w'.events == (if w'.proci.reboots > w.proci.reboots then w.events + {InputReboot} else w.events)
            && (w'.proci.targets == {} ==> w'.wake == w.wake[ProciThread := w.now + 1])
  {
    hide GoodTimes, GoodUnits, Count;
  }

  lemma OutputMoves(w: World, d: nat, pick: nat)
    requires Inv(w) && Enabled(w, Resume(ProcoThread, d, pick))
    ensures var w' := Next(w, Resume(ProcoThread, d, pick));
            && Moved(w.proco, w'.proco, pick, w.actuators >= 27) && w'.proci == w.proci
            && w'.events == (if w'.proco.reboots > w.proco.reboots then w.events + {OutputReboot} else w.events)
            && (w'.proco.targets == {} ==> w'.wake == w.wake[ProcoThread := w.now + 1])
  {
    hide GoodTimes, GoodUnits, Count;
  }

  // A processor that waits after a transient fault can reboot, and then the bus is told.
  lemma CanReboot(w: World)
    requires Inv(w) && w.phase == Evaluate
    ensures w.proci.status == 1 && w.proci.targets != {} && w.wake[ProciThread] == w.now ==>
              exists d :: Enabled(w, Resume(ProciThread, d, 2)) && InputReboot in Next(w, Resume(ProciThread, d, 2)).events
    ensures w.proco.status == 1 && w.proco.targets != {} && w.wake[ProcoThread] == w.now ==>
              exists d :: Enabled(w, Resume(ProcoThread, d, 2)) && OutputReboot in Next(w, Resume(ProcoThread, d, 2)).events
  {
    hide GoodUnits, Count;
    assert ProciThread in w.wake && ProcoThread in w.wake;
    if w.proci.status == 1 && w.proci.targets != {} && w.wake[ProciThread] == w.now {
      assert Enabled(w, Resume(ProciThread, 1, 2));
    }
    if w.proco.status == 1 && w.proco.targets != {} && w.wake[ProcoThread] == w.now {
      assert Enabled(w, Resume(ProcoThread, 1, 2));
    }
  }

  // ----- the clock

  // Time goes on to the next wake-up and no further, and a thread that waits for no transition waits one unit.
  lemma ClockAdvances(w: World, time: nat)
    requires Inv(w) && Enabled(w, Advance(time))
    ensures time > w.now && (exists t :: t in w.wake && w.wake[t] == time) && forall t | t in w.wake :: w.wake[t] >= time
    ensures Next(w, Advance(time)) == w.(phase := Evaluate, now := time)
  {
    hide GoodUnits, GoodProcessor, Count;
  }

  lemma WakesLater(w: World, t: Thread, d: nat, pick: nat)
    requires Inv(w) && Enabled(w, Resume(t, d, pick))
    ensures var w' := Next(w, Resume(t, d, pick));
            && w'.wake == w.wake[t := w.now + d] && d >= 1
            && (t == ProcmThread && w'.procm.level == 0 ==> d == 1)
            && (t.SensorThread? && t.i < 50 && w'.sensor[t.i].level == 0 ==> d == 1)
            && (t.ActuatorThread? && t.i < 30 && w'.actuator[t.i].level == 0 ==> d == 1)
  {
    hide GoodTimes, GoodProcessor, Count;
  }

  /** The earliest wake-up of some threads. */
  lemma {:induction false} Earliest(wake: map<Thread, nat>, ts: set<Thread>) returns (t: Thread)
    requires ts != {} && ts <= wake.Keys
    ensures t in ts && forall u | u in ts :: wake[t] <= wake[u]
    decreases |ts|
  {
    t :| t in ts;
    if ts != {t} {
      var u := Earliest(wake, ts - {t});
      if wake[u] < wake[t] {
        t := u;
      }
    }
  }

  // The system never stops: in every world of every run something can happen next.
  lemma NeverStuck(ws: seq<World>, cs: seq<Choice>, k: nat)
    requires IsRun(ws, cs) && k < |ws|
    ensures exists c :: Enabled(ws[k], c)
  {
    InvAt(ws, cs, k);
    hide IsRun;
    CanGoOn(ws[k]);
  }

  lemma CanGoOn(w: World)
    requires Inv(w)
    ensures exists c :: Enabled(w, c)
  {
    assert ProcmThread in w.wake;
    if w.phase == Deliver {
      if e :| e in w.events {
        assert Enabled(w, Handle(e));
      } else {
        var t := Earliest(w.wake, w.wake.Keys);
        assert Enabled(w, Advance(w.wake[t]));
      }
    } else if t :| t in w.wake && w.wake[t] == w.now {
      CanRun(w, t);
    } else {
      assert forall u | u in w.wake :: w.wake[u] > w.now by { hide GoodUnits, GoodProcessor, Count; }
      assert Enabled(w, Update);
    }
  }

  lemma CanRun(w: World, t: Thread)
    requires Inv(w) && w.phase == Evaluate && t in w.wake && w.wake[t] == w.now
    ensures exists c :: Enabled(w, c)
  {
    hide GoodTimes, GoodUnits, Count;
    var targets := if t == ProciThread then w.proci.targets else if t == ProcoThread then w.proco.targets else {};
    var pick: nat := 0;
    if targets != {} {
      pick :| pick in targets;
    }
    assert Enabled(w, Resume(t, 1, pick));
  }
}
