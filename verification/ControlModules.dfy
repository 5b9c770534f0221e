/**
  The modules of the control system as they compute: rate sums, probability vectors with
  guards, counting loops and the flags of the bus, each step proved to be the one that
  ControlSystem takes.
 */
module ControlModules {
  import opened ControlSystem

  // ----- rates and probabilities

  /** The sum of the positive rates. */
  function PositiveSum(rates: seq<real>): (sum: real)
    ensures sum >= 0.0
  {
    if rates == [] then 0.0
    else PositiveSum(rates[..|rates| - 1]) + if rates[|rates| - 1] > 0.0 then rates[|rates| - 1] else 0.0
  }

  lemma {:induction false} PositiveSumIff(rates: seq<real>)
    ensures PositiveSum(rates) > 0.0 <==> exists i :: 0 <= i < |rates| && rates[i] > 0.0
  {
    if rates != [] {
      var init := rates[..|rates| - 1];
      PositiveSumIff(init);
      assert forall i | 0 <= i < |init| :: rates[i] == init[i];
      if i :| 0 <= i < |rates| && rates[i] > 0.0 {
        assert i < |init| ==> init[i] > 0.0;
      }
      if i :| 0 <= i < |init| && init[i] > 0.0 {
        assert rates[i] > 0.0;
      }
    }
  }

  method SumRates(rates: seq<real>) returns (sum: real)
    ensures sum == PositiveSum(rates)
    ensures sum > 0.0 <==> exists i :: 0 <= i < |rates| && rates[i] > 0.0
  {
    sum := 0.0;
    var i := 0;
    while i < |rates|
      invariant 0 <= i <= |rates| && sum == PositiveSum(rates[..i])
    {
      assert rates[..i + 1][..i] == rates[..i];
      if rates[i] > 0.0 {
        sum := sum + rates[i];
      }
      i := i + 1;
    }
    assert rates[..i] == rates;
    PositiveSumIff(rates);
  }

  method FillProbabilities(rates: seq<real>, sum: real, probvector: array<real>)
    requires sum > 0.0 && probvector.Length == |rates|
    modifies probvector
    ensures forall i | 0 <= i < |rates| :: probvector[i] == if rates[i] > 0.0 then rates[i] / sum else 0.0
    ensures forall i | 0 <= i < |rates| :: probvector[i] > 0.0 <==> rates[i] > 0.0
    ensures sum == PositiveSum(rates) ==> PositiveSum(probvector[..]) == 1.0
  {
    var i := 0;
    while i < |rates|
      invariant 0 <= i <= |rates|
      invariant forall k | 0 <= k < i :: probvector[k] == if rates[k] > 0.0 then rates[k] / sum else 0.0
    {
      if rates[i] > 0.0 {
        probvector[i] := rates[i] / sum;
      } else {
        probvector[i] := 0.0;
      }
      i := i + 1;
    }
    forall k | 0 <= k < |rates|
      ensures probvector[k] > 0.0 <==> rates[k] > 0.0
    {
      if rates[k] > 0.0 {
        QuotientPositive(rates[k], sum);
      }
    }
    Quotients(rates, probvector[..], sum);
    QuotientOne(sum);
  }

  lemma QuotientOne(x: real)
    requires x > 0.0
    ensures x / x == 1.0
  {
  }

  lemma {:induction false} Quotients(rates: seq<real>, shares: seq<real>, sum: real)
    requires sum > 0.0 && |rates| == |shares|
    requires forall i | 0 <= i < |rates| :: shares[i] == if rates[i] > 0.0 then rates[i] / sum else 0.0
    ensures PositiveSum(shares) == PositiveSum(rates) / sum
  {
    if rates != [] {
      var last := |rates| - 1;
      Quotients(rates[..last], shares[..last], sum);
      if rates[last] > 0.0 {
        QuotientPositive(rates[last], sum);
        QuotientAdds(PositiveSum(rates[..last]), rates[last], sum);
      }
    }
  }

  lemma QuotientAdds(x: real, y: real, z: real)
    requires z > 0.0
    ensures (x + y) / z == x / z + y / z
  {
  }

  lemma QuotientPositive(x: real, y: real)
    requires x > 0.0 && y > 0.0
    ensures x / y > 0.0
  {
  }

  // ----- Sensor, Actuator and the states of Procm

  /** A module whose state only goes down, from i to i - 1 with rate i * lambda. */
  class Chain {
    const lambda: real
    var state: nat
    var armed: bool   // whether the wait under way is one for a transition
    const probvector: array<real>

    ghost predicate Valid()
      reads this
    {
      lambda > 0.0 && state < probvector.Length && (armed ==> state > 0)
    }

    ghost function Value(): Degrading
      reads this
    {
      Degrading(state, armed)
    }

    constructor (lambda: real, n: nat, init: nat)
      requires lambda > 0.0 && init < n
      ensures Valid() && Value() == Degrading(init, false) && fresh(probvector)
    {
      this.lambda, state, armed := lambda, init, false;
      probvector := new real[n](_ => 0.0);
    }

    /** The row of q_matrix for a state. */
    function Rates(from: nat): (row: seq<real>)
      requires from < probvector.Length
      ensures |row| == probvector.Length
    {
      seq(probvector.Length, to requires 0 <= to => if to == from - 1 then from as real * lambda else 0.0)
    }

    lemma OnlyDown(from: nat)
      requires lambda > 0.0 && from < probvector.Length
      ensures forall i | 0 <= i < |Rates(from)| :: Rates(from)[i] > 0.0 <==> i == from - 1
    {
      assert from > 0 ==> from as real * lambda > 0.0;
    }

    /** From the end of one wait to the start of the next; `transition` is what the generator chose. */
    method Resume(transition: nat)
      requires Valid() && (armed ==> transition < probvector.Length && Rates(state)[transition] > 0.0)
      modifies this, probvector
      ensures Valid() && Value() == Degrade(old(Value()))
    {
      OnlyDown(state);
      if armed {
        var rates := Rates(state);
        var sumRates := SumRates(rates);
        FillProbabilities(rates, sumRates, probvector);
        assert probvector[transition] > 0.0;
        state := transition;
      }
      OnlyDown(state);
      var sum := SumRates(Rates(state));
      armed := sum > 0.0;
      assert state > 0 ==> Rates(state)[state - 1] > 0.0;
    }
  }

  // ----- Sa_grp

  ghost function Values(chains: seq<Chain>): seq<Degrading>
    reads chains
  {
    seq(|chains|, i requires 0 <= i < |chains| reads chains => chains[i].Value())
  }

  class SaGrp {
    const sGrps: seq<Chain>
    const aGrps: seq<Chain>
    var sensors: nat
    var actuators: nat

    constructor (sGrps: seq<Chain>, aGrps: seq<Chain>)
      ensures this.sGrps == sGrps && this.aGrps == aGrps && sensors == |sGrps| && actuators == |aGrps|
    {
      this.sGrps, this.aGrps, sensors, actuators := sGrps, aGrps, |sGrps|, |aGrps|;
    }

    method CountWorking(chains: seq<Chain>, least: nat) returns (sum: nat)
      ensures sum == Count(Values(chains), least)
    {
      sum := 0;
      var i := 0;
      while i < |chains|
        invariant 0 <= i <= |chains| == |Values(chains)| && sum == Count(Values(chains)[..i], least)
      {
        assert Values(chains)[..i + 1][..i] == Values(chains)[..i];
        if chains[i].state >= least {
          sum := sum + 1;
        }
        i := i + 1;
      }
      assert Values(chains)[..i] == Values(chains);
    }

    /** One turn of sa_grp_transition. */
    method Resume()
      modifies this
      ensures sensors == Count(Values(sGrps), 2) && actuators == Count(Values(aGrps), 1)
    {
      var s := CountWorking(sGrps, 2);
      sensors := s;
      var a := CountWorking(aGrps, 1);
      actuators := a;
    }
  }

  // ----- Proci and Proco

  /** The input or the output processor; `least` is the number of groups it needs. */
  class RebootingProcessor {
    const fail: real        // lambda_processor
    const transient: real   // lambda_transient
    const reboot: real      // lambda_reboot
    const least: nat
    var status: nat
    var numberReboot: nat
    var makeTransition: bool   // whether the wait under way is one for a transition
    const probvector: array<real>

    ghost predicate Valid()
      reads this, probvector
    {
      && fail > 0.0 && transient > 0.0 && reboot > 0.0 && status <= 2 && probvector.Length == 3
      && (makeTransition ==> exists i :: 0 <= i < 3 && probvector[i] > 0.0)
    }

    ghost function Value(): Processor
      reads this, probvector
    {
      Processor(status, numberReboot,
                if makeTransition then set i: nat | i < probvector.Length && probvector[i] > 0.0 else {})
    }

    constructor (fail: real, transient: real, reboot: real, least: nat)
      requires fail > 0.0 && transient > 0.0 && reboot > 0.0
      ensures Valid() && Value() == Processor(2, 0, {}) && this.least == least && fresh(probvector)
    {
      this.fail, this.transient, this.reboot, this.least := fail, transient, reboot, least;
      status, numberReboot, makeTransition := 2, 0, false;
      probvector := new real[3](_ => 0.0);
    }

    /** The row of q_matrix for a state. */
    function Rates(from: nat): (row: seq<real>)
      ensures |row| == 3
    {
      if from == 1 then [fail, 0.0, reboot] else if from == 2 then [fail, transient, 0.0] else [0.0, 0.0, 0.0]
    }

    /** The loop up to the wait: probabilities, with zero for what the guards forbid. */
    method BeginWait(working: nat)
      requires Valid()
      modifies this`makeTransition, probvector
      ensures Valid() && Value() == old(Value()).(targets := Targets(status, working >= least))
    {
      var rates := Rates(status);
      assert rates[0] > 0.0 || status == 0;
      var sumRates := SumRates(rates);
      makeTransition := false;
      if sumRates > 0.0 {
        FillProbabilities(rates, sumRates, probvector);
        if status == 2 {
          if working < least {
            probvector[0] := 0.0;
          }
          if working < least {
            probvector[1] := 0.0;
          }
        } else if status == 1 {
          if working < least {
            probvector[0] := 0.0;
          }
          if working < least {
            probvector[2] := 0.0;
          }
        }
        var i := 0;
        while i < probvector.Length
          invariant 0 <= i <= probvector.Length && !makeTransition
          invariant forall k | 0 <= k < i :: probvector[k] <= 0.0
        {
          if probvector[i] > 0.0 {
            makeTransition := true;
            break;
          }
          i := i + 1;
        }
      }
      Support(working);
    }

    // What the vector supports, element by element.
    lemma Support(working: nat)
      requires fail > 0.0 && transient > 0.0 && reboot > 0.0 && status <= 2 && probvector.Length == 3
      requires makeTransition ==> exists i :: 0 <= i < 3 && probvector[i] > 0.0
      requires !makeTransition ==> status == 0 || forall k | 0 <= k < 3 :: probvector[k] <= 0.0
      requires status != 0 ==> forall k: nat | k < 3 :: probvector[k] > 0.0 <==> k in Targets(status, working >= least)
      requires status == 0 ==> !makeTransition
      ensures Value().targets == Targets(status, working >= least)
    {
      assert 0 in Targets(status, working >= least) <==> status != 0 && working >= least;
      forall k: nat | k in Targets(status, working >= least)
        ensures k in Value().targets
      {
        assert probvector[k] > 0.0;
      }
    }

    /** From the end of one wait to the start of the next; `write` tells of a write to the reboot port. */
    method Resume(transition: nat, working: nat) returns (write: bool)
      requires Valid() && (makeTransition ==> transition < 3 && probvector[transition] > 0.0)
      modifies this, probvector
      ensures Valid() && Value() == Transition(old(Value()), transition, working >= least)
      ensures write == Reboots(old(Value()), transition)
    {
      write := false;
      if makeTransition {
        assert transition in Value().targets;
        write := status == 1 && transition == 2;
        status := transition;
        if write {
          numberReboot := numberReboot + 1;
        }
      }
      BeginWait(working);
    }
  }

  // ----- the timeout thread of Procm

  class TimeoutCounter {
    var count: int
    var comp: bool
    var armed: bool

    ghost function Value(): Cycles
      reads this
    {
      Cycles(count, comp, armed)
    }

    constructor ()
      ensures Value() == Cycles(0, false, false)
    {
      count, comp, armed := 0, false, false;
    }

    /** From the end of one wait to the start of the next; `write` tells of a write to the timeout port. */
    method Resume(current: bool) returns (write: bool)
      modifies this
      ensures Value() == CycleEnd(old(Value()), current) && write == old(armed)
      ensures old(armed) && !old(comp) && 0 <= old(count) <= MAX_COUNT + 1 ==>
                count == if old(count) <= MAX_COUNT then old(count) + 1 else MAX_COUNT + 1
    {
      write := armed;
      if armed {
        if comp {
          count := 0;
        } else {
          if count > MAX_COUNT {
            count := MAX_COUNT + 1;
          } else {
            count := count + 1;
          }
        }
      }
      comp, armed := current, true;
    }
  }

  // ----- Bus

  class BusModule {
    var comp: int
    var reqi: int
    var reqo: int

    /** Flags are 0 or 1. */
    ghost predicate Valid()
      reads this
    {
      0 <= comp <= 1 && 0 <= reqi <= 1 && 0 <= reqo <= 1
    }

    ghost function Value(): Bus
      reads this
    {
      Bus(comp == 1, reqi == 1, reqo == 1)
    }

    constructor (comp: int, reqi: int, reqo: int)
      requires 0 <= comp <= 1 && 0 <= reqi <= 1 && 0 <= reqo <= 1
      ensures Valid() && Value() == Bus(comp == 1, reqi == 1, reqo == 1)
    {
      this.comp, this.reqi, this.reqo := comp, reqi, reqo;
    }

    method ReceivingInputReboot(procm: nat, proco: nat, actuators: nat)
      requires Valid()
      modifies this
      ensures Valid()
      ensures Value() == OnInputReboot(old(Value()), procm == 1, proco == 2 && actuators >= M_ACTUATOR)
    {
      if comp == 1 || (procm == 1 && reqo == 0) {
        comp := 1;
      } else {
        comp := 0;
      }
      reqi := 1;
      if !(proco == 2 && actuators >= M_ACTUATOR) && (reqo == 1 || procm == 1) {
        reqo := 1;
      } else {
        reqo := 0;
      }
    }

    method ReceivingOutputReboot(procm: nat, proci: nat, sensors: nat)
      requires Valid()
      modifies this
      ensures Valid()
      ensures Value() == OnOutputReboot(old(Value()), procm == 1, procm == 0, proci == 2 && sensors >= M_SENSOR)
    {
      if comp == 1 || (procm == 1 && reqi == 1) {
        comp := 1;
      } else {
        comp := 0;
      }
      if (proci == 2 && sensors >= M_SENSOR) || (reqi == 1 && procm == 0) {
        reqi := 1;
      } else {
        reqi := 0;
      }
      reqo := 0;
    }

    method ReceivingTimeout(procm: nat, proci: nat, proco: nat, sensors: nat, actuators: nat)
      requires Valid()
      modifies this
      ensures Valid()
      ensures Value() == OnTimeout(old(Value()), procm == 1, procm == 0, proci == 2 && sensors >= M_SENSOR,
                                   proco == 2 && actuators >= M_ACTUATOR)
    {
      if reqi == 1 && reqo == 0 && procm == 1 {
        comp := 1;
      } else {
        comp := 0;
      }
      if (proci == 2 && sensors >= M_SENSOR) || (reqi == 1 && (procm == 0 || reqo == 1)) {
        reqi := 1;
      } else {
        reqi := 0;
      }
      if !(proco == 2 && actuators >= M_ACTUATOR) && (reqo == 1 || (procm == 1 && reqi == 1)) {
        reqo := 1;
      } else {
        reqo := 0;
      }
    }
  }
}
