/**
 The wait and interrupt protocol of sched.c. Every step runs under the context's mutex: a thread enters sched_sleep up
 to the condition wait, a thread leaves it after the wait (woken, timed out or for no reason), and sched_interrupt.
 sched_wakeup changes nothing: a sleeper may leave at any time.
 */
module Sched {
  import opened Base

  datatype Ctx = Ctx(interrupted: bool, wc: int, asleep: set<nat>)

  const NEW_CTX := Ctx(false, 0, {})

  datatype Step = Enter(thread: nat) | Leave(thread: nat, ret: int) | Interrupt

  predicate Enabled(c: Ctx, s: Step) {
    match s
    case Enter(t) => t !in c.asleep
    case Leave(t, _) => t in c.asleep
    case Interrupt => true
  }

  function Next(c: Ctx, s: Step): Ctx
    requires Enabled(c, s)
  {
    match s
    case Enter(t) => if c.interrupted then c else c.(wc := c.wc + 1, asleep := c.asleep + {t})
    case Leave(t, _) =>
      Ctx(c.interrupted && c.wc - 1 != 0, c.wc - 1, c.asleep - {t})
    case Interrupt => c.(interrupted := true)
  }

  /** What sched_sleep returns at this step, if it returns. */
  function Result(c: Ctx, s: Step): Option<int> {
    match s
    case Enter(_) => if c.interrupted then Some(-1) else None
    case Leave(_, ret) => if c.interrupted then Some(-1) else Some(ret)
    case Interrupt => None
  }

  predicate Inv(c: Ctx) { c.wc == |c.asleep| }

  predicate IsRun(c: Ctx, steps: seq<Step>)
    decreases |steps|
  {
    steps != [] ==> Enabled(c, steps[0]) && IsRun(Next(c, steps[0]), steps[1..])
  }

  function Run(c: Ctx, steps: seq<Step>): Ctx
    requires IsRun(c, steps)
    decreases |steps|
  {
    if steps == [] then c else Run(Next(c, steps[0]), steps[1..])
  }

  /** `wc` is the number of sleeping threads in every run. */
  lemma {:induction false} WaitCount(c: Ctx, steps: seq<Step>)
    requires Inv(c) && IsRun(c, steps)
    ensures Inv(Run(c, steps))
    decreases |steps|
  {
    if steps == [] {
    } else {
      WaitCount(Next(c, steps[0]), steps[1..]);
    }
  }

  function Leaving(s: Step): set<nat> { if s.Leave? then {s.thread} else {} }

  /** The threads that leave during the steps. */
  function Left(steps: seq<Step>): set<nat> {
    if steps == [] then {} else Leaving(steps[0]) + Left(steps[1..])
  }

  lemma StepWhileInterrupted(c: Ctx, s: Step)
    requires Inv(c) && c.interrupted && c.asleep != {} && Enabled(c, s)
    ensures var c' := Next(c, s);
            Inv(c') && c'.asleep == c.asleep - Leaving(s) && (c'.interrupted <==> c'.asleep != {})
    ensures Result(c, s) == if s.Interrupt? then None else Some(-1)
  {
  }

  /** Every call of sched_sleep that starts or ends during the steps returns -1 there. */
  predicate AllInterrupted(c: Ctx, steps: seq<Step>)
    requires IsRun(c, steps)
    decreases |steps|
  {
    steps != [] ==>
      && Result(c, steps[0]) == (if steps[0].Interrupt? then None else Some(-1))
      && AllInterrupted(Next(c, steps[0]), steps[1..])
  }

  /**
   * Every call of sched_sleep that starts during the steps goes to sleep, and every one that ends returns what its wait
   * returned.
   */
  predicate NoneInterrupted(c: Ctx, steps: seq<Step>)
    requires IsRun(c, steps)
    decreases |steps|
  {
    steps != [] ==>
      && (steps[0].Enter? ==> Result(c, steps[0]) == None && steps[0].thread in Next(c, steps[0]).asleep)
      && (steps[0].Leave? ==>
            Result(c, steps[0]) == Some(steps[0].ret) && steps[0].thread !in Next(c, steps[0]).asleep)
      && NoneInterrupted(Next(c, steps[0]), steps[1..])
  }

  /** Without an interrupt nothing is interrupted. */
  lemma {:induction false} QuietRun(c: Ctx, steps: seq<Step>)
    requires !c.interrupted && IsRun(c, steps) && forall s :: s in steps ==> !s.Interrupt?
    ensures NoneInterrupted(c, steps) && !Run(c, steps).interrupted
    decreases |steps|
  {
    if steps == [] {
    } else {
      assert steps[0] in steps;
      QuietRun(Next(c, steps[0]), steps[1..]);
    }
  }

  lemma {:induction false} WhileInterrupted(c: Ctx, steps: seq<Step>)
    requires Inv(c) && c.interrupted && IsRun(c, steps)
    requires forall k :: 0 <= k < |steps| ==> c.asleep - Left(steps[..k]) != {}
    ensures AllInterrupted(c, steps)
    ensures Run(c, steps).asleep == c.asleep - Left(steps)
    ensures steps != [] ==> (Run(c, steps).interrupted <==> c.asleep - Left(steps) != {})
    decreases |steps|
  {
    if steps == [] {
    } else {
      var s, rest := steps[0], steps[1..];
      NoneLeft(c.asleep, steps);
      StepWhileInterrupted(c, s);
      hide Left, Leaving, Next, Enabled, Result;
      if rest == [] {
        OneLeft(steps);
      } else {
        StillSleepers(c.asleep, steps);
        WhileInterrupted(Next(c, s), rest);
        LeftRest(c.asleep, steps);
      }
    }
  }

  /**
   * After an interrupt that finds sleepers, and up to and including the step at which the last of them leaves: every
   * sched_sleep that starts or ends returns -1, the sleepers are exactly those of the interrupt that have not left, and
   * the flag is set exactly while there are any.
   */
  lemma InterruptReachesAll(c: Ctx, steps: seq<Step>)
    requires Inv(c) && c.asleep != {} && IsRun(Next(c, Interrupt), steps)
    requires forall k :: 0 <= k < |steps| ==> c.asleep - Left(steps[..k]) != {}
    ensures AllInterrupted(Next(c, Interrupt), steps)
    ensures Run(Next(c, Interrupt), steps).asleep == c.asleep - Left(steps)
    ensures Run(Next(c, Interrupt), steps).interrupted <==> c.asleep - Left(steps) != {}
  {
    WhileInterrupted(Next(c, Interrupt), steps);
    if steps == [] {
      assert c.asleep - Left(steps) == c.asleep;
    }
  }

  lemma NoneLeft(asleep: set<nat>, steps: seq<Step>)
    ensures asleep - Left(steps[..0]) == asleep
  {
  }

  lemma OneLeft(steps: seq<Step>)
    requires |steps| == 1
    ensures Left(steps) == Leaving(steps[0])
  {
  }

  lemma LeftRest(asleep: set<nat>, steps: seq<Step>)
    requires steps != []
    ensures (asleep - Leaving(steps[0])) - Left(steps[1..]) == asleep - Left(steps)
  {
  }

  lemma StillSleepers(asleep: set<nat>, steps: seq<Step>)
    requires |steps| > 1 && forall k :: 0 <= k < |steps| ==> asleep - Left(steps[..k]) != {}
    ensures asleep - Leaving(steps[0]) != {}
    ensures forall k :: 0 <= k < |steps| - 1 ==> (asleep - Leaving(steps[0])) - Left(steps[1..][..k]) != {}
  {
    forall k | 0 <= k < |steps| - 1
      ensures (asleep - Leaving(steps[0])) - Left(steps[1..][..k]) == asleep - Left(steps[..k + 1])
    {
      assert steps[..k + 1][1..] == steps[1..][..k];
    }
    assert steps[1..][..0] == [];
  }

  lemma {:induction false} NobodyClears(c: Ctx, steps: seq<Step>)
    requires c.interrupted && c.asleep == {} && IsRun(c, steps)
    ensures Run(c, steps) == c && AllInterrupted(c, steps)
    decreases |steps|
  {
    if steps == [] {
    } else {
      NobodyClears(Next(c, steps[0]), steps[1..]);
    }
  }

  /** An interrupt that finds no sleeper is never cleared: every later sched_sleep returns -1 at once. */
  lemma InterruptWithoutSleeperStays(c: Ctx, steps: seq<Step>)
    requires c.asleep == {} && IsRun(Next(c, Interrupt), steps)
    ensures Run(Next(c, Interrupt), steps).interrupted && AllInterrupted(Next(c, Interrupt), steps)
  {
    NobodyClears(Next(c, Interrupt), steps);
  }

  /** So an interrupt can be cleared, by letting every sleeper leave, exactly when it finds a sleeper. */
  lemma ClearableIff(c: Ctx)
    requires Inv(c)
    ensures (exists steps :: IsRun(Next(c, Interrupt), steps) && !Run(Next(c, Interrupt), steps).interrupted) <==>
            c.asleep != {}
  {
    var d := Next(c, Interrupt);
    if c.asleep != {} {
      var steps := AllLeave(d);
      assert IsRun(d, steps) && !Run(d, steps).interrupted;
    } else {
      forall steps | IsRun(d, steps) ensures Run(d, steps).interrupted {
        NobodyClears(d, steps);
      }
    }
  }

  lemma {:induction false} AllLeave(c: Ctx) returns (steps: seq<Step>)
    requires Inv(c) && c.interrupted && c.asleep != {}
    ensures IsRun(c, steps) && !Run(c, steps).interrupted
    decreases |c.asleep|
  {
    var t :| t in c.asleep;
    var s := Leave(t, 0);
    var c' := Next(c, s);
    StepWhileInterrupted(c, s);
    if c'.asleep == {} {
      steps := [s];
      assert steps[1..] == [];
    } else {
      var rest := AllLeave(c');
      steps := [s] + rest;
      assert steps[1..] == rest;
    }
  }

  // ---- The context in place ----

  class Context {
    var interrupted: bool
    var wc: int
    ghost var Asleep: set<nat>

    ghost function View(): Ctx
      reads this
    {
      Ctx(interrupted, wc, Asleep)
    }

    /** sched_ctx_init. */
    constructor ()
      ensures View() == NEW_CTX
    {
      interrupted, wc, Asleep := false, 0, {};
    }

    /** sched_sleep up to the wait. */
    method SleepEnter(thread: nat) returns (r: Option<int>)
      requires Inv(View()) && thread !in Asleep
      modifies this
      ensures Inv(View())
      ensures View() == Next(old(View()), Enter(thread)) && r == Result(old(View()), Enter(thread))
    {
      if interrupted {
        return Some(-1);
      }
      wc := wc + 1;
      Asleep := Asleep + {thread};
      return None;
    }

    /** sched_sleep from the wait, which returned `ret`. */
    method SleepLeave(thread: nat, ret: int) returns (r: int)
      requires Inv(View()) && thread in Asleep
      modifies this
      ensures Inv(View())
      ensures View() == Next(old(View()), Leave(thread, ret)) && Some(r) == Result(old(View()), Leave(thread, ret))
    {
      wc := wc - 1;
      Asleep := Asleep - {thread};
      if interrupted {
        if wc == 0 {
          interrupted := false;
        }
        return -1;
      }
      return ret;
    }

    /** sched_interrupt. */
    method SchedInterrupt()
      requires Inv(View())
      modifies this`interrupted
      ensures Inv(View()) && View() == Next(old(View()), Interrupt)
    {
      interrupted := true;
    }
  }
}
