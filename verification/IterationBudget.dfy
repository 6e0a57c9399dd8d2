/**
 The lock-free iteration budget: one shared `u32` cell, any number of threads, and
 `compare_exchange_weak` retry loops that may fail spuriously.

 The protocol is a labelled step system. A run is a sequence of actions; `Exec` gives the
 state it leads to, or `None` when some action was not enabled. Loads and swaps on the one
 cell are interleaved atomically.
 */
module IterationBudget {
  import opened Basics

  const U32_MOD := 0x1_0000_0000

  type U32 = n: int | 0 <= n < 0x1_0000_0000

  /** Release-build `u32` arithmetic, written out so that "never wraps" is a theorem. */
  function WrappingAdd(a: U32, b: U32): U32 {
    (a + b) % U32_MOD
  }

  function WrappingSub(a: U32, b: U32): U32 {
    (a - b) % U32_MOD
  }

  function SaturatingSub(a: U32, b: U32): U32 {
    if a < b then 0 else a - b
  }

  datatype Op = Consume | Refund | Used | Remaining

  datatype Ret = Granted(ok: bool) | Unit | Count(n: U32)

  /** Where a thread is inside a call. */
  datatype Pc =
    | Idle
    | Ready(op: Op)                    // called, about to load the cell
    | Looping(op: Op, current: U32)    // top of the retry loop
    | Swapping(op: Op, current: U32)   // guard passed, about to compare-and-swap
    | Returning(op: Op, ret: Ret)

  datatype State = State(used: U32, threads: seq<Pc>)

  datatype Action =
    | Call(t: nat, op: Op)
    | Load(t: nat)
    | Guard(t: nat)
    | CasOk(t: nat, swap: Op)
    | CasLost(t: nat)      // the cell no longer held `current`
    | CasSpurious(t: nat)  // the cell held `current` and the weak swap failed anyway
    | Return(t: nat, ret: Ret)

  function Init(n: nat): State {
    State(0, seq(n, _ => Idle))
  }

  /** The loop's early-exit test: out of budget for a consume, nothing to give back for a refund. */
  predicate Exhausted(max: U32, op: Op, current: U32) {
    if op == Consume then current >= max else current == 0
  }

  function ExhaustedRet(op: Op): Ret {
    if op == Consume then Granted(false) else Unit
  }

  function SwappedRet(op: Op): Ret {
    if op == Consume then Granted(true) else Unit
  }

  /** The value the swap installs. */
  function Target(op: Op, current: U32): U32 {
    if op == Consume then WrappingAdd(current, 1) else WrappingSub(current, 1)
  }

  predicate Enabled(max: U32, s: State, a: Action) {
    && a.t < |s.threads|
    && var pc := s.threads[a.t];
       match a
       case Call(_, _) => pc.Idle?
       case Load(_) => pc.Ready?
       case Guard(_) => pc.Looping?
       case CasOk(_, op) => pc.Swapping? && pc.op == op && s.used == pc.current
       case CasLost(_) => pc.Swapping? && s.used != pc.current
       case CasSpurious(_) => pc.Swapping? && s.used == pc.current
       case Return(_, ret) => pc.Returning? && pc.ret == ret
  }

  function Apply(max: U32, s: State, a: Action): State
    requires Enabled(max, s, a)
  {
    var pc := s.threads[a.t];
    match a
    case Call(t, op) => s.(threads := s.threads[t := Ready(op)])
    case Load(t) =>
      var next :=
        match pc.op
        case Used => Returning(Used, Count(s.used))
        case Remaining => Returning(Remaining, Count(SaturatingSub(max, s.used)))
        case _ => Looping(pc.op, s.used);
      s.(threads := s.threads[t := next])
    case Guard(t) =>
      var next := if Exhausted(max, pc.op, pc.current) then Returning(pc.op, ExhaustedRet(pc.op))
                  else Swapping(pc.op, pc.current);
      s.(threads := s.threads[t := next])
    case CasOk(t, op) =>
      State(Target(op, pc.current), s.threads[t := Returning(op, SwappedRet(op))])
    case CasLost(t) => s.(threads := s.threads[t := Looping(pc.op, s.used)])
    case CasSpurious(t) => s.(threads := s.threads[t := Looping(pc.op, s.used)])
    case Return(t, _) => s.(threads := s.threads[t := Idle])
  }

  /** The state after a run of `n` threads, or `None` when the sequence is not a run. */
  function Exec(max: U32, n: nat, trace: seq<Action>): Option<State> {
    if trace == [] then Some(Init(n))
    else
      match Exec(max, n, Front(trace))
      case None => None
      case Some(s) => if Enabled(max, s, Last(trace)) then Some(Apply(max, s, Last(trace))) else None
  }

  function Front<T>(s: seq<T>): seq<T>
    requires s != []
  {
    s[..|s| - 1]
  }

  function Last<T>(s: seq<T>): T
    requires s != []
  {
    s[|s| - 1]
  }

  // ----- Safety: bounded, conserved, never wrapping -----

  predicate ThreadOk(max: U32, pc: Pc) {
    match pc
    case Looping(op, current) => (op == Consume || op == Refund) && current <= max
    case Swapping(op, current) =>
      (op == Consume || op == Refund) && current <= max && !Exhausted(max, op, current)
    case _ => true
  }

  predicate Inv(max: U32, s: State) {
    && s.used <= max
    && forall t :: 0 <= t < |s.threads| ==> ThreadOk(max, s.threads[t])
  }

  lemma StepKeepsInv(max: U32, s: State, a: Action)
    requires Inv(max, s) && Enabled(max, s, a)
    ensures Inv(max, Apply(max, s, a))
    ensures |Apply(max, s, a).threads| == |s.threads|
  {
    assert ThreadOk(max, s.threads[a.t]);
  }

  lemma {:induction false} RunKeepsInv(max: U32, n: nat, trace: seq<Action>)
    requires Exec(max, n, trace).Some?
    ensures Inv(max, Exec(max, n, trace).value)
    ensures |Exec(max, n, trace).value.threads| == n
  {
    if trace != [] {
      RunKeepsInv(max, n, Front(trace));
      StepKeepsInv(max, Exec(max, n, Front(trace)).value, Last(trace));
    }
  }

  /** Successful swaps of one kind in a run: granted consumes, or refunds that gave a unit back. */
  function Swaps(trace: seq<Action>, op: Op): nat {
    if trace == [] then 0
    else Swaps(Front(trace), op) + (if Last(trace).CasOk? && Last(trace).swap == op then 1 else 0)
  }

  /**
   The budget is bounded and conserved over every interleaving: the cell equals granted
   consumes minus effective refunds and stays within `0..=max`.
   */
  lemma {:induction false} BudgetConserved(max: U32, n: nat, trace: seq<Action>)
    requires Exec(max, n, trace).Some?
    ensures 0 <= Exec(max, n, trace).value.used <= max
    ensures Exec(max, n, trace).value.used == Swaps(trace, Consume) - Swaps(trace, Refund)
  {
    RunKeepsInv(max, n, trace);
    if trace != [] {
      BudgetConserved(max, n, Front(trace));
      RunKeepsInv(max, n, Front(trace));
      var s := Exec(max, n, Front(trace)).value;
      assert ThreadOk(max, s.threads[Last(trace).t]);
    }
  }

  /** Whenever a thread is about to swap, the new value is the plain sum or difference. */
  lemma {:induction false} SwapNeverWraps(max: U32, n: nat, trace: seq<Action>, t: nat)
    requires Exec(max, n, trace).Some? && t < n
    ensures var pc := Exec(max, n, trace).value.threads;
            t < |pc| && (pc[t].Swapping? ==>
              && (pc[t].op == Consume ==> Target(pc[t].op, pc[t].current) == pc[t].current + 1 <= max)
              && (pc[t].op == Refund ==> Target(pc[t].op, pc[t].current) == pc[t].current - 1 >= 0))
  {
    RunKeepsInv(max, n, trace);
    assert ThreadOk(max, Exec(max, n, trace).value.threads[t]);
  }

  // ----- Linearizability: refinement of an atomic sequential counter -----

  /** One atomic step of the sequential bounded counter. */
  function SeqStep(max: U32, count: U32, op: Op): (U32, Ret) {
    match op
    case Consume => if count < max then (count + 1, Granted(true)) else (count, Granted(false))
    case Refund => (if count > 0 then count - 1 else 0, Unit)
    case Used => (count, Count(count))
    case Remaining => (count, Count(if count <= max then max - count else 0))
  }

  /** The specification: each call takes effect in exactly one atomic step between its call and its return. */
  datatype SpecPc = Free | Called(op: Op) | Done(ret: Ret)

  datatype Spec = Spec(count: U32, calls: seq<SpecPc>)

  datatype SpecAction = SpecCall(t: nat, op: Op) | Effect(t: nat) | SpecReturn(t: nat, ret: Ret)

  predicate SpecEnabled(s: Spec, a: SpecAction) {
    && a.t < |s.calls|
    && match a
       case SpecCall(t, _) => s.calls[t].Free?
       case Effect(t) => s.calls[t].Called?
       case SpecReturn(t, ret) => s.calls[t] == Done(ret)
  }

  function SpecApply(max: U32, s: Spec, a: SpecAction): Spec
    requires SpecEnabled(s, a)
  {
    match a
    case SpecCall(t, op) => s.(calls := s.calls[t := Called(op)])
    case Effect(t) =>
      var (count, ret) := SeqStep(max, s.count, s.calls[t].op);
      Spec(count, s.calls[t := Done(ret)])
    case SpecReturn(t, _) => s.(calls := s.calls[t := Free])
  }

  function SpecExec(max: U32, n: nat, trace: seq<SpecAction>): Option<Spec> {
    if trace == [] then Some(Spec(0, seq(n, _ => Free)))
    else
      match SpecExec(max, n, Front(trace))
      case None => None
      case Some(s) => if SpecEnabled(s, Last(trace)) then Some(SpecApply(max, s, Last(trace))) else None
  }

  /** What a client sees of a run: the calls and the returned values, in order. */
  datatype Event = Invoked(t: nat, op: Op) | Returned(t: nat, ret: Ret)

  function Seen(a: Action): seq<Event> {
    match a
    case Call(t, op) => [Invoked(t, op)]
    case Return(t, ret) => [Returned(t, ret)]
    case _ => []
  }

  function SpecSeen(a: SpecAction): seq<Event> {
    match a
    case SpecCall(t, op) => [Invoked(t, op)]
    case SpecReturn(t, ret) => [Returned(t, ret)]
    case Effect(_) => []
  }

  function Visible(trace: seq<Action>): seq<Event> {
    if trace == [] then [] else Visible(Front(trace)) + Seen(Last(trace))
  }

  function SpecVisible(trace: seq<SpecAction>): seq<Event> {
    if trace == [] then [] else SpecVisible(Front(trace)) + SpecSeen(Last(trace))
  }

  /** A thread that has read an exhausted value has already taken effect; one still trying has not. */
  function AbsPc(max: U32, pc: Pc): SpecPc {
    match pc
    case Idle => Free
    case Ready(op) => Called(op)
    case Looping(op, current) => if Exhausted(max, op, current) then Done(ExhaustedRet(op)) else Called(op)
    case Swapping(op, _) => Called(op)
    case Returning(_, ret) => Done(ret)
  }

  function Abs(max: U32, s: State): Spec {
    Spec(s.used, seq(|s.threads|, i requires 0 <= i < |s.threads| => AbsPc(max, s.threads[i])))
  }

  /** The specification actions that one step of the protocol performs. */
  function Refines(max: U32, s: State, a: Action): seq<SpecAction>
    requires Enabled(max, s, a)
  {
    match a
    case Call(t, op) => [SpecCall(t, op)]
    case Return(t, ret) => [SpecReturn(t, ret)]
    case _ => if AbsPc(max, s.threads[a.t]) == AbsPc(max, Apply(max, s, a).threads[a.t]) then [] else [Effect(a.t)]
  }

  lemma StepRefines(max: U32, s: State, a: Action)
    requires Inv(max, s) && Enabled(max, s, a)
    ensures var acts := Refines(max, s, a);
            && |acts| <= 1
            && (acts == [] ==> Abs(max, Apply(max, s, a)) == Abs(max, s) && Seen(a) == [])
            && (acts != [] ==> SpecEnabled(Abs(max, s), acts[0])
                               && SpecApply(max, Abs(max, s), acts[0]) == Abs(max, Apply(max, s, a))
                               && SpecSeen(acts[0]) == Seen(a))
  {
    var pc := s.threads[a.t];
    assert ThreadOk(max, pc);
    var s' := Apply(max, s, a);
    assert Abs(max, s').calls == Abs(max, s).calls[a.t := AbsPc(max, s'.threads[a.t])];
  }

  /**
   Linearizability: every run has a run of the atomic counter with the same calls and the
   same returned values in the same order, ending in the same count.
   */
  lemma {:induction false} Linearizable(max: U32, n: nat, trace: seq<Action>) returns (spec: seq<SpecAction>)
    requires Exec(max, n, trace).Some?
    ensures SpecExec(max, n, spec) == Some(Abs(max, Exec(max, n, trace).value))
    ensures SpecVisible(spec) == Visible(trace)
  {
    if trace == [] {
      spec := [];
      assert Abs(max, Init(n)).calls == seq(n, _ => Free);
    } else {
      spec := Linearizable(max, n, Front(trace));
      var s := Exec(max, n, Front(trace)).value;
      RunKeepsInv(max, n, Front(trace));
      StepRefines(max, s, Last(trace));
      var acts := Refines(max, s, Last(trace));
      if acts != [] {
        SpecExtends(max, n, spec, acts[0], Abs(max, s));
        spec := spec + [acts[0]];
      }
    }
  }

  lemma SpecExtends(max: U32, n: nat, spec: seq<SpecAction>, act: SpecAction, mid: Spec)
    requires SpecExec(max, n, spec) == Some(mid) && SpecEnabled(mid, act)
    ensures SpecExec(max, n, spec + [act]) == Some(SpecApply(max, mid, act))
    ensures SpecVisible(spec + [act]) == SpecVisible(spec) + SpecSeen(act)
  {
    assert Front(spec + [act]) == spec && Last(spec + [act]) == act;
  }

  // ----- Progress: a lost swap is always another thread's success -----

  predicate Reads(a: Action, t: nat) {
    a.t == t && (a.Load? || a.CasLost? || a.CasSpurious?)
  }

  /** The index of thread `t`'s latest read of the cell, or -1. */
  function LastRead(trace: seq<Action>, t: nat): (i: int)
    ensures -1 <= i < |trace|
    ensures 0 <= i ==> Reads(trace[i], t)
  {
    if trace == [] then -1
    else if Reads(Last(trace), t) then |trace| - 1
    else LastRead(Front(trace), t)
  }

  predicate Overtaken(trace: seq<Action>, t: nat, k: int) {
    LastRead(trace, t) < k < |trace| && 0 <= k && trace[k].CasOk? && trace[k].t != t
  }

  predicate InLoop(pc: Pc) {
    pc.Looping? || pc.Swapping?
  }

  lemma {:induction false} StaleMeansOvertaken(max: U32, n: nat, trace: seq<Action>, t: nat)
    requires Exec(max, n, trace).Some? && t < n
    ensures var s := Exec(max, n, trace).value;
            t < |s.threads| && (InLoop(s.threads[t]) ==>
              && LastRead(trace, t) >= 0
              && (s.threads[t].current == s.used || exists k :: Overtaken(trace, t, k)))
  {
    RunKeepsInv(max, n, trace);
    if trace != [] {
      var front, a := Front(trace), Last(trace);
      StaleMeansOvertaken(max, n, front, t);
      var s, s' := Exec(max, n, front).value, Exec(max, n, trace).value;
      if InLoop(s'.threads[t]) && !Reads(a, t) {
        if a.CasOk? {
          assert a.t != t;
          assert Overtaken(trace, t, |trace| - 1);
        } else if s.threads[t].current != s.used {
          var k :| Overtaken(front, t, k);
          assert Overtaken(trace, t, k);
        }
      }
    }
  }

  /** Every genuine swap failure means another thread's swap succeeded since this thread last read. */
  lemma LostSwapWasOvertaken(max: U32, n: nat, trace: seq<Action>, i: nat)
    requires Exec(max, n, trace).Some?
    requires i < |trace| && trace[i].CasLost?
    ensures LastRead(trace[..i], trace[i].t) >= 0
    ensures exists k :: Overtaken(trace[..i], trace[i].t, k)
  {
    PrefixRuns(max, n, trace, i + 1);
    var p := trace[..i + 1];
    assert Front(p) == trace[..i];
    RunKeepsInv(max, n, Front(p));
    StaleMeansOvertaken(max, n, Front(p), trace[i].t);
  }

  lemma {:induction false} PrefixRuns(max: U32, n: nat, trace: seq<Action>, i: nat)
    requires Exec(max, n, trace).Some? && i <= |trace|
    ensures Exec(max, n, trace[..i]).Some?
  {
    if i < |trace| {
      PrefixRuns(max, n, Front(trace), i);
      assert Front(trace)[..i] == trace[..i];
    } else {
      assert trace[..i] == trace;
    }
  }

  function Wins(trace: seq<Action>): nat {
    if trace == [] then 0 else Wins(Front(trace)) + (if Last(trace).CasOk? then 1 else 0)
  }

  function LostBy(trace: seq<Action>, t: nat): nat {
    if trace == [] then 0
    else LostBy(Front(trace), t) + (if Last(trace) == CasLost(t) then 1 else 0)
  }

  function Lost(trace: seq<Action>): nat {
    if trace == [] then 0 else Lost(Front(trace)) + (if Last(trace).CasLost? then 1 else 0)
  }

  /** How many successful swaps had happened when thread `t` last read the cell. */
  function WinsSeen(trace: seq<Action>, t: nat): nat {
    if trace == [] then 0
    else if Reads(Last(trace), t) then Wins(trace)
    else WinsSeen(Front(trace), t)
  }

  lemma {:induction false} LostByThread(max: U32, n: nat, trace: seq<Action>, t: nat)
    requires Exec(max, n, trace).Some? && t < n
    ensures LostBy(trace, t) <= WinsSeen(trace, t) <= Wins(trace)
    ensures var s := Exec(max, n, trace).value;
            t < |s.threads| &&
            (InLoop(s.threads[t]) && s.threads[t].current != s.used ==> WinsSeen(trace, t) < Wins(trace))
  {
    RunKeepsInv(max, n, trace);
    if trace != [] {
      LostByThread(max, n, Front(trace), t);
      RunKeepsInv(max, n, Front(trace));
    }
  }

  function SumLost(trace: seq<Action>, m: nat): nat {
    if m == 0 then 0 else SumLost(trace, m - 1) + LostBy(trace, m - 1)
  }

  lemma {:induction false} SumLostStep(trace: seq<Action>, m: nat)
    requires trace != []
    ensures SumLost(trace, m) ==
            SumLost(Front(trace), m) + (if Last(trace).CasLost? && Last(trace).t < m then 1 else 0)
  {
    if m > 0 {
      SumLostStep(trace, m - 1);
    }
  }

  lemma {:induction false} LostIsSum(max: U32, n: nat, trace: seq<Action>)
    requires Exec(max, n, trace).Some?
    ensures Lost(trace) == SumLost(trace, n)
  {
    if trace == [] {
      SumLostEmpty(n);
    } else {
      LostIsSum(max, n, Front(trace));
      RunKeepsInv(max, n, Front(trace));
      SumLostStep(trace, n);
    }
  }

  lemma SumLostEmpty(m: nat)
    ensures SumLost([], m) == 0
  {
  }

  lemma {:induction false} SumLostBounded(max: U32, n: nat, trace: seq<Action>, m: nat)
    requires Exec(max, n, trace).Some? && m <= n
    ensures SumLost(trace, m) <= m * Wins(trace)
  {
    if m > 0 {
      SumLostBounded(max, n, trace, m - 1);
      LostByThread(max, n, trace, m - 1);
      OneMoreTime(m, Wins(trace));
    }
  }

  lemma OneMoreTime(m: nat, k: nat)
    requires m > 0
    ensures m * k == (m - 1) * k + k
  {
  }

  /** In any run, genuine swap failures number at most threads times successful swaps. */
  lemma LostSwapsBounded(max: U32, n: nat, trace: seq<Action>)
    requires Exec(max, n, trace).Some?
    ensures Lost(trace) <= n * Wins(trace)
  {
    LostIsSum(max, n, trace);
    SumLostBounded(max, n, trace, n);
  }
}
