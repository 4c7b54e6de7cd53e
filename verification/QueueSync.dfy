/** The mutex and the condition variable of a queue, as steps of any number of threads: each lock,
    wait, signal, broadcast and unlock is a step of its own, and any thread may step at any time. */
module QueueSync {
  import opened Sets

  type Tid = nat

  /** Where a thread stands in the queue's functions. */
  datatype Pc =
    | Idle
    | PopWanting       // about to take the mutex for a pop
    | PopChecking      // holding it, at the test of the count
    | Asleep           // in the condition wait, the mutex released
    | Woken            // out of the wait, about to take the mutex back
    | Popped           // took an element, about to unlock
    | PushWanting
    | PushHolding
    | PushLinked       // linked the element and raised the count, about to signal
    | PushSignalled
    | CastWanting
    | CastHolding      // about to wake all
    | CastDone

  datatype State = State(pc: map<Tid, Pc>, count: nat, holder: set<Tid>)

  datatype Step =
    | Call(t: Tid, entry: Pc)
    | Acquire(t: Tid)
    | Wait(t: Tid)
    | Pop(t: Tid)
    | Link(t: Tid)
    | Signal(t: Tid, woken: set<Tid>)
    | Broadcast(t: Tid)
    | Spurious(t: Tid)
    | Release(t: Tid)

  predicate HoldsMutex(p: Pc) {
    || p.PopChecking? || p.Popped?
    || p.PushHolding? || p.PushLinked? || p.PushSignalled?
    || p.CastHolding? || p.CastDone?
  }

  /** Inside the pop loop and not asleep. */
  predicate InLoop(p: Pc) {
    p.PopChecking? || p.Woken?
  }

  function Sleepers(s: State): set<Tid> { set t | t in s.pc && s.pc[t] == Asleep }

  function Loopers(s: State): set<Tid> { set t | t in s.pc && InLoop(s.pc[t]) }

  function Unsignalled(s: State): set<Tid> { set t | t in s.pc && s.pc[t] == PushLinked }

  function Holders(s: State): set<Tid> { set t | t in s.pc && HoldsMutex(s.pc[t]) }

  /** What taking the mutex leads to. */
  function Entered(p: Pc): Pc {
    match p
    case PopWanting => PopChecking
    case Woken => PopChecking
    case PushWanting => PushHolding
    case CastWanting => CastHolding
    case _ => p
  }

  function Wake(pc: map<Tid, Pc>, woken: set<Tid>): map<Tid, Pc> {
    map t | t in pc :: if t in woken then Woken else pc[t]
  }

  predicate Enabled(s: State, step: Step) {
    step.t in s.pc &&
    match step
    case Call(t, entry) => s.pc[t] == Idle && (entry.PopWanting? || entry.PushWanting? || entry.CastWanting?)
    case Acquire(t) =>
      s.holder == {} && (s.pc[t].PopWanting? || s.pc[t].Woken? || s.pc[t].PushWanting? || s.pc[t].CastWanting?)
    case Wait(t) => s.pc[t] == PopChecking && s.count == 0
    case Pop(t) => s.pc[t] == PopChecking && s.count > 0
    case Link(t) => s.pc[t] == PushHolding
    // a signal wakes at least one sleeper, if there is one
    case Signal(t, woken) => s.pc[t] == PushLinked && woken <= Sleepers(s) && (Sleepers(s) != {} ==> woken != {})
    case Broadcast(t) => s.pc[t] == CastHolding
    case Spurious(t) => s.pc[t] == Asleep
    case Release(t) => (s.pc[t].Popped? || s.pc[t].PushSignalled? || s.pc[t].CastDone?)
  }

  function Next(s: State, step: Step): State
    requires Enabled(s, step)
  {
    match step
    case Call(t, entry) => s.(pc := s.pc[t := entry])
    case Acquire(t) => s.(pc := s.pc[t := Entered(s.pc[t])], holder := {t})
    case Wait(t) => s.(pc := s.pc[t := Asleep], holder := {})
    case Pop(t) => s.(pc := s.pc[t := Popped], count := s.count - 1)
    case Link(t) => s.(pc := s.pc[t := PushLinked], count := s.count + 1)
    case Signal(t, woken) => s.(pc := Wake(s.pc, woken)[t := PushSignalled])
    case Broadcast(t) => s.(pc := Wake(s.pc, Sleepers(s))[t := CastDone])
    case Spurious(t) => s.(pc := s.pc[t := Woken])
    case Release(t) => s.(pc := s.pc[t := Idle], holder := {})
  }

  predicate Init(s: State) {
    s.count == 0 && s.holder == {} && forall t :: t in s.pc ==> s.pc[t] == Idle
  }

  /** A run: consecutive enabled steps. */
  predicate IsRun(s: State, steps: seq<Step>)
    decreases |steps|
  {
    steps == [] || (Enabled(s, steps[0]) && IsRun(Next(s, steps[0]), steps[1..]))
  }

  function After(s: State, steps: seq<Step>): State
    requires IsRun(s, steps)
    decreases |steps|
  {
    if steps == [] then s else After(Next(s, steps[0]), steps[1..])
  }

  /** While anyone sleeps, every element in the queue is matched by a consumer awake in the loop or
      by a producer that has linked it and has yet to signal. */
  ghost predicate Covered(s: State) {
    Sleepers(s) != {} ==> s.count <= |Loopers(s)| + |Unsignalled(s)|
  }

  /** The holder is the one thread at a place that holds the mutex. */
  ghost predicate Inv(s: State) {
    && s.holder == Holders(s) && |s.holder| <= 1
    && Covered(s)
  }

  lemma InitInv(s: State)
    requires Init(s)
    ensures Inv(s)
  {
    assert Holders(s) == {} && Sleepers(s) == {};
  }

  lemma NoOtherHolder(s: State, t: Tid)
    requires Inv(s) && t in s.pc && HoldsMutex(s.pc[t])
    ensures s.holder == {t}
  {
    assert t in s.holder;
    assert |s.holder - {t}| == |s.holder| - 1;
  }

  /** How the four sets move when one thread goes from one place to another. */
  lemma Moved(s: State, s': State, t: Tid, p: Pc)
    requires t in s.pc && s'.pc == s.pc[t := p]
    ensures Loopers(s') == if InLoop(p) then Loopers(s) + {t} else Loopers(s) - {t}
    ensures Unsignalled(s') == if p == PushLinked then Unsignalled(s) + {t} else Unsignalled(s) - {t}
    ensures Sleepers(s') == if p == Asleep then Sleepers(s) + {t} else Sleepers(s) - {t}
  {
  }

  lemma MovedHolder(s: State, s': State, t: Tid, p: Pc)
    requires t in s.pc && s'.pc == s.pc[t := p]
    ensures Holders(s') == if HoldsMutex(p) then Holders(s) + {t} else Holders(s) - {t}
  {
  }

  lemma Woke(s: State, s': State, woken: set<Tid>)
    requires woken <= Sleepers(s) && s'.pc == Wake(s.pc, woken)
    ensures Loopers(s') == Loopers(s) + woken && |Loopers(s')| == |Loopers(s)| + |woken|
    ensures Unsignalled(s') == Unsignalled(s) && Holders(s') == Holders(s)
    ensures Sleepers(s') == Sleepers(s) - woken
  {
    assert Loopers(s) !! woken;
  }

  lemma SignalInv(s: State, t: Tid, woken: set<Tid>)
    requires Inv(s) && Enabled(s, Signal(t, woken))
    ensures Inv(Next(s, Signal(t, woken)))
  {
    var mid := s.(pc := Wake(s.pc, woken));
    Woke(s, mid, woken);
    NoOtherHolder(s, t);
    MovedHolder(mid, Next(s, Signal(t, woken)), t, PushSignalled);
    SignalCovered(s, t, woken);
  }

  /** What a signal does to the three sets. */
  lemma SignalSets(s: State, t: Tid, woken: set<Tid>)
    requires Enabled(s, Signal(t, woken))
    ensures var s' := Next(s, Signal(t, woken));
            && |Loopers(s')| == |Loopers(s)| + |woken|
            && Unsignalled(s') == Unsignalled(s) - {t} && Sleepers(s') == Sleepers(s) - woken
  {
    var s' := Next(s, Signal(t, woken));
    var mid := s.(pc := Wake(s.pc, woken));
    Woke(s, mid, woken);
    assert t in mid.pc && mid.pc[t] == PushLinked;
    Moved(mid, s', t, PushSignalled);
    NotIn(Loopers(mid), t);
    NotIn(Sleepers(mid), t);
  }

  lemma NotIn(a: set<Tid>, t: Tid)
    ensures t !in a ==> a - {t} == a
  {
  }

  /** The element that the signal stands for is now covered by one that it woke, if anyone slept. */
  lemma SignalCovered(s: State, t: Tid, woken: set<Tid>)
    requires Inv(s) && Enabled(s, Signal(t, woken))
    ensures Covered(Next(s, Signal(t, woken)))
  {
    SignalSets(s, t, woken);
    Without(Unsignalled(s), t);
    assert woken == {} || |woken| >= 1;
  }

  lemma BroadcastInv(s: State, t: Tid)
    requires Inv(s) && Enabled(s, Broadcast(t))
    ensures Inv(Next(s, Broadcast(t)))
  {
    var mid := s.(pc := Wake(s.pc, Sleepers(s)));
    Woke(s, mid, Sleepers(s));
    Moved(mid, Next(s, Broadcast(t)), t, CastDone);
    MovedHolder(mid, Next(s, Broadcast(t)), t, CastDone);
    NoOtherHolder(s, t);
  }

  /** A thread that comes to hold the mutex found it free; one that ceases to hold it frees it. */
  predicate TakesOrFrees(s: State, s': State, t: Tid)
    requires t in s.pc && t in s'.pc
  {
    var before, now := HoldsMutex(s.pc[t]), HoldsMutex(s'.pc[t]);
    s'.holder == (if before == now then s.holder else if now then {t} else {})
    && (!before && now ==> s.holder == {})
  }

  lemma StepTakesOrFrees(s: State, step: Step)
    requires Enabled(s, step) && !step.Signal? && !step.Broadcast?
    ensures var s' := Next(s, step);
            s'.pc.Keys == s.pc.Keys && s'.pc == s.pc[step.t := s'.pc[step.t]] && TakesOrFrees(s, s', step.t)
  {
  }

  lemma HolderStep(s: State, s': State, t: Tid)
    requires Inv(s) && t in s.pc && t in s'.pc
    requires s'.pc == s.pc[t := s'.pc[t]] && TakesOrFrees(s, s', t)
    ensures s'.holder == Holders(s') && |s'.holder| <= 1
  {
    MovedHolder(s, s', t, s'.pc[t]);
    if HoldsMutex(s.pc[t]) {
      NoOtherHolder(s, t);
      assert Holders(s) - {t} == {} && Holders(s) + {t} == {t};
    } else if !HoldsMutex(s'.pc[t]) {
      assert Holders(s) - {t} == Holders(s);
    }
  }

  lemma StepInv(s: State, step: Step)
    requires Inv(s) && Enabled(s, step)
    ensures Inv(Next(s, step))
  {
    if step.Signal? {
      SignalInv(s, step.t, step.woken);
    } else if step.Broadcast? {
      BroadcastInv(s, step.t);
    } else {
      StepTakesOrFrees(s, step);
      HolderStep(s, Next(s, step), step.t);
      StepCovered(s, step);
    }
  }

  lemma StepCovered(s: State, step: Step)
    requires Inv(s) && Enabled(s, step) && !step.Signal? && !step.Broadcast?
    ensures Covered(Next(s, step))
  {
    var t, s' := step.t, Next(s, step);
    Moved(s, s', t, s'.pc[t]);
    Counted(s, s', t);
  }

  /** The count of awake consumers follows the queue's count. */
  lemma Counted(s: State, s': State, t: Tid)
    requires t in s.pc && t in s'.pc && s'.pc == s.pc[t := s'.pc[t]]
    ensures |Loopers(s')| == |Loopers(s)| + (if InLoop(s'.pc[t]) then 1 else 0) - (if InLoop(s.pc[t]) then 1 else 0)
    ensures |Unsignalled(s')| == |Unsignalled(s)| + (if s'.pc[t] == PushLinked then 1 else 0)
                                 - (if s.pc[t] == PushLinked then 1 else 0)
  {
    Moved(s, s', t, s'.pc[t]);
    OneIn(Loopers(s), Loopers(s'), t, InLoop(s'.pc[t]));
    OneIn(Unsignalled(s), Unsignalled(s'), t, s'.pc[t] == PushLinked);
  }

  lemma OneIn(a: set<Tid>, b: set<Tid>, t: Tid, inside: bool)
    requires b == if inside then a + {t} else a - {t}
    ensures |b| == |a| + (if inside then 1 else 0) - (if t in a then 1 else 0)
  {
    assert b - {t} == a - {t};
    Without(a, t);
    Without(b, t);
  }

  lemma {:induction false} RunInv(s: State, steps: seq<Step>)
    requires Inv(s) && IsRun(s, steps)
    ensures Inv(After(s, steps))
    decreases |steps|
  {
    if steps != [] {
      StepInv(s, steps[0]);
      RunInv(Next(s, steps[0]), steps[1..]);
    }
  }

  /** No wakeup is lost: in every state that any run reaches, with any number of threads, if a
      consumer sleeps and no producer is between linking and signalling, then there are at
      least as many consumers awake in the loop as elements in the queue. So a queue that is not
      empty never has all of its consumers asleep, and with the mutex free one of the awake ones
      can go and take an element. */
  lemma NoLostWakeup(s: State, steps: seq<Step>)
    requires Init(s) && IsRun(s, steps)
    ensures var now := After(s, steps);
            Sleepers(now) != {} && Unsignalled(now) == {} ==>
              now.count <= |Loopers(now)|
              && (now.count > 0 && now.holder == {} ==>
                    exists t :: t in Loopers(now) && Enabled(now, Acquire(t))
                                && Enabled(Next(now, Acquire(t)), Pop(t)))
  {
    InitInv(s);
    RunInv(s, steps);
    var now := After(s, steps);
    if Sleepers(now) != {} && Unsignalled(now) == {} && now.count > 0 && now.holder == {} {
      assert Loopers(now) != {};
      var t :| t in Loopers(now);
      assert t !in Holders(now);
      assert Enabled(now, Acquire(t)) && Enabled(Next(now, Acquire(t)), Pop(t));
    }
  }

  /** The mutex excludes: no run brings two threads into the critical sections at once. */
  lemma MutualExclusion(s: State, steps: seq<Step>, t: Tid, u: Tid)
    requires Init(s) && IsRun(s, steps)
    requires var now := After(s, steps);
             t in now.pc && u in now.pc && HoldsMutex(now.pc[t]) && HoldsMutex(now.pc[u])
    ensures t == u
  {
    InitInv(s);
    RunInv(s, steps);
    NoOtherHolder(After(s, steps), t);
    NoOtherHolder(After(s, steps), u);
  }

  // ---- what the steps add up to ----

  /** A broadcast leaves nobody asleep. */
  lemma BroadcastWakesAll(s: State, t: Tid)
    requires Enabled(s, Broadcast(t))
    ensures Sleepers(Next(s, Broadcast(t))) == {} && Next(s, Broadcast(t)).pc[t] == CastDone
    ensures forall u :: u in s.pc && u != t ==>
              Next(s, Broadcast(t)).pc[u] == if s.pc[u] == Asleep then Woken else s.pc[u]
  {
  }
}
