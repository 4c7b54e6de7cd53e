/** What the steps of QueueSync add up to over a run: calls, deeds and elements. */
module QueueAccounts {
  import opened Sets
  import opened QueueSync

  function Count(steps: seq<Step>, kind: Step -> bool): nat {
    if steps == [] then 0 else (if kind(steps[0]) then 1 else 0) + Count(steps[1..], kind)
  }

  /** The threads at certain places. */
  function Among(s: State, places: Pc -> bool): set<Tid> {
    set t | t in s.pc && places(s.pc[t])
  }

  lemma AmongMoved(s: State, s': State, t: Tid, places: Pc -> bool)
    requires t in s.pc && t in s'.pc && s'.pc == s.pc[t := s'.pc[t]]
    ensures |Among(s', places)| == |Among(s, places)| + (if places(s'.pc[t]) then 1 else 0)
                                   - (if places(s.pc[t]) then 1 else 0)
  {
    assert Among(s', places) == if places(s'.pc[t]) then Among(s, places) + {t} else Among(s, places) - {t};
    OneIn(Among(s, places), Among(s', places), t, places(s'.pc[t]));
  }

  /** Waking does not count where the sleeping and the woken count alike. */
  lemma AmongWoken(s: State, woken: set<Tid>, places: Pc -> bool)
    requires woken <= Sleepers(s) && places(Asleep) == places(Woken)
    ensures Among(s.(pc := Wake(s.pc, woken)), places) == Among(s, places)
  {
  }

  lemma AmongStep(s: State, step: Step, places: Pc -> bool)
    requires Enabled(s, step) && places(Asleep) == places(Woken)
    ensures var s' := Next(s, step);
            && step.t in s'.pc
            && |Among(s', places)| == |Among(s, places)| + (if places(s'.pc[step.t]) then 1 else 0)
                                      - (if places(s.pc[step.t]) then 1 else 0)
  {
    var s' := Next(s, step);
    if step.Signal? || step.Broadcast? {
      var woken := if step.Signal? then step.woken else Sleepers(s);
      var mid := s.(pc := Wake(s.pc, woken));
      AmongWoken(s, woken, places);
      assert mid.pc[step.t] == s.pc[step.t];
      AmongMoved(mid, s', step.t, places);
    } else {
      AmongMoved(s, s', step.t, places);
    }
  }

  function Num(b: bool): nat { if b then 1 else 0 }

  /** Where each step finds its thread and where it takes it. */
  predicate Moves(p: Pc, step: Step, q: Pc) {
    match step
    case Call(_, entry) => p == Idle && q == entry && (q.PopWanting? || q.PushWanting? || q.CastWanting?)
    case Acquire(_) =>
      || ((p.PopWanting? || p.Woken?) && q.PopChecking?)
      || (p.PushWanting? && q.PushHolding?)
      || (p.CastWanting? && q.CastHolding?)
    case Wait(_) => p.PopChecking? && q.Asleep?
    case Pop(_) => p.PopChecking? && q.Popped?
    case Link(_) => p.PushHolding? && q.PushLinked?
    case Signal(_, _) => p.PushLinked? && q.PushSignalled?
    case Broadcast(_) => p.CastHolding? && q.CastDone?
    case Spurious(_) => p.Asleep? && q.Woken?
    case Release(_) => (p.Popped? || p.PushSignalled? || p.CastDone?) && q.Idle?
  }

  lemma StepMoves(s: State, step: Step)
    requires Enabled(s, step)
    ensures step.t in Next(s, step).pc && Moves(s.pc[step.t], step, Next(s, step).pc[step.t])
  {
  }

  /** A thread comes to one of the places by a call of a kind and leaves them by a deed of a kind, and
      in no other way. */
  ghost predicate Matches(calls: Step -> bool, deeds: Step -> bool, places: Pc -> bool) {
    && places(Asleep) == places(Woken)
    && forall p, step, q :: Moves(p, step, q) ==>
         Num(places(q)) - Num(places(p)) == Num(calls(step)) - Num(deeds(step))
  }

  lemma {:induction false} RunBalance(s: State, steps: seq<Step>, calls: Step -> bool, deeds: Step -> bool,
                                      places: Pc -> bool)
    requires IsRun(s, steps) && Matches(calls, deeds, places)
    ensures Count(steps, calls) + |Among(s, places)| == Count(steps, deeds) + |Among(After(s, steps), places)|
    decreases |steps|
  {
    if steps != [] {
      AmongStep(s, steps[0], places);
      StepMoves(s, steps[0]);
      RunBalance(Next(s, steps[0]), steps[1..], calls, deeds, places);
    }
  }

  function CallsOf(entry: Pc): Step -> bool { (x: Step) => x.Call? && x.entry == entry }

  function Pops(): Step -> bool { (x: Step) => x.Pop? }

  function Links(): Step -> bool { (x: Step) => x.Link? }

  function Signals(): Step -> bool { (x: Step) => x.Signal? }

  function Broadcasts(): Step -> bool { (x: Step) => x.Broadcast? }

  function Deeds(): Step -> bool { (x: Step) => x.Pop? || x.Signal? || x.Broadcast? }

  function Releases(): Step -> bool { (x: Step) => x.Release? }

  function InPop(): Pc -> bool {
    (p: Pc) => p == PopWanting || p == PopChecking || p == Asleep || p == Woken
  }

  function InPush(): Pc -> bool { (p: Pc) => p == PushWanting || p == PushHolding }

  function InSignal(): Pc -> bool { (p: Pc) => p == PushLinked }

  function InCast(): Pc -> bool { (p: Pc) => p == CastWanting || p == CastHolding }

  function AtEnd(): Pc -> bool { (p: Pc) => p == Popped || p == PushSignalled || p == CastDone }

  lemma PopsMatch()
    ensures Matches(CallsOf(PopWanting), Pops(), InPop())
  {
  }

  lemma LinksMatch()
    ensures Matches(CallsOf(PushWanting), Links(), InPush())
  {
  }

  lemma SignalsMatch()
    ensures Matches(Links(), Signals(), InSignal())
  {
  }

  lemma BroadcastsMatch()
    ensures Matches(CallsOf(CastWanting), Broadcasts(), InCast())
  {
  }

  lemma ReleasesMatch()
    ensures Matches(Deeds(), Releases(), AtEnd())
  {
  }

  /** What has been called for by now has been done, but for what is under way. */
  ghost predicate Account(s: State, steps: seq<Step>, calls: Step -> bool, deeds: Step -> bool, places: Pc -> bool)
    requires IsRun(s, steps)
  {
    Count(steps, calls) == Count(steps, deeds) + |Among(After(s, steps), places)|
  }

  lemma FromTheStart(s: State, steps: seq<Step>, calls: Step -> bool, deeds: Step -> bool, places: Pc -> bool)
    requires Init(s) && IsRun(s, steps) && Matches(calls, deeds, places) && !places(Idle)
    ensures Account(s, steps, calls, deeds, places)
  {
    assert Among(s, places) == {};
    RunBalance(s, steps, calls, deeds, places);
  }

  /** In every run every call of a pop takes one element, every call of a push links one and then signals,
      every call of the wake-up broadcasts, and each of them then unlocks, but for those under way. */
  lemma CallsAreAccounted(s: State, steps: seq<Step>)
    requires Init(s) && IsRun(s, steps)
    ensures Account(s, steps, CallsOf(PopWanting), Pops(), InPop())
    ensures Account(s, steps, CallsOf(PushWanting), Links(), InPush())
    ensures Account(s, steps, Links(), Signals(), InSignal())
    ensures Account(s, steps, CallsOf(CastWanting), Broadcasts(), InCast())
    ensures Account(s, steps, Deeds(), Releases(), AtEnd())
  {
    PopsMatch();
    LinksMatch();
    SignalsMatch();
    BroadcastsMatch();
    ReleasesMatch();
    FromTheStart(s, steps, CallsOf(PopWanting), Pops(), InPop());
    FromTheStart(s, steps, CallsOf(PushWanting), Links(), InPush());
    FromTheStart(s, steps, Links(), Signals(), InSignal());
    FromTheStart(s, steps, CallsOf(CastWanting), Broadcasts(), InCast());
    FromTheStart(s, steps, Deeds(), Releases(), AtEnd());
  }

  /** And the count is the number of elements linked less the number taken. */
  lemma {:induction false} ElementsAreCounted(s: State, steps: seq<Step>)
    requires IsRun(s, steps)
    ensures After(s, steps).count == s.count + Count(steps, Links()) - Count(steps, Pops())
    decreases |steps|
  {
    if steps != [] { ElementsAreCounted(Next(s, steps[0]), steps[1..]); }
  }
}
