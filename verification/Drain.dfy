/** The graceful end: what the worker counter and the pills say to each other in the system of Jobs,
    and what has been served by the time the main thread stops waiting. */
module Drain {
  import opened Jobs
  import opened Sets

  /** A worker's standing towards the counter. */
  datatype Standing = Uncounted | Live | OnTheWayOut | Out

  function StandingOf(p: WorkerPc): Standing {
    match p
    case Unregistered => Uncounted
    case Ready => Live
    case Busy(_) => Live
    case Leaving => OnTheWayOut
    case Gone => Out
  }

  function At(s: State, k: Standing): set<Worker> {
    set w | w in s.workers && StandingOf(s.workers[w]) == k
  }

  function Hands(s: State): set<Worker> {
    set w | w in s.workers && s.workers[w].Busy?
  }

  /** The places of the pills in a stretch of the work list's history. */
  function Pills(items: seq<Item>, lo: nat, hi: nat): set<nat> {
    set i | lo <= i < hi && i < |items| && items[i] == Pill
  }

  function Taken(s: State): set<nat> { Pills(s.pushed, 0, s.taken) }

  function Left(s: State): set<nat> { Pills(s.pushed, s.taken, |s.pushed|) }

  function Sent(s: State): set<nat> { Pills(s.pushed, 0, |s.pushed|) }

  /** All pills lie before `end`; while workers remain to be ended, so does the front of the list. */
  ghost predicate EndOk(s: State, end: nat) {
    && end <= |s.pushed|
    && (forall i :: i in Sent(s) ==> i < end)
    && (|Sent(s)| == |s.workers| ==> s.taken <= end)
  }

  ghost predicate PillInv(s: State) {
    && s.taken <= |s.pushed|
    && s.counter == |At(s, Live)| + |At(s, OnTheWayOut)|
    && |Taken(s)| == |At(s, OnTheWayOut)| + |At(s, Out)|
    && match s.main
       case Serving => Sent(s) == {}
       case Flooding(sent, end) => |Sent(s)| == sent <= |s.workers| && EndOk(s, end)
       case Draining(end) => |Sent(s)| == |s.workers| && EndOk(s, end)
       case Ended => |Sent(s)| == |s.workers| && s.counter == 0
  }

  // ---- counting ----

  function One(b: bool): nat { if b then 1 else 0 }

  lemma StandingMoved(s: State, s': State, w: Worker, k: Standing)
    requires w in s.workers && w in s'.workers && s'.workers == s.workers[w := s'.workers[w]]
    ensures |At(s', k)| == |At(s, k)| + One(StandingOf(s'.workers[w]) == k) - One(StandingOf(s.workers[w]) == k)
  {
    assert At(s', k) - {w} == At(s, k) - {w};
    Without(At(s, k), w);
    Without(At(s', k), w);
  }

  lemma HandsMoved(s: State, s': State, w: Worker)
    requires w in s.workers && w in s'.workers && s'.workers == s.workers[w := s'.workers[w]]
    ensures |Hands(s')| == |Hands(s)| + One(s'.workers[w].Busy?) - One(s.workers[w].Busy?)
  {
    assert Hands(s') - {w} == Hands(s) - {w};
    Without(Hands(s), w);
    Without(Hands(s'), w);
  }

  lemma AllStandings(s: State)
    ensures |s.workers| == |At(s, Uncounted)| + |At(s, Live)| + |At(s, OnTheWayOut)| + |At(s, Out)|
  {
    var a, b := At(s, Uncounted) + At(s, Live), At(s, OnTheWayOut) + At(s, Out);
    assert At(s, Uncounted) !! At(s, Live) && At(s, OnTheWayOut) !! At(s, Out);
    assert a !! b && s.workers.Keys == a + b by {
      assert forall w :: w in s.workers ==> w in a || w in b;
    }
    assert |s.workers.Keys| == |a| + |b|;
    assert |s.workers| == |s.workers.Keys|;
  }

  lemma TakenAndLeft(s: State)
    requires s.taken <= |s.pushed|
    ensures |Sent(s)| == |Taken(s)| + |Left(s)|
  {
    assert Sent(s) == Taken(s) + Left(s) && Taken(s) !! Left(s);
  }

  /** Once all pills are out, the workers that have yet to meet theirs are as many as the pills left. */
  lemma PillsForLive(s: State)
    requires PillInv(s) && |Sent(s)| == |s.workers|
    ensures |Left(s)| == |At(s, Live)| + |At(s, Uncounted)|
  {
    AllStandings(s);
    TakenAndLeft(s);
  }

  // ---- the invariant over steps ----

  lemma InitPillInv(s: State)
    requires Init(s)
    ensures PillInv(s)
  {
    assert At(s, Live) == {} && At(s, OnTheWayOut) == {} && At(s, Out) == {};
    assert Taken(s) == {} && Sent(s) == {};
  }

  lemma AppendPills(s: State, item: Item)
    requires s.taken <= |s.pushed|
    ensures Pills(s.pushed + [item], 0, s.taken) == Taken(s)
    ensures Pills(s.pushed + [item], 0, |s.pushed| + 1) == if item == Pill then Sent(s) + {|s.pushed|} else Sent(s)
  {
  }

  lemma SameWorkers(s: State, s': State)
    requires s'.workers == s.workers
    ensures forall k :: At(s', k) == At(s, k)
  {
  }

  lemma PushInv(s: State, step: Step)
    requires PillInv(s) && Enabled(s, step) && (step.Submit? || step.Flood?)
    ensures PillInv(Next(s, step))
  {
    var s' := Next(s, step);
    AppendPills(s, s'.pushed[|s.pushed|]);
    SameWorkers(s, s');
    if step.Flood? { Without(Sent(s'), |s.pushed|); assert Sent(s') - {|s.pushed|} == Sent(s); }
  }

  lemma TakePillInv(s: State, w: Worker)
    requires PillInv(s) && Enabled(s, Take(w))
    ensures PillInv(Next(s, Take(w)))
  {
    var s' := Next(s, Take(w));
    StandingMoved(s, s', w, Live);
    StandingMoved(s, s', w, OnTheWayOut);
    StandingMoved(s, s', w, Out);
    assert Sent(s') == Sent(s);
    if s.pushed[s.taken] == Pill {
      assert Taken(s') == Taken(s) + {s.taken};
    } else {
      assert Taken(s') == Taken(s);
    }
    if |Sent(s)| == |s.workers| { LiveSeesPill(s, w); }
  }

  /** A worker that is still in its loop after the flood has a pill ahead of it. */
  lemma LiveSeesPill(s: State, w: Worker)
    requires PillInv(s) && |Sent(s)| == |s.workers| && w in At(s, Live)
    ensures Left(s) != {} && s.taken < |s.pushed|
    ensures forall end :: EndOk(s, end) ==> s.taken < end
  {
    PillsForLive(s);
    Without(At(s, Live), w);
    assert |Left(s)| > 0;
    var i :| i in Left(s);
    assert i in Sent(s);
  }

  lemma WorkerPillInv(s: State, step: Step)
    requires PillInv(s) && Enabled(s, step) && (step.Register? || step.Answer?)
    ensures PillInv(Next(s, step))
  {
    var w, s' := step.w, Next(s, step);
    StandingMoved(s, s', w, Live);
    StandingMoved(s, s', w, OnTheWayOut);
    StandingMoved(s, s', w, Out);
    assert s'.workers.Keys == s.workers.Keys;
    assert |s'.workers| == |s'.workers.Keys| == |s.workers.Keys| == |s.workers|;
  }

  lemma QuitPillInv(s: State, w: Worker)
    requires PillInv(s) && Enabled(s, Quit(w))
    ensures PillInv(Next(s, Quit(w)))
  {
    var s' := Next(s, Quit(w));
    StandingMoved(s, s', w, Live);
    StandingMoved(s, s', w, OnTheWayOut);
    StandingMoved(s, s', w, Out);
    Without(At(s, OnTheWayOut), w);
    assert s'.workers.Keys == s.workers.Keys;
    assert |s'.workers| == |s'.workers.Keys| == |s.workers.Keys| == |s.workers|;
  }

  lemma StepPillInv(s: State, step: Step)
    requires PillInv(s) && Enabled(s, step)
    ensures PillInv(Next(s, step))
  {
    match step
    case Submit(_) => PushInv(s, step);
    case Flood => PushInv(s, step);
    case Take(w) => TakePillInv(s, w);
    case Register(_) => WorkerPillInv(s, step);
    case Answer(_) => WorkerPillInv(s, step);
    case Quit(w) => QuitPillInv(s, w);
    case _ => SameWorkers(s, Next(s, step));
  }

  lemma {:induction false} RunPillInv(s: State, steps: seq<Step>)
    requires PillInv(s) && IsRun(s, steps)
    ensures PillInv(After(s, steps))
    decreases |steps|
  {
    if steps != [] {
      StepPillInv(s, steps[0]);
      RunPillInv(Next(s, steps[0]), steps[1..]);
    }
  }

  // ---- the theorems ----

  /** While the main thread waits, the workers still in their loop are exactly as many as the pills
      still in the work list, less the workers that have not yet registered. */
  lemma LiveWorkersArePills(s: State, steps: seq<Step>)
    requires Init(s) && IsRun(s, steps) && After(s, steps).main.Draining?
    ensures var now := After(s, steps);
            |Left(now)| == |At(now, Live)| + |At(now, Uncounted)|
            && now.counter == |At(now, Live)| + |At(now, OnTheWayOut)|
  {
    InitPillInv(s);
    RunPillInv(s, steps);
    PillsForLive(After(s, steps));
  }

  /** Some pill is behind place `i` of the work list's history. */
  predicate Ahead(s: State, i: nat) {
    exists p :: i < p < |s.pushed| && s.pushed[p] == Pill
  }

  predicate Served(s: State, i: nat)
    requires i < |s.pushed|
  {
    s.pushed[i].Work? ==> s.pushed[i].job in s.answered
  }

  /** When the counter is zero, the answered jobs are exactly those taken. */
  lemma AnsweredAreTaken(s: State, i: nat)
    requires PillInv(s) && JobInv(s) && s.main.Draining? && s.counter == 0
    requires i < |s.pushed| && s.pushed[i].Work?
    ensures s.pushed[i].job in s.answered <==> i < s.taken
  {
    assert At(s, Live) == {};
    assert PlaceOk(s, i);
    assert forall w :: w in s.workers && InHandsOf(s, w, s.pushed[i].job) ==> w in At(s, Live);
  }

  /** When the main thread may stop waiting: the jobs answered are exactly those taken; so every job
      ahead of the last pill is answered iff the work list holds none of them any more; and the
      pills have all been taken iff every worker had registered, in which case that is so. */
  lemma GracefulDrain(s: State, steps: seq<Step>)
    requires Init(s) && IsRun(s, steps) && Enabled(After(s, steps), Finish)
    ensures var now := After(s, steps);
            && (forall i :: 0 <= i < |now.pushed| && now.pushed[i].Work? ==>
                  (now.pushed[i].job in now.answered <==> i < now.taken))
            && ((forall i :: 0 <= i < |now.pushed| && Ahead(now, i) ==> Served(now, i))
                <==> (forall i :: now.taken <= i < |now.pushed| && Ahead(now, i) ==> now.pushed[i] == Pill))
            && (Left(now) == {} <==> At(now, Uncounted) == {})
            && (At(now, Uncounted) == {} ==> forall i :: 0 <= i < |now.pushed| && Ahead(now, i) ==> Served(now, i))
  {
    InitPillInv(s);
    RunPillInv(s, steps);
    InitJobInv(s);
    RunJobInv(s, steps);
    var now := After(s, steps);
    PillsForLive(now);
    assert At(now, Live) == {};
    forall i | 0 <= i < |now.pushed| && now.pushed[i].Work?
      ensures now.pushed[i].job in now.answered <==> i < now.taken
    {
      AnsweredAreTaken(now, i);
    }
    if forall i :: 0 <= i < |now.pushed| && Ahead(now, i) ==> Served(now, i) {
      forall i | now.taken <= i < |now.pushed| && Ahead(now, i) ensures now.pushed[i] == Pill {
        assert Served(now, i);
      }
    }
    if At(now, Uncounted) == {} {
      forall i | 0 <= i < |now.pushed| && Ahead(now, i) ensures Served(now, i) {
        var p :| i < p < |now.pushed| && now.pushed[p] == Pill;
        assert p !in Left(now);
      }
    }
  }

  /** The condition is needed: on a SIGHUP that comes before the only worker has registered, the
      counter is zero at once and the server ends with a job submitted before it still waiting. */
  lemma EndsEarly(s: State)
    requires Init(s) && s.workers == map[0 := Unregistered]
    ensures var steps := [Connect(0), Submit(0), Hangup, Flood, EndFlood];
            IsRun(s, steps)
            && var now := After(s, steps);
               Enabled(now, Finish) && Left(now) != {}
               && now.pushed == [Work(Job(0, 0)), Pill] && Job(0, 0) !in now.answered
  {
    var s1 := Next(s, Connect(0));
    var s2 := Next(s1, Submit(0));
    FloodedEarly(s2);
    var rest := [Hangup, Flood, EndFlood];
    OneMore(s1, Submit(0), rest);
    OneMore(s, Connect(0), [Submit(0)] + rest);
    assert [Connect(0)] + ([Submit(0)] + rest) == [Connect(0), Submit(0), Hangup, Flood, EndFlood];
  }

  lemma FloodedEarly(s: State)
    requires s.main == Serving && s.counter == 0 && s.workers == map[0 := Unregistered]
    requires s.pushed == [Work(Job(0, 0))] && s.taken == 0 && s.answered == {}
    ensures var steps := [Hangup, Flood, EndFlood];
            IsRun(s, steps)
            && var now := After(s, steps);
               Enabled(now, Finish) && Left(now) != {}
               && now.pushed == [Work(Job(0, 0)), Pill] && Job(0, 0) !in now.answered
  {
    var s1 := Next(s, Hangup);
    var s2 := Next(s1, Flood);
    var s3 := Next(s2, EndFlood);
    OneMore(s2, EndFlood, []);
    OneMore(s1, Flood, [EndFlood]);
    OneMore(s, Hangup, [Flood, EndFlood]);
    assert [EndFlood] + [] == [EndFlood] && [Flood] + [EndFlood] == [Flood, EndFlood]
           && [Hangup] + [Flood, EndFlood] == [Hangup, Flood, EndFlood];
    assert 1 in Left(s3);
  }

  lemma OneMore(s: State, step: Step, rest: seq<Step>)
    requires Enabled(s, step) && IsRun(Next(s, step), rest)
    ensures IsRun(s, [step] + rest) && After(s, [step] + rest) == After(Next(s, step), rest)
  {
    assert ([step] + rest)[1..] == rest;
  }

  /** How much the workers have left to do before the counter is zero. */
  function Remaining(s: State): int
    requires s.main.Draining?
  {
    2 * (s.main.end - s.taken) + |Hands(s)| + |At(s, OnTheWayOut)|
  }

  predicate WorkerStep(step: Step) {
    step.Take? || step.Answer? || step.Quit?
  }

  /** The wait comes to an end: as long as the counter is not zero, every worker step brings the
      remaining work down, no other step changes it, it is never negative, and some worker can step. */
  lemma DrainEnds(s: State, steps: seq<Step>)
    requires Init(s) && IsRun(s, steps) && After(s, steps).main.Draining?
    ensures var now := After(s, steps);
            Remaining(now) >= 0
            && (forall step :: Enabled(now, step) && step != Finish ==>
                  Next(now, step).main == now.main
                  && (if WorkerStep(step) then Remaining(Next(now, step)) < Remaining(now)
                      else Remaining(Next(now, step)) == Remaining(now)))
            && (now.counter != 0 ==> exists step :: WorkerStep(step) && Enabled(now, step))
  {
    InitPillInv(s);
    RunPillInv(s, steps);
    InitJobInv(s);
    RunJobInv(s, steps);
    var now := After(s, steps);
    forall step | Enabled(now, step) && step != Finish
      ensures Next(now, step).main == now.main
              && (if WorkerStep(step) then Remaining(Next(now, step)) < Remaining(now)
                  else Remaining(Next(now, step)) == Remaining(now))
    {
      RemainingStep(now, step);
    }
    if now.counter != 0 { SomeWorkerSteps(now); }
  }

  function WorkerSteps(steps: seq<Step>): nat {
    if steps == [] then 0 else (if WorkerStep(steps[0]) then 1 else 0) + WorkerSteps(steps[1..])
  }

  /** So a run that goes on from where the main thread waits holds no more worker steps than remain. */
  lemma DrainBounded(s: State, steps: seq<Step>, more: seq<Step>)
    requires Init(s) && IsRun(s, steps) && After(s, steps).main.Draining? && IsRun(After(s, steps), more)
    ensures WorkerSteps(more) <= Remaining(After(s, steps))
  {
    InitPillInv(s);
    RunPillInv(s, steps);
    BoundedFrom(After(s, steps), more);
  }

  lemma {:induction false} BoundedFrom(s: State, more: seq<Step>)
    requires PillInv(s) && s.main.Draining? && IsRun(s, more)
    ensures WorkerSteps(more) <= Remaining(s)
    decreases |more|
  {
    if more == [] {
    } else if more[0] == Finish {
      assert more[1..] == [];
    } else {
      StepPillInv(s, more[0]);
      RemainingStep(s, more[0]);
      BoundedFrom(Next(s, more[0]), more[1..]);
    }
  }

  lemma RemainingStep(s: State, step: Step)
    requires PillInv(s) && s.main.Draining? && Enabled(s, step) && step != Finish
    ensures Next(s, step).main == s.main
    ensures if WorkerStep(step) then Remaining(Next(s, step)) < Remaining(s)
            else Remaining(Next(s, step)) == Remaining(s)
  {
    var s' := Next(s, step);
    if WorkerStep(step) || step.Register? {
      StandingMoved(s, s', step.w, OnTheWayOut);
      HandsMoved(s, s', step.w);
    } else {
      SameWorkers(s, s');
      assert Hands(s') == Hands(s);
    }
  }

  lemma SomeWorkerSteps(s: State)
    requires PillInv(s) && JobInv(s) && s.main.Draining? && s.counter != 0
    ensures exists step :: WorkerStep(step) && Enabled(s, step)
  {
    if At(s, OnTheWayOut) != {} {
      var w :| w in At(s, OnTheWayOut);
      assert Enabled(s, Quit(w));
    } else {
      assert At(s, Live) != {};
      var w :| w in At(s, Live);
      if s.workers[w].Busy? {
        AnswerFinds(s, w);
        assert Enabled(s, Answer(w));
      } else {
        LiveSeesPill(s, w);
        assert Enabled(s, Take(w));
      }
    }
  }
}
