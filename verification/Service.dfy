/** The service as a whole, with one worker: the job system of Jobs, where each job carries a request
    and the worker's answer is what the handling of that request makes of the store. It is stated
    for any handling first, and then for that of Requests. */
module Service {
  import opened FileStore
  import opened Requests
  import opened Capacity
  import J = Jobs

  /** What a request makes of a store and what it gets, and whether its client is to close after it. */
  datatype Handler<!S, !Q, !R> = Handler(answer: (S, Q) -> (S, R), closes: Q -> bool)

  /** `reqs` runs beside the work list's history; what stands at a pill's place does not matter. */
  datatype State<S, Q, R> = State(sys: J.State, reqs: seq<Q>, store: S, replies: map<J.Job, R>)

  /** A step, and the request that comes with it if it submits one. */
  datatype Step<Q> = Step(step: J.Step, req: Q)

  /** A client thread closes exactly after a request that says so. */
  predicate Enabled<S, Q, R>(s: State<S, Q, R>, h: Handler<S, Q, R>, step: Step<Q>) {
    && J.Enabled(s.sys, step.step)
    && (step.step.Respond? ==>
          var place := s.sys.clients[step.step.c].job.place;
          place < |s.reqs| && (step.step.close <==> h.closes(s.reqs[place])))
  }

  function Next<S, Q, R>(s: State<S, Q, R>, h: Handler<S, Q, R>, step: Step<Q>): State
    requires Enabled(s, h, step)
  {
    var sys := J.Next(s.sys, step.step);
    match step.step
    case Submit(_) => s.(sys := sys, reqs := s.reqs + [step.req])
    case Flood => s.(sys := sys, reqs := s.reqs + [step.req])
    case Answer(w) =>
      var j := s.sys.workers[w].job;
      if j.place < |s.reqs| then
        var (store, reply) := h.answer(s.store, s.reqs[j.place]);
        s.(sys := sys, store := store, replies := s.replies[j := reply])
      else s.(sys := sys)
    case _ => s.(sys := sys)
  }

  /** One worker and an empty system, on any store. */
  predicate Init<S, Q, R>(s: State<S, Q, R>) {
    J.Init(s.sys) && |s.sys.workers| == 1 && s.reqs == [] && s.replies == map[]
  }

  predicate IsRun<S, Q, R>(s: State<S, Q, R>, h: Handler<S, Q, R>, steps: seq<Step<Q>>)
    decreases |steps|
  {
    steps == [] || (Enabled(s, h, steps[0]) && IsRun(Next(s, h, steps[0]), h, steps[1..]))
  }

  function After<S, Q, R>(s: State<S, Q, R>, h: Handler<S, Q, R>, steps: seq<Step<Q>>): State<S, Q, R>
    requires IsRun(s, h, steps)
    decreases |steps|
  {
    if steps == [] then s else After(Next(s, h, steps[0]), h, steps[1..])
  }

  /** The requests of the jobs among the first `n` items of the work list's history, in its order. */
  function Ahead<S, Q, R>(s: State<S, Q, R>, n: nat): seq<Q>
    requires n <= |s.sys.pushed| == |s.reqs|
  {
    if n == 0 then []
    else Ahead(s, n - 1) + if s.sys.pushed[n - 1].Work? then [s.reqs[n - 1]] else []
  }

  /** The reply that a job gets when the requests ahead of it have been handled one after another. */
  function DueReply<S, Q, R>(s: State<S, Q, R>, h: Handler<S, Q, R>, start: S, i: nat): R
    requires i < |s.sys.pushed| == |s.reqs|
  {
    h.answer(AllOf(h, start, Ahead(s, i)), s.reqs[i]).1
  }

  /** The store after a sequence of requests. */
  function AllOf<S, Q, R>(h: Handler<S, Q, R>, start: S, reqs: seq<Q>): S {
    if reqs == [] then start
    else h.answer(AllOf(h, start, reqs[..|reqs| - 1]), reqs[|reqs| - 1]).0
  }

  // ---- the one worker ----

  predicate AnyBusy(sys: J.State) {
    exists w :: w in sys.workers && sys.workers[w].Busy?
  }

  /** How many items the worker is through with: all those taken but a job still in hand. */
  function Through(sys: J.State): int {
    sys.taken - if AnyBusy(sys) then 1 else 0
  }

  /** The job in hand is the one taken last. */
  ghost predicate InHand(sys: J.State, w: J.Worker)
    requires w in sys.workers
  {
    sys.workers[w].Busy? ==> sys.workers[w].job.place + 1 == sys.taken
  }

  ghost predicate OneHand(sys: J.State) {
    |sys.workers| == 1 && 0 <= Through(sys) <= |sys.pushed| && forall w :: w in sys.workers ==> InHand(sys, w)
  }

  lemma OneWorker(sys: J.State, u: J.Worker, v: J.Worker)
    requires |sys.workers| == 1 && u in sys.workers && v in sys.workers
    ensures u == v
  {
    var others := sys.workers.Keys - {u};
    assert |sys.workers.Keys| == 1 && |others| == 0;
    assert v !in others;
  }

  lemma HandOf(sys: J.State, w: J.Worker)
    requires |sys.workers| == 1 && w in sys.workers
    ensures AnyBusy(sys) <==> sys.workers[w].Busy?
  {
    if AnyBusy(sys) {
      var u :| u in sys.workers && sys.workers[u].Busy?;
      OneWorker(sys, u, w);
    }
  }

  /** How far the worker is through: a pill counts when it is taken, and a job when it is answered. */
  lemma WorkerThrough(sys: J.State, step: J.Step)
    requires J.JobInv(sys) && OneHand(sys) && J.Enabled(sys, step)
    requires step.Take? || step.Answer? || step.Register? || step.Quit?
    ensures var next := J.Next(sys, step);
            OneHand(next)
            && Through(next) == Through(sys)
                                + if step.Answer? || (step.Take? && sys.pushed[sys.taken].Pill?) then 1 else 0
  {
    var w, next := step.w, J.Next(sys, step);
    assert next.workers.Keys == sys.workers.Keys;
    assert |next.workers| == |next.workers.Keys| == |sys.workers.Keys|;
    HandOf(sys, w);
    HandOf(next, w);
    assert InHand(sys, w);
    if step.Take? { assert J.PlaceOk(sys, sys.taken); }
    forall u | u in next.workers ensures InHand(next, u) {
      OneWorker(sys, u, w);
    }
  }

  lemma OtherThrough(sys: J.State, step: J.Step)
    requires OneHand(sys) && J.Enabled(sys, step)
    requires !(step.Take? || step.Answer? || step.Register? || step.Quit?)
    ensures var next := J.Next(sys, step);
            OneHand(next) && Through(next) == Through(sys)
  {
    var next := J.Next(sys, step);
    assert next.workers == sys.workers && next.taken == sys.taken && |next.pushed| >= |sys.pushed|;
    assert AnyBusy(next) <==> AnyBusy(sys);
    forall u | u in next.workers ensures InHand(next, u) {
      assert InHand(sys, u);
    }
  }

  // ---- the invariant ----

  ghost predicate Replied<S, Q, R>(s: State<S, Q, R>, h: Handler<S, Q, R>, start: S, j: J.Job)
    requires |s.sys.pushed| == |s.reqs|
  {
    j.place < |s.reqs| && j in s.replies && s.replies[j] == DueReply(s, h, start, j.place)
  }

  ghost predicate Inv<S, Q, R>(s: State<S, Q, R>, h: Handler<S, Q, R>, start: S) {
    && J.JobInv(s.sys) && OneHand(s.sys)
    && |s.reqs| == |s.sys.pushed|
    && s.store == AllOf(h, start, Ahead(s, Through(s.sys)))
    && (forall j :: j in s.sys.answered ==> Replied(s, h, start, j))
  }

  lemma {:induction false} AheadSame<S, Q, R>(s: State<S, Q, R>, s': State<S, Q, R>, n: nat)
    requires n <= |s.sys.pushed| == |s.reqs| <= |s'.sys.pushed| == |s'.reqs|
    requires s.sys.pushed <= s'.sys.pushed && s.reqs <= s'.reqs
    ensures Ahead(s', n) == Ahead(s, n)
  {
    if n > 0 { AheadSame(s, s', n - 1); }
  }

  /** What the history says does not change when it grows. */
  lemma StillReplied<S, Q, R>(s: State<S, Q, R>, s': State<S, Q, R>, h: Handler<S, Q, R>, start: S)
    requires |s.sys.pushed| == |s.reqs| && |s'.sys.pushed| == |s'.reqs|
    requires s.sys.pushed <= s'.sys.pushed && s.reqs <= s'.reqs
    requires forall j :: j in s.replies && j in s.sys.answered ==> j in s'.replies && s'.replies[j] == s.replies[j]
    ensures forall j :: j in s.sys.answered && Replied(s, h, start, j) ==> Replied(s', h, start, j)
  {
    forall j | j in s.sys.answered && Replied(s, h, start, j) ensures Replied(s', h, start, j) {
      AheadSame(s, s', j.place);
    }
  }

  lemma InitInv<S, Q, R>(s: State<S, Q, R>, h: Handler<S, Q, R>)
    requires Init(s)
    ensures Inv(s, h, s.store)
  {
    J.InitJobInv(s.sys);
    assert Ahead(s, 0) == [];
  }

  lemma AnswerInv<S, Q, R>(s: State<S, Q, R>, h: Handler<S, Q, R>, start: S, step: Step<Q>)
    requires Inv(s, h, start) && Enabled(s, h, step) && step.step.Answer?
    ensures Inv(Next(s, h, step), h, start)
  {
    J.StepJobInv(s.sys, step.step);
    WorkerThrough(s.sys, step.step);
    HandOf(s.sys, step.step.w);
    assert J.WorkerOk(s.sys, step.step.w) && InHand(s.sys, step.step.w);
    AnswerKeeps(s, h, start, step.step.w, Next(s, h, step));
  }

  lemma AnswerKeeps<S, Q, R>(s: State<S, Q, R>, h: Handler<S, Q, R>, start: S, w: J.Worker, s': State<S, Q, R>)
    requires Inv(s, h, start) && w in s.sys.workers && s.sys.workers[w].Busy?
    requires J.JobInv(s'.sys) && OneHand(s'.sys)
    requires var j := s.sys.workers[w].job;
             && J.Entered(s.sys, j) && j !in s.sys.answered
             && Through(s.sys) == j.place && Through(s'.sys) == j.place + 1
             && s'.sys.pushed == s.sys.pushed && s'.reqs == s.reqs && s'.sys.answered == s.sys.answered + {j}
             && s'.store == h.answer(s.store, s.reqs[j.place]).0
             && s'.replies == s.replies[j := h.answer(s.store, s.reqs[j.place]).1]
    ensures Inv(s', h, start)
  {
    JobAnswered(s, h, start, w, s');
    StillReplied(s, s', h, start);
  }

  /** The job in hand gets its due, and the store what comes of it. */
  lemma JobAnswered<S, Q, R>(s: State<S, Q, R>, h: Handler<S, Q, R>, start: S, w: J.Worker, s': State<S, Q, R>)
    requires w in s.sys.workers && s.sys.workers[w].Busy? && |s.reqs| == |s.sys.pushed| == |s'.sys.pushed|
    requires var j := s.sys.workers[w].job;
             && J.Entered(s.sys, j)
             && s.store == AllOf(h, start, Ahead(s, j.place))
             && s'.sys.pushed == s.sys.pushed && s'.reqs == s.reqs
             && s'.store == h.answer(s.store, s.reqs[j.place]).0
             && s'.replies == s.replies[j := h.answer(s.store, s.reqs[j.place]).1]
    ensures var j := s.sys.workers[w].job;
            s'.store == AllOf(h, start, Ahead(s', j.place + 1)) && Replied(s', h, start, j)
  {
    var j := s.sys.workers[w].job;
    AheadSame(s, s', j.place);
    AllOfSnoc(h, start, Ahead(s, j.place), s.reqs[j.place]);
  }

  lemma AllOfSnoc<S, Q, R>(h: Handler<S, Q, R>, start: S, reqs: seq<Q>, req: Q)
    ensures AllOf(h, start, reqs + [req]) == h.answer(AllOf(h, start, reqs), req).0
  {
    assert (reqs + [req])[..|reqs|] == reqs;
  }

  lemma OtherInv<S, Q, R>(s: State<S, Q, R>, h: Handler<S, Q, R>, start: S, step: Step<Q>)
    requires Inv(s, h, start) && Enabled(s, h, step) && !step.step.Answer?
    ensures Inv(Next(s, h, step), h, start)
  {
    var s', n := Next(s, h, step), Through(s.sys);
    J.StepJobInv(s.sys, step.step);
    if step.step.Take? || step.step.Register? || step.step.Quit? {
      WorkerThrough(s.sys, step.step);
    } else {
      OtherThrough(s.sys, step.step);
    }
    Grows(s, h, step);
    AheadSame(s, s', n);
    if step.step.Take? && s.sys.pushed[s.sys.taken].Pill? {
      HandOf(s.sys, step.step.w);
      AheadSame(s, s', n + 1);
      assert Ahead(s, n + 1) == Ahead(s, n);
    }
    StillReplied(s, s', h, start);
  }

  lemma Grows<S, Q, R>(s: State<S, Q, R>, h: Handler<S, Q, R>, step: Step<Q>)
    requires Enabled(s, h, step) && !step.step.Answer? && |s.reqs| == |s.sys.pushed|
    ensures var s' := Next(s, h, step);
            s.sys.pushed <= s'.sys.pushed && s.reqs <= s'.reqs && |s'.reqs| == |s'.sys.pushed|
            && s'.store == s.store && s'.replies == s.replies && s'.sys.answered == s.sys.answered
  {
    ListGrows(s.sys, step.step);
  }

  lemma ListGrows(sys: J.State, step: J.Step)
    requires J.Enabled(sys, step) && !step.Answer?
    ensures var next := J.Next(sys, step);
            && next.answered == sys.answered && sys.pushed <= next.pushed
            && |next.pushed| == |sys.pushed| + if step.Submit? || step.Flood? then 1 else 0
  {
  }

  lemma {:induction false} RunInv<S, Q, R>(s: State<S, Q, R>, h: Handler<S, Q, R>, start: S, steps: seq<Step<Q>>)
    requires Inv(s, h, start) && IsRun(s, h, steps)
    ensures Inv(After(s, h, steps), h, start)
    decreases |steps|
  {
    if steps != [] {
      if steps[0].step.Answer? {
        AnswerInv(s, h, start, steps[0]);
      } else {
        OtherInv(s, h, start, steps[0]);
      }
      RunInv(Next(s, h, steps[0]), h, start, steps[1..]);
    }
  }

  /** A job, with the reply that it gets when the requests ahead of it have been handled in the order of
      the work list. */
  ghost predicate InOrder<S, Q, R>(s: State<S, Q, R>, h: Handler<S, Q, R>, start: S, j: J.Job)
    requires |s.reqs| == |s.sys.pushed|
  {
    && j.place < |s.reqs| && s.sys.pushed[j.place] == J.Work(j)
    && j in s.replies && s.replies[j] == DueReply(s, h, start, j.place)
  }

  /** With one worker and any number of clients, in every reachable state the store is what the
      requests of the jobs that the worker is through with make of the first one, in the order of
      the work list; what a client collects is its own job, and what it then responds with is the
      reply to its own request on the store that the requests ahead of it left. */
  lemma ServiceIsSequential<S, Q, R>(s: State<S, Q, R>, h: Handler<S, Q, R>, steps: seq<Step<Q>>, c: J.Client)
    requires Init(s) && IsRun(s, h, steps)
    ensures var now := After(s, h, steps);
            && |now.reqs| == |now.sys.pushed| && 0 <= Through(now.sys) <= |now.reqs|
            && now.store == AllOf(h, s.store, Ahead(now, Through(now.sys)))
            && (J.Enabled(now.sys, J.Collect(c)) ==>
                  var j := now.sys.clients[c].job;
                  && now.sys.responses[c] == [j] && j.client == c && InOrder(now, h, s.store, j)
                  && J.Next(now.sys, J.Collect(c)).clients[c] == J.Responding(j))
            && (c in now.sys.clients && now.sys.clients[c].Responding? ==>
                  var j := now.sys.clients[c].job;
                  && j.client == c && InOrder(now, h, s.store, j)
                  && forall step :: Enabled(now, h, step) && step.step.Respond? && step.step.c == c ==>
                       Next(now, h, step).sys.clients[c] == if h.closes(now.reqs[j.place]) then J.Closed else J.Reading)
  {
    InitInv(s, h);
    RunInv(s, h, s.store, steps);
    var now := After(s, h, steps);
    if c in now.sys.clients && (now.sys.clients[c].Responding? || J.Enabled(now.sys, J.Collect(c))) {
      assert J.ClientOk(now.sys, c);
      var j := now.sys.clients[c].job;
      assert J.Entered(now.sys, j) && Replied(now, h, s.store, j);
    }
  }

  /** The handling of Requests. */
  function HandlerOf(policy: Policy): Handler<Store, Request, Reply> {
    Handler((st: Store, req: Request) => var r := Handle(st, policy, req); (r.store, r),
            (req: Request) => req == Close)
  }

  lemma {:induction false} AllOfIsRun(policy: Policy, start: Store, reqs: seq<Request>)
    ensures AllOf(HandlerOf(policy), start, reqs) == Run(start, policy, reqs)
  {
    if reqs != [] { AllOfIsRun(policy, start, reqs[..|reqs| - 1]); }
  }

  /** So the file server with one worker is sequential: its store is that of the run of the requests
      that the worker is through with, and a client responds with what its request gets in that run,
      and closes exactly after a request to close. */
  lemma ServerIsSequential(s: State<Store, Request, Reply>, policy: Policy, steps: seq<Step<Request>>, c: J.Client)
    requires Init(s) && IsRun(s, HandlerOf(policy), steps)
    ensures var now := After(s, HandlerOf(policy), steps);
            && |now.reqs| == |now.sys.pushed| && 0 <= Through(now.sys) <= |now.reqs|
            && now.store == Run(s.store, policy, Ahead(now, Through(now.sys)))
            && (c in now.sys.clients && now.sys.clients[c].Responding? ==>
                  var j := now.sys.clients[c].job;
                  && j.client == c && j.place < |now.reqs| && now.sys.pushed[j.place] == J.Work(j)
                  && j in now.replies
                  && now.replies[j] == Handle(Run(s.store, policy, Ahead(now, j.place)), policy, now.reqs[j.place])
                  && forall step :: Enabled(now, HandlerOf(policy), step) && step.step.Respond? && step.step.c == c ==>
                       Next(now, HandlerOf(policy), step).sys.clients[c]
                       == if now.reqs[j.place] == Close then J.Closed else J.Reading)
  {
    ServiceIsSequential(s, HandlerOf(policy), steps, c);
    var now := After(s, HandlerOf(policy), steps);
    AllOfIsRun(policy, s.store, Ahead(now, Through(now.sys)));
    if c in now.sys.clients && now.sys.clients[c].Responding? {
      AllOfIsRun(policy, s.store, Ahead(now, now.sys.clients[c].job.place));
    }
  }
}
