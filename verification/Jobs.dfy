/** The life of a job and the end of the server: any number of client threads, workers and jobs,
    and the main thread that floods the work list with one pill per worker on SIGHUP and then
    waits until the worker counter is zero. A push or a pop of a queue is one step. */
module Jobs {

  type Client = nat
  type Worker = nat

  /** A job is told apart from all others by the place at which it entered the work list. */
  datatype Job = Job(client: Client, place: nat)

  datatype Item = Work(job: Job) | Pill

  datatype ClientPc =
    | Reading                // receiving a request from the connection
    | Waiting(job: Job)      // submitted, blocked on its own response queue
    | Responding(job: Job)   // sending status and error on the connection
    | Closed

  datatype WorkerPc =
    | Unregistered           // created, not yet counted
    | Ready
    | Busy(job: Job)         // serving, on the job's connection
    | Leaving                // took a pill, not yet uncounted
    | Gone

  datatype MainPc =
    | Serving
    | Flooding(sent: nat, end: nat)
    | Draining(end: nat)
    | Ended

  /** The work list is `pushed[taken..]`: the queue is first in, first out. `pushed` and
      `answered` are histories; `end` is where the last pill so far was put. */
  datatype State = State(
    pushed: seq<Item>,
    taken: nat,
    clients: map<Client, ClientPc>,
    responses: map<Client, seq<Job>>,
    workers: map<Worker, WorkerPc>,
    counter: nat,
    answered: set<Job>,
    main: MainPc)

  datatype Step =
    | Connect(c: Client)
    | Submit(c: Client)
    | Collect(c: Client)
    | Respond(c: Client, close: bool)
    | Register(w: Worker)
    | Take(w: Worker)
    | Answer(w: Worker)
    | Quit(w: Worker)
    | Hangup
    | Flood
    | EndFlood
    | Finish

  predicate Enabled(s: State, step: Step) {
    s.main != Ended &&
    match step
    case Connect(c) => s.main == Serving && c !in s.clients
    case Submit(c) => c in s.clients && s.clients[c] == Reading
    case Collect(c) => c in s.clients && s.clients[c].Waiting? && c in s.responses && s.responses[c] != []
    case Respond(c, _) => c in s.clients && s.clients[c].Responding?
    case Register(w) => w in s.workers && s.workers[w] == Unregistered
    case Take(w) => w in s.workers && s.workers[w] == Ready && s.taken < |s.pushed|
    case Answer(w) => w in s.workers && s.workers[w].Busy? && s.workers[w].job.client in s.responses
    case Quit(w) => w in s.workers && s.workers[w] == Leaving
    case Hangup => s.main == Serving
    case Flood => s.main.Flooding? && s.main.sent < |s.workers|
    case EndFlood => s.main.Flooding? && s.main.sent >= |s.workers|
    case Finish => s.main.Draining? && s.counter == 0
  }

  function Next(s: State, step: Step): State
    requires Enabled(s, step)
  {
    match step
    case Connect(c) => s.(clients := s.clients[c := Reading], responses := s.responses[c := []])
    case Submit(c) =>
      var j := Job(c, |s.pushed|);
      s.(pushed := s.pushed + [Work(j)], clients := s.clients[c := Waiting(j)])
    case Collect(c) =>
      s.(clients := s.clients[c := Responding(s.responses[c][0])], responses := s.responses[c := s.responses[c][1..]])
    case Respond(c, close) => s.(clients := s.clients[c := if close then Closed else Reading])
    case Register(w) => s.(workers := s.workers[w := Ready], counter := s.counter + 1)
    case Take(w) =>
      var item := s.pushed[s.taken];
      s.(taken := s.taken + 1, workers := s.workers[w := if item.Work? then Busy(item.job) else Leaving])
    case Answer(w) =>
      var j := s.workers[w].job;
      s.(workers := s.workers[w := Ready],
         responses := s.responses[j.client := s.responses[j.client] + [j]],
         answered := s.answered + {j})
    case Quit(w) =>
      s.(workers := s.workers[w := Gone], counter := if s.counter == 0 then 0 else s.counter - 1)
    case Hangup => s.(main := Flooding(0, |s.pushed|))
    case Flood => s.(pushed := s.pushed + [Pill], main := Flooding(s.main.sent + 1, |s.pushed| + 1))
    case EndFlood => s.(main := Draining(s.main.end))
    case Finish => s.(main := Ended)
  }

  predicate Init(s: State) {
    && s.pushed == [] && s.taken == 0 && s.clients == map[] && s.responses == map[]
    && s.counter == 0 && s.answered == {} && s.main == Serving
    && forall w :: w in s.workers ==> s.workers[w] == Unregistered
  }

  predicate IsRun(s: State, steps: seq<Step>)
    decreases |steps|
  {
    steps == [] || (Enabled(s, steps[0]) && IsRun(Next(s, steps[0]), steps[1..]))
  }

  function After(s: State, steps: seq<Step>): State
    requires IsRun(s, steps)
    decreases |steps|
  {
    if steps == [] then s else After(Next(s, steps[0]), steps[1..])
  }

  // ---- conservation of jobs ----

  /** Job `j` is at its place in the history of the work list. */
  predicate Entered(s: State, j: Job) {
    j.place < |s.pushed| && s.pushed[j.place] == Work(j)
  }

  predicate InWorkList(s: State, j: Job) {
    Entered(s, j) && s.taken <= j.place
  }

  predicate InHandsOf(s: State, w: Worker, j: Job) {
    w in s.workers && s.workers[w] == Busy(j)
  }

  predicate WaitedFor(s: State, j: Job) {
    j.client in s.clients && s.clients[j.client] == Waiting(j)
  }

  /** What holds of the item at place `i` of the history. */
  ghost predicate PlaceOk(s: State, i: nat)
    requires i < |s.pushed|
  {
    s.pushed[i].Work? ==>
      var j := s.pushed[i].job;
      j.place == i
      && (i >= s.taken ==> j !in s.answered)
      && (i < s.taken && j !in s.answered ==> exists w :: InHandsOf(s, w, j))
      && (j !in s.answered ==> WaitedFor(s, j))
  }

  ghost predicate WorkerOk(s: State, w: Worker)
    requires w in s.workers
  {
    s.workers[w].Busy? ==>
      var j := s.workers[w].job;
      Entered(s, j) && j.place < s.taken && j !in s.answered
      && forall u :: InHandsOf(s, u, j) ==> u == w
  }

  /** A client's response queue holds its answered job while it waits for it, and is empty otherwise;
      what it responds with is a job of its own that has been answered. */
  ghost predicate ClientOk(s: State, c: Client)
    requires c in s.clients
  {
    c in s.responses &&
    if s.clients[c].Waiting? then
      var j := s.clients[c].job;
      j.client == c && Entered(s, j) && s.responses[c] == (if j in s.answered then [j] else [])
    else
      && s.responses[c] == []
      && (s.clients[c].Responding? ==>
            var j := s.clients[c].job; j.client == c && Entered(s, j) && j in s.answered)
  }

  ghost predicate JobInv(s: State) {
    && s.taken <= |s.pushed|
    && s.responses.Keys == s.clients.Keys
    && (forall i :: 0 <= i < |s.pushed| ==> PlaceOk(s, i))
    && (forall w :: w in s.workers ==> WorkerOk(s, w))
    && (forall c :: c in s.clients ==> ClientOk(s, c))
    && (forall j :: j in s.answered ==> Entered(s, j))
  }

  lemma InitJobInv(s: State)
    requires Init(s)
    ensures JobInv(s)
  {
  }

  lemma SubmitInv(s: State, c: Client)
    requires JobInv(s) && Enabled(s, Submit(c))
    ensures JobInv(Next(s, Submit(c)))
  {
    var s' := Next(s, Submit(c));
    var j := Job(c, |s.pushed|);
    assert j !in s.answered && ClientOk(s, c);
    forall i | 0 <= i < |s'.pushed| ensures PlaceOk(s', i) {
      if i < |s.pushed| {
        assert PlaceOk(s, i);
        if s.pushed[i].Work? && i < s.taken && s.pushed[i].job !in s.answered {
          var w :| InHandsOf(s, w, s.pushed[i].job);
          assert InHandsOf(s', w, s'.pushed[i].job);
        }
      }
    }
    forall w | w in s'.workers ensures WorkerOk(s', w) {
      assert WorkerOk(s, w);
      forall u | s'.workers[w].Busy? && InHandsOf(s', u, s'.workers[w].job) ensures u == w {
        assert InHandsOf(s, u, s.workers[w].job);
      }
    }
    forall d | d in s'.clients ensures ClientOk(s', d) {
      assert ClientOk(s, d);
    }
  }

  lemma TakeInv(s: State, w: Worker)
    requires JobInv(s) && Enabled(s, Take(w))
    ensures JobInv(Next(s, Take(w)))
  {
    var s' := Next(s, Take(w));
    assert PlaceOk(s, s.taken) && WorkerOk(s, w);
    forall i | 0 <= i < |s'.pushed| ensures PlaceOk(s', i) {
      assert PlaceOk(s, i);
      if s.pushed[i].Work? && i < s'.taken && s.pushed[i].job !in s.answered {
        if i == s.taken {
          assert InHandsOf(s', w, s.pushed[i].job);
        } else {
          var u :| InHandsOf(s, u, s.pushed[i].job);
          assert InHandsOf(s', u, s.pushed[i].job);
        }
      }
    }
    forall v | v in s'.workers ensures WorkerOk(s', v) {
      assert WorkerOk(s, v);
      forall u | s'.workers[v].Busy? && InHandsOf(s', u, s'.workers[v].job) ensures u == v {
        assert u in s.workers && WorkerOk(s, u);
        assert u != w && v != w ==> InHandsOf(s, u, s.workers[v].job);
      }
    }
    forall d | d in s'.clients ensures ClientOk(s', d) {
      assert ClientOk(s, d);
    }
  }

  /** An answered job's client is still waiting for it, with nothing in its response queue. */
  lemma AnswerFinds(s: State, w: Worker)
    requires JobInv(s) && w in s.workers && s.workers[w].Busy?
    ensures var j := s.workers[w].job;
            WaitedFor(s, j) && j.client in s.responses && s.responses[j.client] == []
  {
    var j := s.workers[w].job;
    assert WorkerOk(s, w);
    assert PlaceOk(s, j.place);
    assert ClientOk(s, j.client);
  }

  lemma AnswerInv(s: State, w: Worker)
    requires JobInv(s) && Enabled(s, Answer(w))
    ensures JobInv(Next(s, Answer(w)))
  {
    var s', j := Next(s, Answer(w)), s.workers[w].job;
    AnswerFinds(s, w);
    assert WorkerOk(s, w);
    forall i | 0 <= i < |s'.pushed| ensures PlaceOk(s', i) {
      assert PlaceOk(s, i);
      if s.pushed[i].Work? && i < s.taken && s.pushed[i].job !in s'.answered {
        var u :| InHandsOf(s, u, s.pushed[i].job);
        assert InHandsOf(s', u, s.pushed[i].job);
      }
    }
    forall v | v in s'.workers ensures WorkerOk(s', v) {
      assert WorkerOk(s, v);
      assert v != w && s.workers[v].Busy? ==> !InHandsOf(s, v, j);
      forall u | s'.workers[v].Busy? && InHandsOf(s', u, s'.workers[v].job) ensures u == v {
        assert InHandsOf(s, u, s.workers[v].job);
      }
    }
    forall d | d in s'.clients ensures ClientOk(s', d) {
      assert ClientOk(s, d);
    }
  }

  /** Steps that touch neither the work list nor the answers, and no busy worker. */
  lemma QuietInv(s: State, s': State)
    requires JobInv(s)
    requires s'.pushed == s.pushed && s'.taken == s.taken && s'.answered == s.answered
    requires forall w, j :: InHandsOf(s', w, j) <==> InHandsOf(s, w, j)
    requires s'.responses.Keys == s'.clients.Keys
    requires forall j :: WaitedFor(s, j) && j !in s.answered ==> WaitedFor(s', j)
    requires forall c :: c in s'.clients ==> ClientOk(s', c)
    ensures JobInv(s')
  {
    forall i | 0 <= i < |s'.pushed| ensures PlaceOk(s', i) {
      assert PlaceOk(s, i);
      if s.pushed[i].Work? && i < s.taken && s.pushed[i].job !in s.answered {
        var w :| InHandsOf(s, w, s.pushed[i].job);
        assert InHandsOf(s', w, s.pushed[i].job);
      }
    }
    forall w | w in s'.workers ensures WorkerOk(s', w) {
      if s'.workers[w].Busy? {
        assert InHandsOf(s', w, s'.workers[w].job);
        assert InHandsOf(s, w, s'.workers[w].job) && WorkerOk(s, w);
      }
    }
  }

  lemma FloodInv(s: State)
    requires JobInv(s) && Enabled(s, Flood)
    ensures JobInv(Next(s, Flood))
  {
    var s' := Next(s, Flood);
    forall i | 0 <= i < |s'.pushed| ensures PlaceOk(s', i) {
      if i < |s.pushed| {
        assert PlaceOk(s, i);
        if s.pushed[i].Work? && i < s.taken && s.pushed[i].job !in s.answered {
          var w :| InHandsOf(s, w, s.pushed[i].job);
          assert InHandsOf(s', w, s'.pushed[i].job);
        }
      }
    }
    forall w | w in s'.workers ensures WorkerOk(s', w) {
      assert WorkerOk(s, w);
      forall u | s'.workers[w].Busy? && InHandsOf(s', u, s'.workers[w].job) ensures u == w {
        assert InHandsOf(s, u, s.workers[w].job);
      }
    }
    forall d | d in s'.clients ensures ClientOk(s', d) {
      assert ClientOk(s, d);
    }
  }

  lemma ClientQuietInv(s: State, step: Step)
    requires JobInv(s) && Enabled(s, step) && (step.Connect? || step.Collect? || step.Respond?)
    ensures JobInv(Next(s, step))
  {
    var s' := Next(s, step);
    assert step.c in s.clients ==> ClientOk(s, step.c);
    forall c | c in s'.clients ensures ClientOk(s', c) {
      assert c in s.clients ==> ClientOk(s, c);
    }
    QuietInv(s, s');
  }

  lemma OtherQuietInv(s: State, step: Step)
    requires JobInv(s) && Enabled(s, step)
    requires step.Register? || step.Quit? || step.Hangup? || step.EndFlood? || step.Finish?
    ensures JobInv(Next(s, step))
  {
    var s' := Next(s, step);
    forall c | c in s'.clients ensures ClientOk(s', c) {
      assert ClientOk(s, c);
    }
    QuietInv(s, s');
  }

  lemma StepJobInv(s: State, step: Step)
    requires JobInv(s) && Enabled(s, step)
    ensures JobInv(Next(s, step))
  {
    match step
    case Submit(c) => SubmitInv(s, c);
    case Take(w) => TakeInv(s, w);
    case Answer(w) => AnswerInv(s, w);
    case Flood => FloodInv(s);
    case Connect(_) => ClientQuietInv(s, step);
    case Collect(_) => ClientQuietInv(s, step);
    case Respond(_, _) => ClientQuietInv(s, step);
    case _ => OtherQuietInv(s, step);
  }

  lemma {:induction false} RunJobInv(s: State, steps: seq<Step>)
    requires JobInv(s) && IsRun(s, steps)
    ensures JobInv(After(s, steps))
    decreases |steps|
  {
    if steps != [] {
      StepJobInv(s, steps[0]);
      RunJobInv(Next(s, steps[0]), steps[1..]);
    }
  }

  predicate InResponses(s: State, j: Job) {
    j.client in s.responses && j in s.responses[j.client]
  }

  ghost predicate InSomeHands(s: State, j: Job) {
    exists w :: InHandsOf(s, w, j)
  }

  /** In every reachable state a waiting client's job is in exactly one place, and only once there:
      the work list, one worker's hands, or the client's response queue, which holds nothing else.
      So what the client thread takes from that queue is the job it submitted. */
  lemma JobConservation(s: State, steps: seq<Step>, c: Client)
    requires Init(s) && IsRun(s, steps)
    requires c in After(s, steps).clients && After(s, steps).clients[c].Waiting?
    ensures var now := After(s, steps);
            var j := now.clients[c].job;
            && j.client == c
            && (InWorkList(now, j) || InSomeHands(now, j) || InResponses(now, j))
            && !(InWorkList(now, j) && InSomeHands(now, j))
            && !(InWorkList(now, j) && InResponses(now, j))
            && !(InSomeHands(now, j) && InResponses(now, j))
            && (forall i :: 0 <= i < |now.pushed| && now.pushed[i] == Work(j) ==> i == j.place)
            && (forall u, v :: InHandsOf(now, u, j) && InHandsOf(now, v, j) ==> u == v)
            && (Enabled(now, Collect(c)) ==> now.responses[c] == [j])
  {
    InitJobInv(s);
    RunJobInv(s, steps);
    var now := After(s, steps);
    var j := now.clients[c].job;
    assert ClientOk(now, c) && PlaceOk(now, j.place);
    forall i | 0 <= i < |now.pushed| && now.pushed[i] == Work(j) ensures i == j.place {
      assert PlaceOk(now, i);
    }
    forall u, v | InHandsOf(now, u, j) && InHandsOf(now, v, j) ensures u == v {
      assert WorkerOk(now, u);
    }
    forall u | InHandsOf(now, u, j) ensures j !in now.answered && j.place < now.taken {
      assert WorkerOk(now, u);
    }
  }

  /** A worker serves a connection only while that connection's client thread is blocked on its
      response queue, and no two workers serve the same one: no connection has two users. */
  lemma OneUserPerConnection(s: State, steps: seq<Step>, u: Worker, v: Worker)
    requires Init(s) && IsRun(s, steps)
    requires u in After(s, steps).workers && After(s, steps).workers[u].Busy?
    requires v in After(s, steps).workers && After(s, steps).workers[v].Busy?
    ensures var now := After(s, steps);
            WaitedFor(now, now.workers[u].job)
            && (now.workers[u].job.client == now.workers[v].job.client ==> u == v)
            && !Enabled(now, Collect(now.workers[u].job.client))
            && Enabled(now, Answer(u)) == (now.main != Ended)
  {
    InitJobInv(s);
    RunJobInv(s, steps);
    var now := After(s, steps);
    AnswerFinds(now, u);
    AnswerFinds(now, v);
    assert WorkerOk(now, u);
    if now.workers[u].job.client == now.workers[v].job.client {
      assert InHandsOf(now, v, now.workers[u].job);
    }
  }

  // ---- the rounds of a client ----

  /** What a client thread goes through: each step of its own takes it one place further, with the job
      that it submitted, and no step of any other thread moves it. */
  lemma ClientRound(s: State, step: Step, c: Client)
    requires JobInv(s) && Enabled(s, step)
    ensures var next := Next(s, step);
            && (c in s.clients ==> c in next.clients)
            && match step
               case Connect(d) => if d == c then c !in s.clients && next.clients[c] == Reading else Same(s, next, c)
               case Submit(d) =>
                 if d == c then
                   && s.clients[c] == Reading && next.clients[c].Waiting?
                   && var j := next.clients[c].job;
                      j.client == c && next.pushed == s.pushed + [Work(j)] && j.place == |s.pushed|
                 else Same(s, next, c)
               case Collect(d) =>
                 if d == c then
                   && s.clients[c].Waiting? && next.clients[c] == Responding(s.clients[c].job)
                   && s.responses[c] == [s.clients[c].job] && next.responses[c] == []
                 else Same(s, next, c)
               case Respond(d, close) =>
                 if d == c then s.clients[c].Responding? && next.clients[c] == (if close then Closed else Reading)
                 else Same(s, next, c)
               case _ => Same(s, next, c)
  {
    if step.Collect? { assert ClientOk(s, step.c); }
  }

  predicate Same(s: State, next: State, c: Client) {
    (c in s.clients <==> c in next.clients) && (c in s.clients ==> next.clients[c] == s.clients[c])
  }

  /** How often client `c` has taken a step of a kind. */
  function Count(steps: seq<Step>, c: Client, kind: Step -> bool): nat {
    if steps == [] then 0
    else (if OfClient(steps[0], c) && kind(steps[0]) then 1 else 0) + Count(steps[1..], c, kind)
  }

  predicate OfClient(step: Step, c: Client) {
    (step.Connect? || step.Submit? || step.Collect? || step.Respond?) && step.c == c
  }

  function Here(s: State, c: Client, place: ClientPc -> bool): nat {
    if c in s.clients && place(s.clients[c]) then 1 else 0
  }

  /** In every run a client has connected at most once, has collected as many answers as it has
      submitted jobs but for one that it waits for, and has responded as often as it has collected
      but for one that it is about to send. */
  lemma RoundsAreComplete(s: State, steps: seq<Step>, c: Client)
    requires Init(s) && IsRun(s, steps)
    ensures var now := After(s, steps);
            && Count(steps, c, (step: Step) => step.Connect?) == (if c in now.clients then 1 else 0)
            && Count(steps, c, (step: Step) => step.Submit?)
               == Count(steps, c, (step: Step) => step.Collect?) + Here(now, c, (p: ClientPc) => p.Waiting?)
            && Count(steps, c, (step: Step) => step.Collect?)
               == Count(steps, c, (step: Step) => step.Respond?) + Here(now, c, (p: ClientPc) => p.Responding?)
  {
    InitJobInv(s);
    RoundsFrom(s, steps, c);
  }

  lemma {:induction false} RoundsFrom(s: State, steps: seq<Step>, c: Client)
    requires JobInv(s) && IsRun(s, steps)
    ensures var now := After(s, steps);
            && Count(steps, c, (step: Step) => step.Connect?) + (if c in s.clients then 1 else 0)
               == (if c in now.clients then 1 else 0)
            && Count(steps, c, (step: Step) => step.Submit?) + Here(s, c, (p: ClientPc) => p.Waiting?)
               == Count(steps, c, (step: Step) => step.Collect?) + Here(now, c, (p: ClientPc) => p.Waiting?)
            && Count(steps, c, (step: Step) => step.Collect?) + Here(s, c, (p: ClientPc) => p.Responding?)
               == Count(steps, c, (step: Step) => step.Respond?) + Here(now, c, (p: ClientPc) => p.Responding?)
    decreases |steps|
  {
    if steps != [] {
      ClientRound(s, steps[0], c);
      StepJobInv(s, steps[0]);
      RoundsFrom(Next(s, steps[0]), steps[1..], c);
    }
  }

  /** What a worker goes through. */
  lemma WorkerRound(s: State, step: Step, w: Worker)
    requires JobInv(s) && Enabled(s, step) && w in s.workers
    ensures var next := Next(s, step);
            && w in next.workers
            && match step
               case Register(v) =>
                 if v == w then
                   s.workers[w] == Unregistered && next.workers[w] == Ready && next.counter == s.counter + 1
                 else next.workers[w] == s.workers[w]
               case Take(v) =>
                 if v == w then
                   && s.workers[w] == Ready && next.taken == s.taken + 1
                   && next.workers[w] == match s.pushed[s.taken] case Work(j) => Busy(j) case Pill => Leaving
                 else next.workers[w] == s.workers[w]
               case Answer(v) =>
                 if v == w then
                   && s.workers[w].Busy? && next.workers[w] == Ready
                   && var j := s.workers[w].job;
                      j.client in next.responses && next.responses[j.client] == [j] && j in next.answered
                 else next.workers[w] == s.workers[w]
               case Quit(v) =>
                 if v == w then s.workers[w] == Leaving && next.workers[w] == Gone
                 else next.workers[w] == s.workers[w]
               case _ => next.workers[w] == s.workers[w]
  {
    if step.Answer? { AnswerFinds(s, step.w); }
  }

  /** A waiting client's job is on its way: in the client's response queue and the client can collect it,
      or in a worker's hands and that worker can answer, or on the work list and any worker that is
      ready can take from it. */
  lemma JobCanMove(s: State, c: Client)
    requires JobInv(s) && s.main != Ended && c in s.clients && s.clients[c].Waiting?
    ensures var j := s.clients[c].job;
            || Enabled(s, Collect(c))
            || (exists w :: InHandsOf(s, w, j) && Enabled(s, Answer(w)))
            || (InWorkList(s, j) && forall w :: w in s.workers && s.workers[w] == Ready ==> Enabled(s, Take(w)))
  {
    var j := s.clients[c].job;
    assert ClientOk(s, c) && PlaceOk(s, j.place);
    if j !in s.answered && j.place < s.taken {
      var w :| InHandsOf(s, w, j);
      AnswerFinds(s, w);
      assert Enabled(s, Answer(w));
    }
  }

  /** Every thread that can do something by itself can do it: a client that reads can submit, one that
      has collected can respond, a worker can register and, after its pill, leave. */
  lemma OwnStepsEnabled(s: State, c: Client, w: Worker)
    requires s.main != Ended
    ensures c !in s.clients && s.main == Serving ==> Enabled(s, Connect(c))
    ensures c in s.clients && s.clients[c] == Reading ==> Enabled(s, Submit(c))
    ensures c in s.clients && s.clients[c].Responding? ==> Enabled(s, Respond(c, true)) && Enabled(s, Respond(c, false))
    ensures w in s.workers && s.workers[w] == Unregistered ==> Enabled(s, Register(w))
    ensures w in s.workers && s.workers[w] == Leaving ==> Enabled(s, Quit(w))
    ensures s.main == Serving ==> Enabled(s, Hangup)
    ensures s.main.Flooding? ==> Enabled(s, Flood) || Enabled(s, EndFlood)
  {
  }
}
