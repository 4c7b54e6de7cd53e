/** What a run means for its clients: the policies as promises about ages, and the store as a map
    from names to the bytes written to them. Both are stated against records of the run that
    know nothing of the list. */
module History {
  import opened WriteLoop
  import opened Names
  import opened FileStore
  import opened Protocol
  import opened Requests
  import opened Capacity

  // ---- the shape of one step ----

  /** The list as it stands when eviction begins. */
  function Base(st: Store, policy: Policy, req: Request): seq<File> {
    match req
    case Open(name, flags) => if flags == O_CREATE then st.files else Promote(st.files, policy, name)
    case Read(name) => Promote(st.files, policy, name)
    case Write(name, _) => Promote(st.files, policy, name)
    case _ => st.files
  }

  predicate Creates(st: Store, req: Request) {
    req.Open? && req.flags == O_CREATE && !Has(st.files, req.name)
  }

  function Fresh(st: Store, req: Request): nat {
    if Creates(st, req) then 1 else 0
  }

  /** How many files of the base list survive. */
  function Kept(st: Store, policy: Policy, req: Request): nat {
    if Creates(st, req) then |MakeRoom(st, 1, 0).files|
    else if req.Write? && Has(st.files, req.name) then |MakeRoom(Looked(st, policy, req.name), 0, |req.data|).files|
    else |st.files|
  }

  predicate Accepted(st: Store, policy: Policy, req: Request) {
    Handle(st, policy, req).status == OK
  }

  /** The bytes that a request adds to a file: a granted block as often as the loop writes it, which
      is once below 2^32 bytes. */
  function Added(req: Request, ok: bool, name: Name): seq<byte> {
    if req.Write? && ok && req.name == name then Written(req.data) else []
  }

  predicate Descends(f: File, g: File, req: Request, ok: bool) {
    f.name == g.name && f.content == g.content + Added(req, ok, g.name) && (g.isOpen ==> f.isOpen)
  }

  ghost predicate DescendsAt(after: seq<File>, base: seq<File>, c: nat, i: nat, req: Request, ok: bool)
    requires c + i < |after| && i < |base|
  {
    Descends(after[c + i], base[i], req, ok)
  }

  /** Every request but a removal keeps a prefix of the base list, in order, with at most a new
      file in front and at most its own target changed. */
  lemma Shape(st: Store, policy: Policy, req: Request)
    requires Unique(st.files) && !req.Remove?
    ensures var after := Handle(st, policy, req).store.files;
            var base, c, m := Base(st, policy, req), Fresh(st, req), Kept(st, policy, req);
            m <= |base| == |st.files| && |after| == c + m
            && (c == 1 ==> after[0] == NewFile(req.name))
            && forall i :: 0 <= i < m ==> DescendsAt(after, base, c, i, req, Accepted(st, policy, req))
  {
    if Creates(st, req) {
      CreateShape(st, policy, req.name);
    } else if req.Write? {
      WriteShape(st, policy, req.name, req.data);
    } else {
      LookupShape(st, policy, req);
    }
  }

  lemma LookupShape(st: Store, policy: Policy, req: Request)
    requires Unique(st.files) && !req.Remove? && !req.Write? && !Creates(st, req)
    ensures var after, base := Handle(st, policy, req).store.files, Base(st, policy, req);
            |base| == |st.files| == |after|
            && forall i :: 0 <= i < |base| ==> DescendsAt(after, base, 0, i, req, Accepted(st, policy, req))
  {
    var after, base := Handle(st, policy, req).store.files, Base(st, policy, req);
    if req.Open? && req.flags != O_CREATE && Has(st.files, req.name) {
      PromoteKeeps(st.files, policy, req.name);
      OpenShape(base, req, Accepted(st, policy, req));
    } else {
      if req.Read? { PromoteKeeps(st.files, policy, req.name); }
      assert after == base && after[0..] == base;
      PrefixDescends(base, base, after, 0, req, Accepted(st, policy, req));
    }
  }

  lemma OpenShape(base: seq<File>, req: Request, ok: bool)
    requires req.Open? && Has(base, req.name)
    ensures forall i :: 0 <= i < |base| ==> DescendsAt(SetOpen(base, req.name), base, 0, i, req, ok)
  {
  }

  lemma CreateShape(st: Store, policy: Policy, name: Name)
    requires !Has(st.files, name)
    ensures var req := Open(name, O_CREATE);
            var after, m := Handle(st, policy, req).store.files, Kept(st, policy, req);
            m <= |st.files| && |after| == 1 + m && after[0] == NewFile(name)
            && forall i :: 0 <= i < m ==> DescendsAt(after, st.files, 1, i, req, Accepted(st, policy, req))
  {
    EvictionShrinks(st, 1, 0);
    var room, req := MakeRoom(st, 1, 0).files, Open(name, O_CREATE);
    PrefixDescends(room, st.files, [NewFile(name)] + room, 1, req, true);
  }

  /** A prefix of the base list behind `c` new files descends from it unchanged. */
  lemma PrefixDescends(room: seq<File>, base: seq<File>, after: seq<File>, c: nat, req: Request, ok: bool)
    requires room <= base && |after| == c + |room| && after[c..] == room && !(req.Write? && ok)
    ensures forall i :: 0 <= i < |room| ==> DescendsAt(after, base, c, i, req, ok)
  {
    forall i | 0 <= i < |room| ensures DescendsAt(after, base, c, i, req, ok) {
      assert after[c + i] == after[c..][i] == room[i] == base[i];
    }
  }

  lemma {:induction false} WriteShape(st: Store, policy: Policy, name: Name, data: seq<byte>)
    requires Unique(st.files)
    ensures var req := Write(name, data);
            var after, base := WriteReply(st, policy, name, data).store.files, Base(st, policy, req);
            var m := Kept(st, policy, req);
            m <= |base| == |st.files| && |after| == m
            && forall i :: 0 <= i < m ==> DescendsAt(after, base, 0, i, req, Accepted(st, policy, req))
  {
    PromoteKeeps(st.files, policy, name);
    if Has(st.files, name) {
      var found := Looked(st, policy, name);
      EvictionShrinks(found, 0, |data|);
      var room := MakeRoom(found, 0, |data|).files;
      var m := |room|;
      UniquePart(found.files, 0, m);
      if Has(room, name) && Accepted(st, policy, Write(name, data)) {
        AppendShape(room, found.files, name, data);
      } else {
        assert room[0..] == room;
        PrefixDescends(room, found.files, room, 0, Write(name, data), false);
      }
    } else {
      assert st.files[0..] == st.files;
      PrefixDescends(st.files, st.files, st.files, 0, Write(name, data), false);
    }
  }

  lemma AppendShape(room: seq<File>, base: seq<File>, name: Name, data: seq<byte>)
    requires Unique(room) && room <= base && Has(room, name)
    ensures var after := AppendTo(room, name, Written(data));
            forall i :: 0 <= i < |room| ==> DescendsAt(after, base, 0, i, Write(name, data), true)
  {
    var k := IndexOf(room, name);
    var after := AppendTo(room, name, Written(data));
    forall i | 0 <= i < |room| ensures DescendsAt(after, base, 0, i, Write(name, data), true) {
      assert i == k || Differ(room, i, k);
    }
  }

  // ---- ages ----

  /** A store with the time each name was last used, as the policy understands use. */
  datatype Timed = Timed(store: Store, stamp: map<Name, nat>, clock: nat)

  /** Creation counts as use under both policies; opening, reading and writing a resident file
      count under LRU only. */
  function Touched(st: Store, policy: Policy, req: Request): set<Name> {
    match req
    case Open(name, flags) =>
      if flags == O_CREATE then (if Has(st.files, name) then {} else {name})
      else if policy == LRU && Has(st.files, name) then {name} else {}
    case Read(name) => if policy == LRU && Has(st.files, name) then {name} else {}
    case Write(name, _) => if policy == LRU && Has(st.files, name) then {name} else {}
    case _ => {}
  }

  function Tick(t: Timed, policy: Policy, req: Request): Timed {
    Timed(Handle(t.store, policy, req).store,
          t.stamp + (map n | n in Touched(t.store, policy, req) :: t.clock),
          t.clock + 1)
  }

  function TimedRun(st: Store, policy: Policy, reqs: seq<Request>): Timed {
    if reqs == [] then Timed(st, map[], 0)
    else Tick(TimedRun(st, policy, reqs[..|reqs| - 1]), policy, reqs[|reqs| - 1])
  }

  ghost predicate Stamped(files: seq<File>, i: nat, stamp: map<Name, nat>, clock: nat)
    requires i < |files|
  {
    files[i].name in stamp && stamp[files[i].name] < clock
  }

  ghost predicate Newer(files: seq<File>, i: nat, j: nat, stamp: map<Name, nat>)
    requires i < |files| && j < |files|
  {
    files[i].name in stamp && files[j].name in stamp && stamp[files[i].name] > stamp[files[j].name]
  }

  /** From the head to the tail, strictly from the most to the least recent. */
  ghost predicate Sorted(files: seq<File>, stamp: map<Name, nat>, clock: nat) {
    (forall i :: 0 <= i < |files| ==> Stamped(files, i, stamp, clock)) &&
    (forall i, j :: 0 <= i < j < |files| ==> Newer(files, i, j, stamp))
  }

  lemma SortedTouched(files: seq<File>, k: nat, stamp: map<Name, nat>, clock: nat)
    requires Sorted(files, stamp, clock) && Unique(files) && k < |files|
    ensures Sorted(MoveToFront(files, k), stamp[files[k].name := clock], clock + 1)
  {
    var p, s := MoveToFront(files, k), stamp[files[k].name := clock];
    var later := clock + 1;
    forall i | 0 <= i < |p| ensures Stamped(p, i, s, later) {
      assert p[i] == files[Origin(i, k)] && Stamped(files, Origin(i, k), stamp, clock);
    }
    forall i, j | 0 <= i < j < |p| ensures Newer(p, i, j, s) {
      var i', j' := Origin(i, k), Origin(j, k);
      assert p[i] == files[i'] && p[j] == files[j'] && Differ(files, j', k);
      assert Stamped(files, j', stamp, clock) && (i' != k ==> Differ(files, i', k) && Newer(files, i', j', stamp));
    }
  }

  lemma SortedBase(t: Timed, policy: Policy, req: Request)
    requires Sorted(t.store.files, t.stamp, t.clock) && Unique(t.store.files)
    ensures var u := Tick(t, policy, req);
            Sorted(Base(t.store, policy, req), u.stamp, u.clock)
  {
    var st, u, base := t.store, Tick(t, policy, req), Base(t.store, policy, req);
    var touched := Touched(st, policy, req);
    if touched != {} && !Creates(st, req) {
      var k := IndexOf(st.files, req.name);
      SortedTouched(st.files, k, t.stamp, t.clock);
      assert u.stamp == t.stamp[req.name := t.clock];
    } else {
      assert base == st.files;
      forall i | 0 <= i < |base| ensures Stamped(base, i, u.stamp, u.clock) && base[i].name !in touched {
        assert Stamped(st.files, i, t.stamp, t.clock);
        if Creates(st, req) { AbsentAt(st.files, i, req.name); }
      }
      forall i, j | 0 <= i < j < |base| ensures Newer(base, i, j, u.stamp) {
        assert Newer(st.files, i, j, t.stamp);
        assert base[i].name !in touched && base[j].name !in touched;
      }
    }
  }

  lemma AbsentAt(files: seq<File>, i: nat, name: Name)
    requires !Has(files, name) && i < |files|
    ensures files[i].name != name
  {
  }

  lemma SortedStep(t: Timed, policy: Policy, req: Request)
    requires Sorted(t.store.files, t.stamp, t.clock) && Unique(t.store.files)
    ensures var u := Tick(t, policy, req); Sorted(u.store.files, u.stamp, u.clock)
  {
    var st, u := t.store, Tick(t, policy, req);
    var base, after := Base(st, policy, req), u.store.files;
    SortedBase(t, policy, req);
    if req.Remove? {
      if Has(st.files, req.name) { SortedRemoved(t, policy, req); }
    } else {
      Shape(st, policy, req);
      if Creates(st, req) {
        forall j | 0 <= j < Kept(st, policy, req) ensures NewerThan(req.name, base, j, u.stamp) {
          NewestFirst(t, policy, req, j);
        }
      }
      var c, m, ok := Fresh(st, req), Kept(st, policy, req), Accepted(st, policy, req);
      SortedSurvivors(base, after, c, m, u.stamp, u.clock, req, ok);
    }
  }

  ghost predicate NewerThan(name: Name, files: seq<File>, j: nat, stamp: map<Name, nat>)
    requires j < |files|
  {
    name in stamp && files[j].name in stamp && stamp[name] > stamp[files[j].name]
  }

  /** The surviving prefix keeps its order, behind a new file if there is one. */
  lemma SortedSurvivors(base: seq<File>, after: seq<File>, c: nat, m: nat, stamp: map<Name, nat>, clock: nat,
                        req: Request, ok: bool)
    requires Sorted(base, stamp, clock) && m <= |base| && c <= 1 && |after| == c + m
    requires forall i :: 0 <= i < m ==> DescendsAt(after, base, c, i, req, ok)
    requires c == 1 ==> Stamped(after, 0, stamp, clock)
    requires c == 1 ==> forall j :: 0 <= j < m ==> NewerThan(after[0].name, base, j, stamp)
    ensures Sorted(after, stamp, clock)
  {
    forall i | 0 <= i < |after| ensures Stamped(after, i, stamp, clock) {
      if c <= i { assert DescendsAt(after, base, c, i - c, req, ok) && Stamped(base, i - c, stamp, clock); }
    }
    forall i, j | 0 <= i < j < |after| ensures Newer(after, i, j, stamp) {
      assert DescendsAt(after, base, c, j - c, req, ok);
      if c <= i {
        assert DescendsAt(after, base, c, i - c, req, ok) && Newer(base, i - c, j - c, stamp);
      } else {
        assert NewerThan(after[0].name, base, j - c, stamp);
      }
    }
  }

  lemma NewestFirst(t: Timed, policy: Policy, req: Request, j: nat)
    requires Sorted(t.store.files, t.stamp, t.clock) && Creates(t.store, req) && j < |t.store.files|
    ensures NewerThan(req.name, t.store.files, j, Tick(t, policy, req).stamp)
  {
    assert Stamped(t.store.files, j, t.stamp, t.clock);
    AbsentAt(t.store.files, j, req.name);
  }

  lemma SortedRemoved(t: Timed, policy: Policy, req: Request)
    requires Sorted(t.store.files, t.stamp, t.clock) && Unique(t.store.files)
    requires req.Remove? && Has(t.store.files, req.name)
    ensures var u := Tick(t, policy, req); Sorted(u.store.files, u.stamp, u.clock)
  {
    RemoveIs(t.store, policy, req.name);
    SortedWithout(t.store.files, IndexOf(t.store.files, req.name), t.stamp, t.clock);
    assert Tick(t, policy, req).stamp == t.stamp;
  }

  lemma SortedWithout(files: seq<File>, k: nat, stamp: map<Name, nat>, clock: nat)
    requires Sorted(files, stamp, clock) && k < |files|
    ensures Sorted(RemoveAt(files, k), stamp, clock + 1)
  {
    var after, later := RemoveAt(files, k), clock + 1;
    forall i | 0 <= i < |after| ensures Stamped(after, i, stamp, later) {
      assert Stamped(files, if i < k then i else i + 1, stamp, clock);
    }
    forall i, j | 0 <= i < j < |after| ensures Newer(after, i, j, stamp) {
      assert Newer(files, if i < k then i else i + 1, if j < k then j else j + 1, stamp);
    }
  }

  /** After every run the list is in order of age: by last use under LRU, by creation under FIFO. */
  lemma {:induction false} RunsAreSorted(maxFiles: nat, maxMemory: nat, policy: Policy, reqs: seq<Request>)
    ensures var st := EmptyStore(maxFiles, maxMemory);
            var t := TimedRun(st, policy, reqs);
            t.store == Run(st, policy, reqs) && t.clock == |reqs|
            && Unique(t.store.files) && Sorted(t.store.files, t.stamp, t.clock)
  {
    if reqs != [] {
      var n := |reqs| - 1;
      RunsAreSorted(maxFiles, maxMemory, policy, reqs[..n]);
      var t := TimedRun(EmptyStore(maxFiles, maxMemory), policy, reqs[..n]);
      SortedStep(t, policy, reqs[n]);
      StepUnique(t.store, policy, reqs[n]);
    }
  }

  lemma OthersSurvive(st: Store, policy: Policy, name: Name, a: Name)
    requires Unique(st.files) && Has(st.files, a) && a != name
    ensures Has(RemoveReply(st, policy, name).store.files, a)
  {
    if Has(st.files, name) {
      RemoveIs(st, policy, name);
      var k, i := IndexOf(st.files, name), IndexOf(st.files, a);
      assert RemoveAt(st.files, k)[if i < k then i else i - 1].name == a;
    }
  }

  lemma KeptSurvive(st: Store, policy: Policy, req: Request, i: nat)
    requires Unique(st.files) && !req.Remove? && i < Kept(st, policy, req) && i < |Base(st, policy, req)|
    ensures Has(Handle(st, policy, req).store.files, Base(st, policy, req)[i].name)
  {
    Shape(st, policy, req);
    var after, c := Handle(st, policy, req).store.files, Fresh(st, req);
    assert DescendsAt(after, Base(st, policy, req), c, i, req, Accepted(st, policy, req));
  }

  lemma OthersGo(st: Store, policy: Policy, req: Request, j: nat)
    requires Unique(st.files) && !req.Remove? && Kept(st, policy, req) <= j < |Base(st, policy, req)|
    ensures !Has(Handle(st, policy, req).store.files, Base(st, policy, req)[j].name)
  {
    Shape(st, policy, req);
    UniqueBase(st, policy, req);
    var after, base, c := Handle(st, policy, req).store.files, Base(st, policy, req), Fresh(st, req);
    forall r | 0 <= r < |after| ensures after[r].name != base[j].name {
      if c <= r {
        assert DescendsAt(after, base, c, r - c, req, Accepted(st, policy, req));
        assert Differ(base, r - c, j);
      } else {
        AbsentAt(st.files, j, req.name);
      }
    }
  }

  lemma UniqueBase(st: Store, policy: Policy, req: Request)
    requires Unique(st.files)
    ensures Unique(Base(st, policy, req))
  {
    if Base(st, policy, req) != st.files { PromoteKeeps(st.files, policy, req.name); }
  }

  /** The file goes with the request, and not because the request asks for its removal. */
  predicate Evicts(st: Store, policy: Policy, req: Request, name: Name) {
    Has(st.files, name) && !Has(Handle(st, policy, req).store.files, name) && req != Remove(name)
  }

  predicate Spares(st: Store, policy: Policy, req: Request, name: Name) {
    Has(st.files, name) && Has(Handle(st, policy, req).store.files, name)
  }

  ghost predicate Older(t: Timed, a: Name, b: Name) {
    a in t.stamp && b in t.stamp && t.stamp[a] < t.stamp[b]
  }

  lemma EvictedIsOlder(t: Timed, policy: Policy, req: Request, a: Name, b: Name)
    requires Sorted(t.store.files, t.stamp, t.clock) && Unique(t.store.files)
    requires Evicts(t.store, policy, req, a) && Spares(t.store, policy, req, b)
    ensures Older(Tick(t, policy, req), a, b)
  {
    var st, u := t.store, Tick(t, policy, req);
    if req.Remove? {
      OthersSurvive(st, policy, req.name, a);
    } else {
      SortedBase(t, policy, req);
      var i := PlaceInBase(st, policy, req, a);
      var j := PlaceInBase(st, policy, req, b);
      EvictedBehind(st, policy, req, i, j);
      assert Newer(Base(st, policy, req), j, i, u.stamp);
    }
  }

  /** After every run, whatever a request evicts is older than whatever it spares: less recently used
      under LRU, created earlier under FIFO. */
  lemma {:induction false} EvictedAreOldest(maxFiles: nat, maxMemory: nat, policy: Policy,
                                            reqs: seq<Request>, req: Request)
    ensures var t := TimedRun(EmptyStore(maxFiles, maxMemory), policy, reqs);
            t.store == Run(EmptyStore(maxFiles, maxMemory), policy, reqs)
            && forall a, b :: Evicts(t.store, policy, req, a) && Spares(t.store, policy, req, b) ==>
                 Older(Tick(t, policy, req), a, b)
  {
    RunsAreSorted(maxFiles, maxMemory, policy, reqs);
    var t := TimedRun(EmptyStore(maxFiles, maxMemory), policy, reqs);
    forall a, b | Evicts(t.store, policy, req, a) && Spares(t.store, policy, req, b)
      ensures Older(Tick(t, policy, req), a, b)
    {
      EvictedIsOlder(t, policy, req, a, b);
    }
  }

  lemma EvictedBehind(st: Store, policy: Policy, req: Request, i: nat, j: nat)
    requires Unique(st.files) && !req.Remove? && i < |Base(st, policy, req)| && j < |Base(st, policy, req)|
    ensures var base, after := Base(st, policy, req), Handle(st, policy, req).store.files;
            !Has(after, base[i].name) && Has(after, base[j].name) ==> j < Kept(st, policy, req) <= i
  {
    if i < Kept(st, policy, req) {
      KeptSurvive(st, policy, req, i);
    } else if Kept(st, policy, req) <= j {
      OthersGo(st, policy, req, j);
    }
  }

  lemma PlaceInBase(st: Store, policy: Policy, req: Request, name: Name) returns (i: nat)
    requires Unique(st.files) && Has(st.files, name) && !req.Remove?
    ensures i < |Base(st, policy, req)| && Base(st, policy, req)[i].name == name
  {
    var base, p := Base(st, policy, req), IndexOf(st.files, name);
    if base == st.files {
      i := p;
    } else {
      var k := IndexOf(st.files, req.name);
      i := if p == k then 0 else if p < k then p + 1 else p;
      assert base == MoveToFront(st.files, k);
    }
  }

  // ---- contents ----

  /** A request and whether it was granted: all that the clients see of the history. */
  datatype Event = Event(req: Request, ok: bool)

  function LogOf(st: Store, policy: Policy, reqs: seq<Request>): seq<Event> {
    if reqs == [] then []
    else
      var n := |reqs| - 1;
      LogOf(st, policy, reqs[..n]) + [Event(reqs[n], Accepted(Run(st, policy, reqs[..n]), policy, reqs[n]))]
  }

  /** The writing of a granted block comes to an end. */
  predicate Completed(e: Event) {
    e.ok && e.req.Write? ==> !NeverEnds(|e.req.data|)
  }

  /** The bytes granted to a name since it was last created, in order. */
  function Replay(log: seq<Event>, name: Name): seq<byte> {
    if log == [] then []
    else
      var e := log[|log| - 1];
      var earlier := Replay(log[..|log| - 1], name);
      if e.ok && e.req == Open(name, O_CREATE) then []
      else earlier + Added(e.req, e.ok, name)
  }

  lemma ReplaySnoc(log: seq<Event>, e: Event, name: Name)
    ensures Replay(log + [e], name)
         == if e.ok && e.req == Open(name, O_CREATE) then [] else Replay(log, name) + Added(e.req, e.ok, name)
  {
    assert (log + [e])[..|log|] == log;
  }

  ghost predicate Faithful(f: File, log: seq<Event>) {
    f.content == Replay(log, f.name) && f.isOpen
  }

  lemma {:induction false} FaithfulStep(st: Store, policy: Policy, req: Request, log: seq<Event>)
    requires Unique(st.files) && forall i :: 0 <= i < |st.files| ==> Faithful(st.files[i], log)
    requires Completed(Event(req, Accepted(st, policy, req)))
    ensures var log' := log + [Event(req, Accepted(st, policy, req))];
            var after := Handle(st, policy, req).store.files;
            forall i :: 0 <= i < |after| ==> Faithful(after[i], log')
  {
    if req.Remove? {
      FaithfulRemoval(st, policy, req, log);
    } else {
      var after := Handle(st, policy, req).store.files;
      forall i | 0 <= i < |after| ensures Faithful(after[i], log + [Event(req, Accepted(st, policy, req))]) {
        FaithfulAt(st, policy, req, log, i);
      }
    }
  }

  lemma {:induction false} FaithfulAt(st: Store, policy: Policy, req: Request, log: seq<Event>, i: nat)
    requires Unique(st.files) && forall k :: 0 <= k < |st.files| ==> Faithful(st.files[k], log)
    requires !req.Remove? && i < |Handle(st, policy, req).store.files|
    ensures Faithful(Handle(st, policy, req).store.files[i], log + [Event(req, Accepted(st, policy, req))])
  {
    var ok, after := Accepted(st, policy, req), Handle(st, policy, req).store.files;
    var base, c := Base(st, policy, req), Fresh(st, req);
    Shape(st, policy, req);
    if c <= i {
      BaseIsFaithful(st, policy, req, log, i - c);
      FaithfulSurvivor(after, base, c, i - c, req, ok, log);
    } else {
      FaithfulNew(st, policy, req, log);
    }
  }

  lemma FaithfulNew(st: Store, policy: Policy, req: Request, log: seq<Event>)
    requires Creates(st, req)
    ensures var after := Handle(st, policy, req).store.files;
            after != [] && Faithful(after[0], log + [Event(req, Accepted(st, policy, req))])
  {
    ReplaySnoc(log, Event(req, true), req.name);
  }

  lemma FaithfulSurvivor(after: seq<File>, base: seq<File>, c: nat, i: nat, req: Request, ok: bool, log: seq<Event>)
    requires c + i < |after| && i < |base| && DescendsAt(after, base, c, i, req, ok)
    requires Faithful(base[i], log) && !(ok && req == Open(base[i].name, O_CREATE))
    ensures Faithful(after[c + i], log + [Event(req, ok)])
  {
    FaithfulHeir(base[i], after[c + i], req, ok, log);
  }

  /** A file that descends from a faithful one is faithful to the longer log. */
  lemma FaithfulHeir(f: File, g: File, req: Request, ok: bool, log: seq<Event>)
    requires Faithful(f, log) && Descends(g, f, req, ok)
    requires !(ok && req == Open(f.name, O_CREATE))
    ensures Faithful(g, log + [Event(req, ok)])
  {
    ReplaySnoc(log, Event(req, ok), g.name);
  }

  lemma FaithfulRemoval(st: Store, policy: Policy, req: Request, log: seq<Event>)
    requires Unique(st.files) && forall i :: 0 <= i < |st.files| ==> Faithful(st.files[i], log)
    requires req.Remove?
    ensures var log' := log + [Event(req, Accepted(st, policy, req))];
            var after := Handle(st, policy, req).store.files;
            forall i :: 0 <= i < |after| ==> Faithful(after[i], log')
  {
    if Has(st.files, req.name) { RemoveIs(st, policy, req.name); }
    FaithfulRest(st.files, IndexOf(st.files, req.name), req, Accepted(st, policy, req), log);
  }

  /** What remains without file `k`, or all if there is none, is faithful to the log with the removal. */
  lemma FaithfulRest(files: seq<File>, k: nat, req: Request, ok: bool, log: seq<Event>)
    requires forall i :: 0 <= i < |files| ==> Faithful(files[i], log)
    requires req.Remove?
    ensures var after := if k < |files| then RemoveAt(files, k) else files;
            forall i :: 0 <= i < |after| ==> Faithful(after[i], log + [Event(req, ok)])
  {
    var after := if k < |files| then RemoveAt(files, k) else files;
    forall i | 0 <= i < |after| ensures Faithful(after[i], log + [Event(req, ok)]) {
      var j := if i < k then i else i + 1;
      assert after[i] == files[j] && Faithful(files[j], log);
      FaithfulHeir(files[j], after[i], req, ok, log);
    }
  }

  lemma SourceOf(st: Store, policy: Policy, req: Request, i: nat) returns (j: nat)
    requires Unique(st.files) && i < |Base(st, policy, req)|
    ensures j < |st.files| && Base(st, policy, req)[i] == st.files[j]
  {
    var base := Base(st, policy, req);
    if base == st.files {
      j := i;
    } else {
      j := Origin(i, IndexOf(st.files, req.name));
    }
  }

  lemma BaseIsFaithful(st: Store, policy: Policy, req: Request, log: seq<Event>, i: nat)
    requires Unique(st.files) && i < |Base(st, policy, req)|
    requires forall k :: 0 <= k < |st.files| ==> Faithful(st.files[k], log)
    ensures Faithful(Base(st, policy, req)[i], log)
    ensures Creates(st, req) ==> Base(st, policy, req)[i].name != req.name
  {
    var j := SourceOf(st, policy, req, i);
    assert Faithful(st.files[j], log);
    if Creates(st, req) { AbsentAt(st.files, j, req.name); }
  }

  /** Every resident file holds exactly the bytes granted to its name since its creation. */
  lemma {:induction false} StoreIsReplay(maxFiles: nat, maxMemory: nat, policy: Policy, reqs: seq<Request>)
    requires forall e <- LogOf(EmptyStore(maxFiles, maxMemory), policy, reqs) :: Completed(e)
    ensures var st := EmptyStore(maxFiles, maxMemory);
            var files := Run(st, policy, reqs).files;
            Unique(files) && forall i :: 0 <= i < |files| ==> Faithful(files[i], LogOf(st, policy, reqs))
  {
    var st := EmptyStore(maxFiles, maxMemory);
    RunKeeps(st, policy, reqs);
    if reqs != [] {
      var n := |reqs| - 1;
      var now := Run(st, policy, reqs[..n]);
      assert Event(reqs[n], Accepted(now, policy, reqs[n])) in LogOf(st, policy, reqs);
      StoreIsReplay(maxFiles, maxMemory, policy, reqs[..n]);
      FaithfulStep(Run(st, policy, reqs[..n]), policy, reqs[n], LogOf(st, policy, reqs[..n]));
    }
  }

  /** A read is granted iff the name is resident, and then delivers those bytes. */
  lemma {:induction false} ReadReturnsWrites(maxFiles: nat, maxMemory: nat, policy: Policy,
                                             reqs: seq<Request>, name: Name)
    requires forall e <- LogOf(EmptyStore(maxFiles, maxMemory), policy, reqs) :: Completed(e)
    ensures var st := EmptyStore(maxFiles, maxMemory);
            var now := Run(st, policy, reqs);
            var r, bytes := ReadReply(now, policy, name), Replay(LogOf(st, policy, reqs), name);
            if Has(now.files, name) then
              r.status == OK && r.sent == [Num(CONTINUE), Num(CONTINUE), Num(|bytes|), Msg(bytes)]
            else r.status == NOT_OK && r.err == ENOENT && r.sent == [Num(NO_CONTINUE)]
  {
    StoreIsReplay(maxFiles, maxMemory, policy, reqs);
    var st := EmptyStore(maxFiles, maxMemory);
    var files := Run(st, policy, reqs).files;
    if Has(files, name) {
      assert Faithful(files[IndexOf(files, name)], LogOf(st, policy, reqs));
    }
  }
}
