/** The branches of the worker's request loop, on the heap. Each runs as one atomic step on the
    cache, as it does when there is a single worker. */
module Worker {
  import opened CInt
  import opened WriteLoop
  import opened Names
  import opened FileStore
  import opened Protocol
  import opened Requests
  import opened Channel
  import opened ServerMemory
  import opened Capacity

  class WorkerThread {
    const mem: ServerMetadata
    const policy: Policy

    constructor (mem: ServerMetadata, policy: Policy)
      ensures this.mem == mem && this.policy == policy
    {
      this.mem, this.policy := mem, policy;
    }

    method HandleOpen(name: Name, flags: int) returns (err: nat, status: nat)
      requires mem.Valid()
      modifies mem, mem.repr
      ensures mem.Valid() && fresh(mem.repr - old(mem.repr))
      ensures var r := OpenReply(old(mem.Abs()), policy, name, flags);
              mem.Abs() == r.store && err == r.err && status == r.status && r.sent == []
    {
      if flags == O_CREATE {
        var resident := mem.InMem(name);
        if resident {
          return EEXIST, NOT_OK;
        }
        CreateFile(name);
        return 0, OK;
      } else {
        var resident := mem.InMem(name);
        if !resident {
          return ENOENT, NOT_OK;
        }
        var file, errno := mem.FindFile(name, policy);
        mem.SetFileOpen(file);
        return 0, OK;
      }
    }

    /** Makes room for one file, whatever that yields, and puts a new open file at the head. */
    method CreateFile(name: Name)
      requires mem.Valid() && !Has(mem.files, name)
      modifies mem, mem.repr
      ensures mem.Valid() && fresh(mem.repr - old(mem.repr))
      ensures mem.Abs() == Created(old(mem.Abs()), name)
    {
      StillAbsent(mem.Abs(), 1, 0, name);
      var errno := mem.CacheAlgorithm(1, 0);
      ghost var room := mem.files;
      var file := new FileMemory.CreateFile(name);
      var added, e := mem.AddFileToMemory(file);
      OpenedInFront(name, room);
      mem.SetFileOpen(file);
    }

    method HandleRead(name: Name, client: Connection) returns (err: nat, status: nat)
      requires mem.Valid()
      modifies mem, mem.repr, client
      ensures mem.Valid() && mem.repr == old(mem.repr) && client.inbox == old(client.inbox)
      ensures var r := ReadReply(old(mem.Abs()), policy, name);
              mem.Abs() == r.store && err == r.err && status == r.status
              && client.trace == old(client.trace) + Outs(r.sent)
    {
      ghost var st := mem.Abs();
      var file, errno := mem.FindFile(name, policy);
      if file == null {
        client.SendNumber(NO_CONTINUE);
        return ENOENT, NOT_OK;
      }
      ghost var k := mem.Position(file);
      PromoteKeeps(st.files, policy, name);
      client.SendNumber(CONTINUE);
      if file.isOpen {
        SendContent(file, client);
        return 0, OK;
      } else {
        client.SendNumber(NO_CONTINUE);
        return EACCES, NOT_OK;
      }
    }

    method SendContent(file: FileMemory, client: Connection)
      modifies client
      ensures client.inbox == old(client.inbox)
      ensures client.trace
           == old(client.trace) + Outs([Num(CONTINUE), Num(file.usedMemory), Msg(file.buffer)])
    {
      client.SendNumber(CONTINUE);
      client.SendNumber(file.usedMemory);
      client.SendMessage(file.buffer);
    }

    /** The client announces the length of its message and then sends it. */
    method HandleWrite(name: Name, client: Connection, ghost data: seq<byte>) returns (err: nat, status: nat)
      requires mem.Valid() && [Num(|data|), Msg(data)] <= client.inbox
      requires Granted(mem.Abs(), policy, name, |data|) ==> |data| < TWO_63 && !NeverEnds(|data|)
      modifies mem, mem.repr, client
      ensures mem.Valid() && mem.repr == old(mem.repr)
      ensures var r := WriteReply(old(mem.Abs()), policy, name, data);
              mem.Abs() == r.store && err == r.err && status == r.status
      ensures client.inbox == old(client.inbox)[WriteConsumes(old(mem.Abs()), policy, name, data)..]
      ensures client.trace == old(client.trace) + WriteExchange(old(mem.Abs()), policy, name, data)
    {
      ghost var st := mem.Abs();
      var file, errno := mem.FindFile(name, policy);
      if file == null {
        client.SendNumber(NOT_OK);
        return ENONET, NOT_OK;
      }
      PromoteKeeps(st.files, policy, name);
      ghost var found := mem.Abs();
      client.SendNumber(CONTINUE);
      var byteToWrite := client.RecvNumber();
      errno := mem.CacheAlgorithm(0, byteToWrite);
      if errno == E2BIG {
        client.SendNumber(NO_CONTINUE);
        return E2BIG, NOT_OK;
      }
      ghost var before := old(client.trace);
      err, status := AcceptWrite(name, client, byteToWrite, data);
      InARow(before, Out(Num(CONTINUE)), In(Num(|data|)), Out(Num(CONTINUE)), In(Msg(data)),
             Out(Num(if status == OK then CONTINUE else NOT_OK)));
    }

    /** The part of a write after its size has been accepted: the target is looked up again. */
    method AcceptWrite(name: Name, client: Connection, byteToWrite: nat, ghost data: seq<byte>)
      returns (err: nat, status: nat)
      requires mem.Valid() && byteToWrite == |data|
      requires Has(mem.files, name) ==> |data| < TWO_63 && !NeverEnds(|data|)
      requires [Msg(data)] <= client.inbox
      modifies mem, mem.repr, client
      ensures mem.Valid() && mem.repr == old(mem.repr)
      ensures client.inbox == old(client.inbox)[1..]
      ensures if Has(old(mem.files), name) then
                err == 0 && status == OK
                && client.trace == old(client.trace) + [Out(Num(CONTINUE)), In(Msg(data)), Out(Num(CONTINUE))]
                && mem.Abs() == Appended(old(mem.Abs()), name, data)
              else
                err == ENOENT && status == NOT_OK && mem.Abs() == old(mem.Abs())
                && client.trace == old(client.trace) + [Out(Num(CONTINUE)), In(Msg(data)), Out(Num(NOT_OK))]
    {
      client.SendNumber(CONTINUE);
      var msg := client.RecvMessage();
      var file, errno := mem.FindFile(name, FIFO);
      if file == null {
        client.SendNumber(NOT_OK);
        return ENOENT, NOT_OK;
      }
      client.SendNumber(CONTINUE);
      var wrote := mem.WriteToFile(file, msg, byteToWrite);
      return 0, OK;
    }

    method HandleRemove(name: Name) returns (err: nat, status: nat)
      requires mem.Valid()
      modifies mem, mem.repr
      ensures mem.Valid() && mem.repr == old(mem.repr)
      ensures var r := RemoveReply(old(mem.Abs()), policy, name);
              mem.Abs() == r.store && err == r.err && status == r.status && r.sent == []
    {
      ghost var st := mem.Abs();
      var file, errno := mem.FindFile(name, policy);
      if file == null {
        return errno, NOT_OK;
      }
      PromoteKeeps(st.files, policy, name);
      MoveThenPopIsDeletion(mem.files, FIFO, name);
      var r := mem.RemoveGenericFile(file);
      return 0, OK;
    }

    /** Sends the first files of the list, each once; the walk never leaves the list. */
    method HandleReadN(flags: int, client: Connection) returns (err: nat, status: nat)
      requires mem.Valid() && mem.nCurrentFile < TWO_31 && -TWO_31 <= flags < TWO_31
      modifies client
      ensures client.inbox == old(client.inbox)
      ensures var r := ReadNReply(mem.Abs(), flags);
              mem.Abs() == r.store && err == r.err && status == r.status
              && client.trace == old(client.trace) + Outs(r.sent)
    {
      var numberOfFiles := flags;
      var actualFiles := mem.GetActualFiles();
      if actualFiles == 0 {
        client.SendNumber(NO_CONTINUE);
        return ENODATA, NOT_OK;
      }
      if U32(numberOfFiles) > actualFiles {
        client.SendNumber(actualFiles);
        numberOfFiles := actualFiles;
      } else {
        if numberOfFiles == 0 {
          numberOfFiles := actualFiles;
        }
        client.SendNumber(numberOfFiles);
      }
      SendFiles(numberOfFiles, client);
      return 0, OK;
    }

    method SendFiles(numberOfFiles: nat, client: Connection)
      requires mem.Valid() && numberOfFiles <= |mem.files|
      modifies client
      ensures client.inbox == old(client.inbox)
      ensures client.trace == old(client.trace) + Outs([Num(CONTINUE)] + SentFiles(mem.files[..numberOfFiles]))
    {
      var file := mem.GetHead();
      client.SendNumber(CONTINUE);
      ghost var before := old(client.trace);
      for i := 0 to numberOfFiles
        invariant file == At(mem.nodes, i)
        invariant client.inbox == old(client.inbox)
        invariant client.trace == before + Outs([Num(CONTINUE)] + SentFiles(mem.files[..i]))
      {
        assert Slot(mem.nodes, mem.files, i);
        client.SendMessage(file.buffer);
        client.SendNumber(file.usedMemory);
        file := file.next;
        assert mem.files[..i + 1][..i] == mem.files[..i];
      }
    }

    // ---- the request loop ----

    /** The switch on the operation. */
    method HandleRequest(req: Request, client: Connection) returns (err: nat, status: nat)
      requires mem.Valid() && Manageable(mem.Abs(), policy, req) && Sends(req) <= client.inbox
      modifies mem, mem.repr, client
      ensures mem.Valid() && fresh(mem.repr - old(mem.repr))
      ensures var r := Handle(old(mem.Abs()), policy, req);
              mem.Abs() == r.store && err == r.err && status == r.status
      ensures client.trace == old(client.trace) + Exchange(old(mem.Abs()), policy, req)
    {
      match req
      case Open(name, flags) => err, status := HandleOpen(name, flags);
      case Read(name) => err, status := HandleRead(name, client);
      case Write(name, data) => err, status := HandleWrite(name, client, data);
      case Remove(name) => err, status := HandleRemove(name);
      case ReadN(n) => err, status := HandleReadN(n, client);
      case Close => err, status := 0, OK;
    }

    /** One turn of a run that can be served. */
    method ServeNext(ghost st: Store, ghost reqs: seq<Request>, ghost i: nat, req: Request, client: Connection)
      returns (result: (nat, nat))
      requires mem.Valid() && CanServe(st, policy, reqs) && i < |reqs| && req == reqs[i]
      requires mem.Abs() == Run(st, policy, reqs[..i]) && Sends(req) <= client.inbox
      modifies mem, mem.repr, client
      ensures mem.Valid() && fresh(mem.repr - old(mem.repr))
      ensures mem.Abs() == Run(st, policy, reqs[..i + 1]) && InCapacity(mem.Abs()) && mem.drift == 0
      ensures IsResult(st, policy, reqs, i, result) && Told(st, policy, reqs, i, client, old(client.trace))
    {
      NextIsManageable(st, policy, reqs, i);
      var err, status := HandleRequest(req, client);
      result := (err, status);
    }

    /** The same, among the connections of all the requests of the run. */
    method ServeTurn(ghost st: Store, reqs: seq<Request>, clients: seq<Connection>,
                     ghost befores: seq<seq<Io>>, i: nat) returns (result: (nat, nat))
      requires mem.Valid() && CanServe(st, policy, reqs) && i < |reqs|
      requires mem.Abs() == Run(st, policy, reqs[..i]) && Progress(st, policy, reqs, clients, befores, i)
      modifies mem, mem.repr, clients[i]
      ensures mem.Valid() && fresh(mem.repr - old(mem.repr))
      ensures mem.Abs() == Run(st, policy, reqs[..i + 1]) && InCapacity(mem.Abs()) && mem.drift == 0
      ensures IsResult(st, policy, reqs, i, result) && Progress(st, policy, reqs, clients, befores, i + 1)
    {
      forall j | 0 <= j < |reqs| && j != i ensures clients[j] != clients[i] {
        assert Apart(clients, i, j);
      }
      assert Waiting(reqs[i], clients[i], befores[i]);
      result := ServeNext(st, reqs, i, reqs[i], clients[i]);
    }

    /** Serves requests one after another, each with the stretch of its connection that belongs to
        it. From a store within its capacities, if each request is safe when its turn comes, the
        counters stay within the limits, and store, results and what goes out on each connection
        are those of the run. */
    method Serve(reqs: seq<Request>, clients: seq<Connection>, ghost befores: seq<seq<Io>>)
      returns (results: seq<(nat, nat)>)
      requires mem.Valid() && CanServe(mem.Abs(), policy, reqs)
      requires Progress(mem.Abs(), policy, reqs, clients, befores, 0)
      modifies mem, mem.repr, clients
      ensures mem.Valid() && mem.Abs() == Run(old(mem.Abs()), policy, reqs)
      ensures mem.nCurrentFile <= mem.MaxFiles && mem.nCurrentMemoryUsed <= mem.MaxMemory
      ensures results == Results(old(mem.Abs()), policy, reqs)
      ensures Progress(old(mem.Abs()), policy, reqs, clients, befores, |reqs|)
    {
      ghost var st := mem.Abs();
      results := [];
      assert reqs[..0] == [];
      for i := 0 to |reqs|
        invariant mem.Valid() && fresh(mem.repr - old(mem.repr))
        invariant mem.Abs() == Run(st, policy, reqs[..i]) && InCapacity(mem.Abs()) && mem.drift == 0
        invariant results == Results(st, policy, reqs[..i])
        invariant Progress(st, policy, reqs, clients, befores, i)
      {
        var result := ServeTurn(st, reqs, clients, befores, i);
        results := results + [result];
        OneMoreResult(st, policy, reqs, i);
      }
      SmallUnsigned(Total(mem.files));
      assert reqs[..|reqs|] == reqs;
    }
  }

  /** Every request has its own connection; on those of the first `n` what the run sends has gone out
      after what was there before, and on the others nothing has happened and what their requests
      announce will arrive. */
  ghost predicate Progress(st: Store, policy: Policy, reqs: seq<Request>, clients: seq<Connection>,
                           befores: seq<seq<Io>>, n: nat)
    reads clients
  {
    && |clients| == |befores| == |reqs| && n <= |reqs|
    && (forall i, j :: 0 <= i < |clients| && 0 <= j < |clients| && i != j ==> Apart(clients, i, j))
    && (forall j :: 0 <= j < n ==> Told(st, policy, reqs, j, clients[j], befores[j]))
    && (forall j :: n <= j < |reqs| ==> Waiting(reqs[j], clients[j], befores[j]))
  }

  /** Error and status are those of request `i` of the run. */
  predicate IsResult(st: Store, policy: Policy, reqs: seq<Request>, i: nat, result: (nat, nat))
    requires i < |reqs|
  {
    result == (ReplyTo(st, policy, reqs, i).err, ReplyTo(st, policy, reqs, i).status)
  }

  /** What goes over the connection for request `i` of the run has done so. */
  ghost predicate Told(st: Store, policy: Policy, reqs: seq<Request>, i: nat, client: Connection, before: seq<Io>)
    requires i < |reqs|
    reads client
  {
    client.trace == before + Exchange(Run(st, policy, reqs[..i]), policy, reqs[i])
  }

  /** Error and status of each request of a run. */
  function Results(st: Store, policy: Policy, reqs: seq<Request>): seq<(nat, nat)> {
    if reqs == [] then []
    else
      var n := |reqs| - 1;
      var r := ReplyTo(st, policy, reqs, n);
      Results(st, policy, reqs[..n]) + [(r.err, r.status)]
  }

  lemma OneMoreResult(st: Store, policy: Policy, reqs: seq<Request>, i: nat)
    requires i < |reqs|
    ensures var r := ReplyTo(st, policy, reqs, i);
            Results(st, policy, reqs[..i + 1]) == Results(st, policy, reqs[..i]) + [(r.err, r.status)]
  {
    assert reqs[..i + 1][..i] == reqs[..i];
  }

  /** A request on whose connection nothing has happened since: what the client sends after it will
      arrive. */
  ghost predicate Waiting(req: Request, client: Connection, before: seq<Io>)
    reads client
  {
    Sends(req) <= client.inbox && client.trace == before
  }

  ghost predicate Apart(clients: seq<Connection>, i: nat, j: nat)
    requires i < |clients| && j < |clients|
  {
    clients[i] != clients[j]
  }

  /** What the client sends after a request, if it comes to that. */
  function Sends(req: Request): seq<Token> {
    if req.Write? then [Num(|req.data|), Msg(req.data)] else []
  }

  /** The writing of a granted block comes to an end, and READN can count the files. */
  predicate Manageable(st: Store, policy: Policy, req: Request) {
    match req
    case Write(name, data) => Granted(st, policy, name, |data|) ==> |data| < TWO_63 && !NeverEnds(|data|)
    case ReadN(n) => |st.files| < TWO_31 && -TWO_31 <= n < TWO_31
    case _ => true
  }

  ghost predicate CanServe(st: Store, policy: Policy, reqs: seq<Request>) {
    && InCapacity(st) && Regular(st) && st.maxFiles < TWO_31 && Unique(st.files)
    && AllSafe(st, policy, reqs) && BlocksFit(st.maxMemory, reqs)
    && forall r <- reqs :: r.ReadN? ==> -TWO_31 <= r.n < TWO_31
  }

  function ReplyTo(st: Store, policy: Policy, reqs: seq<Request>, i: nat): Reply
    requires i < |reqs|
  {
    Handle(Run(st, policy, reqs[..i]), policy, reqs[i])
  }

  lemma NextIsManageable(st: Store, policy: Policy, reqs: seq<Request>, i: nat)
    requires CanServe(st, policy, reqs) && i < |reqs|
    ensures Manageable(Run(st, policy, reqs[..i]), policy, reqs[i])
    ensures Run(st, policy, reqs[..i + 1]) == ReplyTo(st, policy, reqs, i).store
    ensures InCapacity(Run(st, policy, reqs[..i + 1])) && Run(st, policy, reqs[..i + 1]).drift == 0
  {
    assert reqs[i] in reqs && reqs[..i + 1][..i] == reqs[..i];
    SafePrefix(st, policy, reqs, i);
    SafePrefix(st, policy, reqs, i + 1);
    RunKeeps(st, policy, reqs[..i]);
    ManageableWithin(Run(st, policy, reqs[..i]), policy, reqs[i]);
  }

  lemma ManageableWithin(st: Store, policy: Policy, req: Request)
    requires st.drift == 0 == Handle(st, policy, req).store.drift
    requires |st.files| < TWO_31 && (req.ReadN? ==> -TWO_31 <= req.n < TWO_31)
    ensures Manageable(st, policy, req)
  {
    DriftIff(st, policy, req);
  }

  lemma InARow(before: seq<Io>, a: Io, b: Io, c: Io, d: Io, e: Io)
    ensures before + [a] + [b] + [c, d, e] == before + [a, b, c, d, e]
  {
  }

  lemma OpenedInFront(name: Name, room: seq<File>)
    ensures var files := [File(name, [], false)] + room;
            Has(files, name) && SetOpen(files, name) == [NewFile(name)] + room
  {
    var files := [File(name, [], false)] + room;
    assert IndexOf(files, name) == 0;
  }

  /** Making room evicts; it never brings a name in. */
  lemma StillAbsent(st: Store, nFiles: nat, amount: nat, name: Name)
    requires !Has(st.files, name)
    ensures !Has(MakeRoom(st, nFiles, amount).files, name)
  {
    MakeRoomPrefix(st, nFiles, amount);
    HasPrefix(st.files, |MakeRoom(st, nFiles, amount).files|, name);
  }
}
