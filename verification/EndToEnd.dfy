/** What a call of the client library comes to, from the arguments that its caller gave to what the
    caller is handed and what the server's store then holds, whatever the interleaving in between. */
module EndToEnd {
  import opened CInt
  import opened WriteLoop
  import opened Names
  import opened FileStore
  import opened Protocol
  import opened Requests
  import opened Capacity
  import opened History
  import opened Wire
  import opened Sessions
  import opened Parties
  import opened Agreement
  import opened Outcomes

  /** The call has been played until neither side could make a move. */
  ghost predicate Played(p: Policy, st: Store, call: Call, moves: seq<Move>) {
    IsRun(Dialogue(p), Start(st, call), moves) && !SomeMove(Dialogue(p), After(Dialogue(p), Start(st, call), moves))
  }

  /** Where the two sides then are. */
  ghost function Rest(p: Policy, st: Store, call: Call, moves: seq<Move>): System<Client, Server>
    requires Played(p, st, call, moves)
  {
    After(Dialogue(p), Start(st, call), moves)
  }

  /** Sizes fit the C types that carry them. */
  ghost predicate Fair(st: Store) {
    Unique(st.files) && |st.files| < TWO_31
  }

  /** The caller gets this, and the server has answered with the same. */
  predicate Answered(y: System<Client, Server>, ret: int, errno: nat, out: Delivery) {
    y.client == Returned(ret, errno, out) && y.server.Finished? && y.server.err == errno && y.server.status == ret
  }

  /** The store when the request has been served. */
  function Left(y: System<Client, Server>): Store
    requires y.server.Finished?
  {
    y.server.st
  }

  lemma CreateCall(p: Policy, st: Store, path: Name, moves: seq<Move>, n: Name)
    requires Fair(st) && Played(p, st, OpenFile(path, O_CREATE), moves)
    ensures var y := Rest(p, st, OpenFile(path, O_CREATE), moves);
            if Has(st.files, path) then Answered(y, NOT_OK, EEXIST, Nothing) && Left(y) == st
            else
              && Answered(y, OK, 0, Nothing)
              && var kept := IndexOf(st.files, n) < |MakeRoom(st, 1, 0).files|;
                 FileAt(Left(y).files, n) == if n == path then Some(File(path, [], true))
                                             else if kept then FileAt(st.files, n) else None
  {
    var k := DialogueAgreement(p, st, OpenFile(path, O_CREATE), moves);
    CreateOutcome(st, p, path, n);
  }

  lemma OpenCall(p: Policy, st: Store, path: Name, flags: int, moves: seq<Move>, n: Name)
    requires Fair(st) && Played(p, st, OpenFile(path, flags), moves)
    requires flags != O_CREATE && -TWO_31 <= flags < TWO_31
    ensures var y := Rest(p, st, OpenFile(path, flags), moves);
            if Has(st.files, path) then
              && Answered(y, OK, 0, Nothing)
              && FileAt(Left(y).files, n) == if n == path then Some(Lookup(st.files, path).(isOpen := true))
                                             else FileAt(st.files, n)
            else Answered(y, NOT_OK, ENOENT, Nothing) && Left(y) == st
  {
    var k := DialogueAgreement(p, st, OpenFile(path, flags), moves);
    OpenOutcome(st, p, path, flags, n);
  }

  /** The caller gets the content and its size, and no file has changed. */
  lemma ReadCall(p: Policy, st: Store, path: Name, moves: seq<Move>, n: Name)
    requires Fair(st) && Played(p, st, ReadFile(path), moves)
    ensures var y := Rest(p, st, ReadFile(path), moves);
            && (match FileAt(st.files, path)
                case None => Answered(y, NOT_OK, ENOENT, Nothing)
                case Some(f) =>
                  if f.isOpen then Answered(y, OK, 0, Content(f.content, |f.content|))
                  else Answered(y, NOT_OK, EACCES, Nothing))
            && FileAt(Left(y).files, n) == FileAt(st.files, n)
  {
    var k := DialogueAgreement(p, st, ReadFile(path), moves);
    ReadOutcome(st, p, path, n);
  }

  /** A file that is not empty, and that the loop of the server writes once. */
  lemma WriteCall(p: Policy, st: Store, path: Name, data: seq<byte>, moves: seq<Move>, n: Name)
    requires Fair(st) && Played(p, st, WriteFile(path, data), moves)
    requires 0 < |data| < TWO_32
    ensures var y, looked := Rest(p, st, WriteFile(path, data), moves), Looked(st, p, path);
            if !Has(st.files, path) then Answered(y, NOT_OK, ENONET, Nothing) && Left(y) == st
            else if CacheErrno(looked, 0, |data|) == E2BIG then
              Answered(y, NOT_OK, E2BIG, Nothing) && FileAt(Left(y).files, n) == FileAt(st.files, n)
            else
              && y.server.Finished?
              && Appends(st, p, path, data, Left(y), n)
              && if Granted(st, p, path, |data|) then Answered(y, OK, 0, Nothing)
                 else Answered(y, NOT_OK, ENOENT, Nothing)
  {
    var r := WriteRests(p, st, path, data, moves);
    WriteOutcome(st, p, path, data, n);
    assert Written(data) == data by { assert Times(data, 0) + data == data; }
  }

  /** The file of `path` is longer by the block if it is granted, and of the others those are left that
      eviction keeps. */
  predicate Appends(st: Store, p: Policy, path: Name, data: seq<byte>, after: Store, n: Name)
    requires Has(st.files, path)
  {
    var looked := Looked(st, p, path);
    var kept := IndexOf(looked.files, n) < |MakeRoom(looked, 0, |data|).files|;
    && (n != path ==> FileAt(after.files, n) == if kept then FileAt(st.files, n) else None)
    && (Granted(st, p, path, |data|) ==>
          var f := Lookup(st.files, path);
          FileAt(after.files, path) == Some(f.(content := f.content + data)))
  }

  lemma WriteRests(p: Policy, st: Store, path: Name, data: seq<byte>, moves: seq<Move>) returns (r: Reply)
    requires Fair(st) && Played(p, st, WriteFile(path, data), moves)
    requires 0 < |data| < TWO_32
    ensures r == Handle(st, p, Write(path, data))
    ensures var y := Rest(p, st, WriteFile(path, data), moves);
            Answered(y, r.status, r.err, Nothing) && Left(y) == r.store
  {
    r := Handle(st, p, Write(path, data));
    var k := DialogueAgreement(p, st, WriteFile(path, data), moves);
  }

  lemma RemoveCall(p: Policy, st: Store, path: Name, moves: seq<Move>, n: Name)
    requires Fair(st) && Played(p, st, RemoveFile(path), moves)
    ensures var y := Rest(p, st, RemoveFile(path), moves);
            && Answered(y, if Has(st.files, path) then OK else NOT_OK,
                        if Has(st.files, path) then 0 else ENOENT, Nothing)
            && FileAt(Left(y).files, n) == if n == path then None else FileAt(st.files, n)
  {
    var k := DialogueAgreement(p, st, RemoveFile(path), moves);
    RemoveOutcome(st, p, path, n);
  }

  /** The caller gets as many files as it asked for, from the head of the list, or all of them if it
      asked for more than there are, for none or for a negative number. */
  lemma ReadNCall(p: Policy, st: Store, n: int, moves: seq<Move>)
    requires Fair(st) && Played(p, st, ReadNFiles(n), moves)
    requires st.files != [] && -TWO_31 <= n < TWO_31
    ensures var y := Rest(p, st, ReadNFiles(n), moves);
            && y.client.Returned? && y.client.out.Contents?
            && Answered(y, OK, 0, y.client.out) && Left(y) == st
            && FirstFiles(st, n, y.client.out.files)
  {
    var k := DialogueAgreement(p, st, ReadNFiles(n), moves);
    FilesDelivered(st, n);
    ReadNOutcome(st, p, FlagsOf(ReadNFiles(n)));
  }

  ghost predicate FirstFiles(st: Store, n: int, c: seq<seq<byte>>) {
    && |c| == (if n <= 0 || n > |st.files| then |st.files| else n)
    && forall i :: 0 <= i < |c| ==> c[i] == st.files[i].content
  }

  lemma FilesDelivered(st: Store, n: int)
    requires -TWO_31 <= n < TWO_31 && |st.files| < TWO_31
    ensures var d := Delivered(st, ReadNFiles(n)); d.Contents? && FirstFiles(st, n, d.files)
  {
    ContentsAre(st.files[..ReadCount(FlagsOf(ReadNFiles(n)), |st.files|)]);
  }

  lemma {:induction false} ContentsAre(files: seq<File>)
    ensures forall i :: 0 <= i < |files| ==> ContentsOf(files)[i] == files[i].content
  {
    if files != [] {
      ContentsAre(files[1..]);
      forall i | 0 <= i < |files| ensures ContentsOf(files)[i] == files[i].content {
        if i > 0 { assert ContentsOf(files)[i] == ContentsOf(files[1..])[i - 1]; }
      }
    }
  }

  lemma CloseCall(p: Policy, st: Store, moves: seq<Move>)
    requires Fair(st) && Played(p, st, CloseConnection, moves)
    ensures var y := Rest(p, st, CloseConnection, moves); Answered(y, OK, 0, Nothing) && Left(y) == st
  {
    var k := DialogueAgreement(p, st, CloseConnection, moves);
    CloseOutcome(st, p);
  }

  /** After every run of requests from the empty cache, readFile hands its caller the bytes granted to
      the name since it was last created, in order, or reports ENOENT if the name is not resident. */
  lemma ReadCallReturnsWrites(maxFiles: nat, maxMemory: nat, p: Policy, reqs: seq<Request>, path: Name,
                              moves: seq<Move>)
    requires forall e <- LogOf(EmptyStore(maxFiles, maxMemory), p, reqs) :: Completed(e)
    requires var st := Run(EmptyStore(maxFiles, maxMemory), p, reqs);
             |st.files| < TWO_31 && Played(p, st, ReadFile(path), moves)
    ensures var start := EmptyStore(maxFiles, maxMemory);
            var st := Run(start, p, reqs);
            var y, bytes := Rest(p, st, ReadFile(path), moves), Replay(LogOf(start, p, reqs), path);
            if Has(st.files, path) then Answered(y, OK, 0, Content(bytes, |bytes|))
            else Answered(y, NOT_OK, ENOENT, Nothing)
  {
    var start := EmptyStore(maxFiles, maxMemory);
    var st := Run(start, p, reqs);
    StoreIsReplay(maxFiles, maxMemory, p, reqs);
    ReadCall(p, st, path, moves, path);
    if Has(st.files, path) {
      assert Faithful(st.files[IndexOf(st.files, path)], LogOf(start, p, reqs));
    }
  }
}
