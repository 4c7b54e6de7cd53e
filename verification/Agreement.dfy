/** The client's library functions against the server's request handling: call by call, the two
    sides agree on where they come to rest, which with three exceptions is the end of the call. */
module Agreement {
  import opened CInt
  import opened WriteLoop
  import opened Names
  import opened FileStore
  import opened Protocol
  import opened Requests
  import opened Wire
  import opened Sessions
  import opened Parties

  function RequestOf(call: Call): Request {
    match call
    case OpenFile(path, flags) => Open(path, flags)
    case ReadFile(path) => Read(path)
    case WriteFile(path, data) => Write(path, data)
    case RemoveFile(path) => Remove(path)
    case ReadNFiles(_) => ReadN(FlagsOf(call))
    case CloseConnection => Close
  }

  /** Arguments and store fit the C types that carry them. */
  predicate InRange(st: Store, call: Call) {
    && -TWO_31 <= FlagsOf(call) < TWO_31
    && |st.files| < TWO_31
    && (call.WriteFile? ==> |call.data| < TWO_63)
  }

  function ContentsOf(files: seq<File>): (c: seq<seq<byte>>)
    ensures |c| == |files|
  {
    if files == [] then [] else [files[0].content] + ContentsOf(files[1..])
  }

  /** What the client should be handed. */
  function Delivered(st: Store, call: Call): Delivery {
    match call
    case ReadFile(path) =>
      if Has(st.files, path) && Lookup(st.files, path).isOpen then
        var content := Lookup(st.files, path).content;
        Content(content, |content|)
      else Nothing
    case ReadNFiles(_) => Contents(ContentsOf(st.files[..ReadCount(FlagsOf(call), |st.files|)]))
    case _ => Nothing
  }

  /** The three calls that never end: readNFiles on an empty store; writeFile of an empty local file to
      a resident name; and writeFile of a block for which the worker's loop does not end, if it is
      granted and the target outlives the eviction. */
  predicate Endless(p: Policy, st: Store, call: Call) {
    || EmptyReadN(st, call)
    || EmptyWrite(st, call)
    || EndlessWrite(p, st, call)
  }

  predicate EmptyReadN(st: Store, call: Call) {
    call.ReadNFiles? && st.files == []
  }

  predicate EmptyWrite(st: Store, call: Call) {
    call.WriteFile? && call.data == [] && Has(st.files, call.path)
  }

  predicate EndlessWrite(p: Policy, st: Store, call: Call) {
    call.WriteFile? && NeverEnds(|call.data|) && Granted(st, p, call.path, |call.data|)
  }

  /** Where the client comes to rest: with the status and the error that the server set, or waiting
      for an error, reading an empty file or waiting for a status. */
  function ClientEnd(p: Policy, st: Store, call: Call): Client {
    if EmptyReadN(st, call) then GetError(ENODATA, Nothing)
    else if EmptyWrite(st, call) then Spinning(call)
    else if EndlessWrite(p, st, call) then GetStatus(Nothing)
    else
      var r := Handle(st, p, RequestOf(call));
      Returned(r.status, r.err, Delivered(st, call))
  }

  /** And the server. */
  function ServerEnd(p: Policy, st: Store, call: Call): Server {
    if EmptyWrite(st, call) then RecvContent(RoomFor(p, st, call), call.path, 0)
    else if EndlessWrite(p, st, call) then Writing(RoomFor(p, st, call), call.path)
    else
      var r := Handle(st, p, RequestOf(call));
      Finished(r.store, r.err, r.status)
  }

  /** The store after a write's eviction. */
  function RoomFor(p: Policy, st: Store, call: Call): Store
    requires call.WriteFile?
  {
    MakeRoom(Looked(st, p, call.path), 0, |call.data|)
  }

  // ---- exchanges ----

  lemma ToServer(p: Policy, c: Client, s: Server, n: nat, ce: Client, se: Server)
    requires ClientAct(c).Snd? && ServerAct(s) == Rcv(KindOf(ClientAct(c).token))
    requires Agree(Dialogue(p), ClientSent(c), ServerGot(p, s, ClientAct(c).token), n, ce, se)
    ensures Agree(Dialogue(p), c, s, n + 1, ce, se)
  {
  }

  lemma ToClient(p: Policy, c: Client, t: Token, k: Server, n: nat, ce: Client, se: Server)
    requires ClientAct(c) == Rcv(KindOf(t))
    requires Agree(Dialogue(p), ClientGot(c, t), k, n, ce, se)
    ensures Agree(Dialogue(p), c, Sending(t, k), n + 1, ce, se)
  {
  }

  lemma AtRest(p: Policy, c: Client, s: Server)
    requires !ClientAct(c).Snd? && !ServerAct(s).Snd?
    ensures Agree(Dialogue(p), c, s, 0, c, s)
  {
  }

  /** The status and error that close every request. */
  lemma ResponseAgrees(p: Policy, out: Delivery, st: Store, err: nat, status: nat)
    requires err < TWO_31 && status < TWO_31 && (status == OK ==> err == 0)
    ensures Agree(Dialogue(p), GetStatus(out), Respond(st, err, status), 2,
                  Returned(status, err, out), Finished(st, err, status))
  {
    Int32Exact(err);
    Int32Exact(status);
    var c, s := Returned(status, err, out), Finished(st, err, status);
    AtRest(p, c, s);
    ToClient(p, GetError(status, out), Num(err), s, 0, c, s);
    ToClient(p, GetStatus(out), Num(status), Sending(Num(err), s), 1, c, s);
  }

  lemma {:induction false} ParsesBack(chars: seq<byte>)
    requires forall i :: 0 <= i < |chars| ==> chars[i] != 0
    ensures UpToZero(chars + [0]) == chars
  {
    if chars != [] {
      ParsesBack(chars[1..]);
      assert (chars + [0])[1..] == chars[1..] + [0];
      assert [chars[0]] + chars[1..] == chars;
    }
  }

  lemma FlagsAgree(p: Policy, st: Store, call: Call, n: nat, ce: Client, se: Server)
    requires InRange(st, call)
    requires var server := Dispatch(p, st, OpCode(call), PathOf(call), FlagsOf(call));
             Agree(Dialogue(p), AfterRequest(call), server, n, ce, se)
    ensures Agree(Dialogue(p), SendFlags(call), RecvFlags(st, OpCode(call), CString(PathOf(call))), n + 1, ce, se)
  {
    var op, path, flags := OpCode(call), PathOf(call), FlagsOf(call);
    ParsesBack(path.chars);
    LowBits(flags);
    Int32Exact(flags);
    assert ParseName(CString(path)) == Some(path) && Int32(U64(flags)) == flags;
    ToServer(p, SendFlags(call), RecvFlags(st, op, CString(path)), n, ce, se);
  }

  /** Operation, name and flags reach the worker as the client gave them. */
  lemma RequestAgrees(p: Policy, st: Store, call: Call, n: nat, ce: Client, se: Server)
    requires InRange(st, call)
    requires var server := Dispatch(p, st, OpCode(call), PathOf(call), FlagsOf(call));
             Agree(Dialogue(p), AfterRequest(call), server, n, ce, se)
    ensures Agree(Dialogue(p), SendOp(call), RecvOp(st), n + 3, ce, se)
  {
    FlagsAgree(p, st, call, n, ce, se);
    Int32Exact(OpCode(call));
    ToServer(p, SendName(call), RecvName(st, OpCode(call)), n + 1, ce, se);
    ToServer(p, SendOp(call), RecvOp(st), n + 2, ce, se);
  }

  // ---- call by call ----

  lemma ReadAgrees(p: Policy, st: Store, call: Call) returns (n: nat)
    requires call.ReadFile?
    ensures Agree(Dialogue(p), AfterRequest(call), Replying(ReadReply(st, p, call.path)), n,
                  ClientEnd(p, st, call), ServerEnd(p, st, call))
  {
    var r, out := ReadReply(st, p, call.path), Delivered(st, call);
    var ce, se := ClientEnd(p, st, call), ServerEnd(p, st, call);
    var end := Respond(r.store, r.err, r.status);
    ResponseAgrees(p, out, r.store, r.err, r.status);
    if !Has(st.files, call.path) {
      ToClient(p, Gate(call, 0), Num(NO_CONTINUE), end, 2, ce, se);
      EmitOne(Num(NO_CONTINUE), end);
      n := 3;
    } else {
      var content := Lookup(st.files, call.path).content;
      if Lookup(st.files, call.path).isOpen {
        var k1 := Sending(Msg(content), end);
        var k2 := Sending(Num(|content|), k1);
        var k3 := Sending(Num(CONTINUE), k2);
        ToClient(p, ReadContent(call, |content|), Msg(content), end, 2, ce, se);
        ToClient(p, ReadSize(call), Num(|content|), k1, 3, ce, se);
        ToClient(p, Gate(call, 1), Num(CONTINUE), k2, 4, ce, se);
        ToClient(p, Gate(call, 0), Num(CONTINUE), k3, 5, ce, se);
        EmitFour(Num(CONTINUE), Num(CONTINUE), Num(|content|), Msg(content), end);
        n := 6;
      } else {
        ToClient(p, Gate(call, 1), Num(NO_CONTINUE), end, 2, ce, se);
        ToClient(p, Gate(call, 0), Num(CONTINUE), Sending(Num(NO_CONTINUE), end), 3, ce, se);
        EmitTwo(Num(CONTINUE), Num(NO_CONTINUE), end);
        n := 4;
      }
    }
  }

  lemma EmitOne(a: Token, k: Server)
    ensures Emit([a], k) == Sending(a, k)
  {
    assert [a][1..] == [];
  }

  lemma EmitTwo(a: Token, b: Token, k: Server)
    ensures Emit([a, b], k) == Sending(a, Sending(b, k))
  {
    assert [a, b][1..] == [b];
    EmitOne(b, k);
  }

  lemma EmitFour(a: Token, b: Token, c: Token, d: Token, k: Server)
    ensures Emit([a, b, c, d], k) == Sending(a, Sending(b, Sending(c, Sending(d, k))))
  {
    assert [a, b, c, d][1..] == [b, c, d] && [b, c, d][1..] == [c, d];
    EmitTwo(c, d, k);
  }

  /** The part of a write after the target has been found. */
  lemma FoundAgrees(p: Policy, st: Store, call: Call) returns (n: nat)
    requires call.WriteFile? && Has(st.files, call.path)
    ensures Agree(Dialogue(p), Gate(call, 1),
                  ServerGot(p, RecvSize(Looked(st, p, call.path), call.path), Num(|call.data|)), n,
                  ClientEnd(p, st, call), ServerEnd(p, st, call))
  {
    var found := Looked(st, p, call.path);
    var room := RoomFor(p, st, call);
    if CacheErrno(found, 0, |call.data|) == E2BIG {
      var ce, se := Returned(NOT_OK, E2BIG, Nothing), Finished(room, E2BIG, NOT_OK);
      ResponseAgrees(p, Nothing, room, E2BIG, NOT_OK);
      ToClient(p, Gate(call, 1), Num(NO_CONTINUE), Respond(room, E2BIG, NOT_OK), 2, ce, se);
      n := 3;
    } else if call.data == [] {
      AtRest(p, Spinning(call), RecvContent(room, call.path, 0));
      ToClient(p, Gate(call, 1), Num(CONTINUE), RecvContent(room, call.path, 0), 0,
               Spinning(call), RecvContent(room, call.path, 0));
      n := 1;
    } else {
      n := ContentAgrees(p, room, call);
    }
  }

  /** What a write comes to after its size has been accepted. */
  function WriteEnds(room: Store, call: Call): (Client, Server)
    requires call.WriteFile?
  {
    if !Has(room.files, call.path) then (Returned(NOT_OK, ENOENT, Nothing), Finished(room, ENOENT, NOT_OK))
    else if NeverEnds(|call.data|) then (GetStatus(Nothing), Writing(room, call.path))
    else (Returned(OK, 0, Nothing), Finished(Appended(room, call.path, call.data), 0, OK))
  }

  /** The part of a write after its size has been accepted. */
  lemma ContentAgrees(p: Policy, room: Store, call: Call) returns (n: nat)
    requires call.WriteFile? && call.data != []
    ensures var (ce, se) := WriteEnds(room, call);
            var server := Sending(Num(CONTINUE), RecvContent(room, call.path, |call.data|));
            Agree(Dialogue(p), Gate(call, 1), server, n, ce, se)
  {
    var (ce, se) := WriteEnds(room, call);
    var s := RecvContent(room, call.path, |call.data|);
    n := WritingAgrees(p, room, call);
    ToServer(p, WriteContent(call), s, n, ce, se);
    ToClient(p, Gate(call, 1), Num(CONTINUE), s, n + 1, ce, se);
    n := n + 2;
  }

  /** And after its message has been sent. */
  lemma WritingAgrees(p: Policy, room: Store, call: Call) returns (n: nat)
    requires call.WriteFile? && call.data != []
    ensures var (ce, se) := WriteEnds(room, call);
            var server := ServerGot(p, RecvContent(room, call.path, |call.data|), Msg(call.data));
            Agree(Dialogue(p), Gate(call, 2), server, n, ce, se)
  {
    var (ce, se) := WriteEnds(room, call);
    assert call.data[..|call.data|] == call.data;
    if !Has(room.files, call.path) {
      ResponseAgrees(p, Nothing, room, ENOENT, NOT_OK);
      ToClient(p, Gate(call, 2), Num(NOT_OK), Respond(room, ENOENT, NOT_OK), 2, ce, se);
      n := 3;
    } else {
      n := 0;
      if NeverEnds(|call.data|) {
        AtRest(p, GetStatus(Nothing), se);
      } else {
        ResponseAgrees(p, Nothing, Appended(room, call.path, call.data), 0, OK);
        n := 2;
      }
      ToClient(p, Gate(call, 2), Num(CONTINUE), AfterWriting(room, call.path, call.data), n, ce, se);
      n := n + 1;
    }
  }

  lemma WriteAgrees(p: Policy, st: Store, call: Call) returns (n: nat)
    requires call.WriteFile?
    ensures Agree(Dialogue(p), AfterRequest(call), Dispatch(p, st, WRITE_FILE, call.path, 0), n,
                  ClientEnd(p, st, call), ServerEnd(p, st, call))
  {
    if !Has(st.files, call.path) {
      MissingAgrees(p, st, call);
      n := 3;
    } else {
      n := FoundAgrees(p, st, call);
      SizeAgrees(p, st, call, n, ClientEnd(p, st, call), ServerEnd(p, st, call));
      n := n + 2;
    }
  }

  lemma MissingAgrees(p: Policy, st: Store, call: Call)
    requires call.WriteFile? && !Has(st.files, call.path)
    ensures Agree(Dialogue(p), Gate(call, 0), Dispatch(p, st, WRITE_FILE, call.path, 0), 3,
                  Returned(NOT_OK, ENONET, Nothing), Finished(st, ENONET, NOT_OK))
  {
    ResponseAgrees(p, Nothing, st, ENONET, NOT_OK);
    ToClient(p, Gate(call, 0), Num(NOT_OK), Respond(st, ENONET, NOT_OK), 2,
             Returned(NOT_OK, ENONET, Nothing), Finished(st, ENONET, NOT_OK));
  }

  lemma SizeAgrees(p: Policy, st: Store, call: Call, n: nat, ce: Client, se: Server)
    requires call.WriteFile? && Has(st.files, call.path)
    requires var server := ServerGot(p, RecvSize(Looked(st, p, call.path), call.path), Num(|call.data|));
             Agree(Dialogue(p), Gate(call, 1), server, n, ce, se)
    ensures Agree(Dialogue(p), Gate(call, 0), Dispatch(p, st, WRITE_FILE, call.path, 0), n + 2, ce, se)
  {
    var server := RecvSize(Looked(st, p, call.path), call.path);
    ToServer(p, WriteSize(call), server, n, ce, se);
    ToClient(p, Gate(call, 0), Num(CONTINUE), server, n + 1, ce, se);
  }

  lemma {:induction false} SentFromFront(f: File, rest: seq<File>)
    ensures SentFiles([f] + rest) == [Msg(f.content), Num(|f.content|)] + SentFiles(rest)
  {
    var all := [f] + rest;
    if rest == [] {
      assert all[..0] == [];
    } else {
      var n := |rest| - 1;
      SentFromFront(f, rest[..n]);
      assert all[..|all| - 1] == [f] + rest[..n];
    }
  }

  lemma {:induction false} EmitConcat(a: seq<Token>, b: seq<Token>, k: Server)
    ensures Emit(a + b, k) == Emit(a, Emit(b, k))
  {
    if a == [] {
      assert a + b == b;
    } else {
      EmitConcat(a[1..], b, k);
      assert (a + b)[1..] == a[1..] + b;
    }
  }

  lemma OneFileAgrees(p: Policy, count: nat, got: seq<seq<byte>>, f: File, tail: Server, m: nat, ce: Client, se: Server)
    requires |got| < count
    requires Agree(Dialogue(p), NextFile(count, got + [f.content]), tail, m, ce, se)
    ensures Agree(Dialogue(p), NextFile(count, got), Sending(Msg(f.content), Sending(Num(|f.content|), tail)),
                  m + 2, ce, se)
  {
    var got' := got + [f.content];
    ToClient(p, ReadSizeN(count, got'), Num(|f.content|), tail, m, ce, se);
    ToClient(p, ReadFileN(count, got), Msg(f.content), Sending(Num(|f.content|), tail), m + 1, ce, se);
  }

  lemma ContentsFrom(got: seq<seq<byte>>, files: seq<File>)
    requires files != []
    ensures got + ContentsOf(files) == (got + [files[0].content]) + ContentsOf(files[1..])
  {
  }

  /** The loop of readNFiles takes in the files that the server's loop sends, one by one. */
  lemma {:induction false} FilesAgree(p: Policy, count: nat, got: seq<seq<byte>>, files: seq<File>, k: Server, n: nat,
                                      ce: Client, se: Server)
    requires |got| + |files| == count
    requires Agree(Dialogue(p), GetStatus(Contents(got + ContentsOf(files))), k, n, ce, se)
    ensures Agree(Dialogue(p), NextFile(count, got), Emit(SentFiles(files), k), n + 2 * |files|, ce, se)
    decreases |files|, 1
  {
    if files == [] {
      assert got + ContentsOf(files) == got;
      assert Emit(SentFiles(files), k) == k && NextFile(count, got) == GetStatus(Contents(got));
    } else {
      OneThenRestAgree(p, count, got, files, k, n, ce, se);
      EmitFromFront(files, k);
    }
  }

  lemma {:induction false} OneThenRestAgree(p: Policy, count: nat, got: seq<seq<byte>>, files: seq<File>, k: Server,
                                            n: nat, ce: Client, se: Server)
    requires |got| + |files| == count && files != []
    requires Agree(Dialogue(p), GetStatus(Contents(got + ContentsOf(files))), k, n, ce, se)
    ensures var f, tail := files[0], Emit(SentFiles(files[1..]), k);
            Agree(Dialogue(p), NextFile(count, got), Sending(Msg(f.content), Sending(Num(|f.content|), tail)),
                  n + 2 * |files|, ce, se)
    decreases |files|, 0
  {
    var f, rest := files[0], files[1..];
    ContentsFrom(got, files);
    FilesAgree(p, count, got + [f.content], rest, k, n, ce, se);
    OneFileAgrees(p, count, got, f, Emit(SentFiles(rest), k), n + 2 * |rest|, ce, se);
    assert n + 2 * |rest| + 2 == n + 2 * |files|;
  }

  lemma EmitFromFront(files: seq<File>, k: Server)
    requires files != []
    ensures Emit(SentFiles(files), k)
         == Sending(Msg(files[0].content), Sending(Num(|files[0].content|), Emit(SentFiles(files[1..]), k)))
  {
    var f, rest := files[0], files[1..];
    assert files == [f] + rest;
    SentFromFront(f, rest);
    EmitConcat([Msg(f.content), Num(|f.content|)], SentFiles(rest), k);
    EmitTwo(Msg(f.content), Num(|f.content|), Emit(SentFiles(rest), k));
  }

  lemma ReadNAgrees(p: Policy, st: Store, call: Call) returns (n: nat)
    requires call.ReadNFiles? && InRange(st, call) && st.files != []
    ensures Agree(Dialogue(p), AfterRequest(call), Replying(ReadNReply(st, FlagsOf(call))), n,
                  ClientEnd(p, st, call), ServerEnd(p, st, call))
  {
    var k := ReadCount(FlagsOf(call), |st.files|);
    var files, end := st.files[..k], Respond(st, 0, OK);
    var tail := Emit(SentFiles(files), end);
    AllFilesAgree(p, st, files);
    CountedAgrees(p, call, k, tail, 2 + 2 * k, ClientEnd(p, st, call), ServerEnd(p, st, call));
    EmitConcat([Num(k), Num(CONTINUE)], SentFiles(files), end);
    EmitTwo(Num(k), Num(CONTINUE), tail);
    n := 4 + 2 * k;
  }

  /** readNFiles on an empty store: the refusal takes the place of the count and the status that of
      the gate, so the client takes the error for the status and waits for an error for ever. */
  lemma EmptyReadNAgrees(p: Policy, st: Store, call: Call)
    requires EmptyReadN(st, call)
    ensures Agree(Dialogue(p), AfterRequest(call), Replying(ReadNReply(st, FlagsOf(call))), 3,
                  GetError(ENODATA, Nothing), Finished(st, ENODATA, NOT_OK))
  {
    var ce, se := GetError(ENODATA, Nothing), Finished(st, ENODATA, NOT_OK);
    ShiftedResponse(p, st);
    ToClient(p, AwaitCount(call), Num(NO_CONTINUE), Respond(st, ENODATA, NOT_OK), 2, ce, se);
    EmitOne(Num(NO_CONTINUE), Respond(st, ENODATA, NOT_OK));
  }

  lemma ShiftedResponse(p: Policy, st: Store)
    ensures Agree(Dialogue(p), GateN(NO_CONTINUE), Respond(st, ENODATA, NOT_OK), 2,
                  GetError(ENODATA, Nothing), Finished(st, ENODATA, NOT_OK))
  {
    var ce, se := GetError(ENODATA, Nothing), Finished(st, ENODATA, NOT_OK);
    AtRest(p, ce, se);
    ToClient(p, GetStatus(Nothing), Num(ENODATA), se, 0, ce, se);
    ToClient(p, GateN(NO_CONTINUE), Num(NOT_OK), Sending(Num(ENODATA), se), 1, ce, se);
  }

  lemma AllFilesAgree(p: Policy, st: Store, files: seq<File>)
    ensures Agree(Dialogue(p), NextFile(|files|, []), Emit(SentFiles(files), Respond(st, 0, OK)), 2 + 2 * |files|,
                  Returned(OK, 0, Contents(ContentsOf(files))), Finished(st, 0, OK))
  {
    var out := Contents(ContentsOf(files));
    ResponseAgrees(p, out, st, 0, OK);
    assert [] + ContentsOf(files) == ContentsOf(files);
    FilesAgree(p, |files|, [], files, Respond(st, 0, OK), 2, Returned(OK, 0, out), Finished(st, 0, OK));
  }

  lemma CountedAgrees(p: Policy, call: Call, k: nat, tail: Server, n: nat, ce: Client, se: Server)
    requires call.ReadNFiles? && 0 < k < TWO_31
    requires Agree(Dialogue(p), NextFile(k, []), tail, n, ce, se)
    ensures Agree(Dialogue(p), AwaitCount(call), Sending(Num(k), Sending(Num(CONTINUE), tail)), n + 2, ce, se)
  {
    Int32Exact(k);
    ToClient(p, GateN(k), Num(CONTINUE), tail, n, ce, se);
    ToClient(p, AwaitCount(call), Num(k), Sending(Num(CONTINUE), tail), n + 1, ce, se);
  }

  /** The calls that are answered at once. */
  lemma AtOnceAgrees(p: Policy, st: Store, call: Call)
    requires call.OpenFile? || call.RemoveFile? || call.CloseConnection?
    ensures Agree(Dialogue(p), AfterRequest(call), Dispatch(p, st, OpCode(call), PathOf(call), FlagsOf(call)), 2,
                  ClientEnd(p, st, call), ServerEnd(p, st, call))
  {
    var r := Handle(st, p, RequestOf(call));
    ResponseAgrees(p, Nothing, r.store, r.err, r.status);
  }

  /** Every call but APPEND and CLOSE_FILE comes to rest as it should, or as the endless ones do. */
  lemma CallAgrees(p: Policy, st: Store, call: Call) returns (n: nat)
    requires InRange(st, call)
    ensures Agree(Dialogue(p), SendOp(call), RecvOp(st), n, ClientEnd(p, st, call), ServerEnd(p, st, call))
  {
    var ce, se := ClientEnd(p, st, call), ServerEnd(p, st, call);
    if call.ReadFile? {
      n := ReadAgrees(p, st, call);
    } else if call.WriteFile? {
      n := WriteAgrees(p, st, call);
    } else if call.ReadNFiles? {
      if st.files == [] {
        EmptyReadNAgrees(p, st, call);
        n := 3;
      } else {
        n := ReadNAgrees(p, st, call);
      }
    } else {
      AtOnceAgrees(p, st, call);
      n := 2;
    }
    RequestAgrees(p, st, call, n, ce, se);
    n := n + 3;
  }

  // ---- every interleaving ----

  lemma StatusMatchesError(p: Policy, st: Store, req: Request)
    ensures var r := Handle(st, p, req);
            (r.status == OK <==> r.err == 0) && (r.status == OK || r.status == NOT_OK)
  {
  }

  function Start(st: Store, call: Call): System<Client, Server> {
    System(SendOp(call), RecvOp(st), [], [])
  }

  /** Nothing can be sent or received any more, and not both sides have stopped: one waits for what
      is not coming, or spins. */
  predicate Stuck(p: Policy, y: System<Client, Server>) {
    !SomeMove(Dialogue(p), y) && !(ClientAct(y.client) == Stop && ServerAct(y.server) == Stop)
  }

  /** Every call of the client library but APPEND and CLOSE_FILE, on any store, with any arguments:
      whatever the interleaving, the two sides make at most `2 * n` moves, and where no move is left
      both channels are empty and the two sides are where they come to rest. */
  lemma CallsComeToRest(p: Policy, st: Store, call: Call, moves: seq<Move>) returns (n: nat)
    requires InRange(st, call) && IsRun(Dialogue(p), Start(st, call), moves)
    ensures Agree(Dialogue(p), SendOp(call), RecvOp(st), n, ClientEnd(p, st, call), ServerEnd(p, st, call))
    ensures |moves| <= 2 * n
    ensures var now := After(Dialogue(p), Start(st, call), moves);
            SomeMove(Dialogue(p), now) || now == System(ClientEnd(p, st, call), ServerEnd(p, st, call), [], [])
  {
    n := CallAgrees(p, st, call);
    AgreementIsEnough(Dialogue(p), SendOp(call), RecvOp(st), n, ClientEnd(p, st, call), ServerEnd(p, st, call), moves);
  }

  /** For a call that is not endless that is its end: the client has the status and the error that the
      server set and the bytes it asked for, and the store is what the request makes of it. Success
      comes exactly with error 0, so the client never answers a success with -1. */
  lemma DialogueAgreement(p: Policy, st: Store, call: Call, moves: seq<Move>) returns (n: nat)
    requires InRange(st, call) && !Endless(p, st, call)
    requires IsRun(Dialogue(p), Start(st, call), moves)
    ensures |moves| <= 2 * n
    ensures var now := After(Dialogue(p), Start(st, call), moves);
            var r := Handle(st, p, RequestOf(call));
            !Stuck(p, now)
            && (!SomeMove(Dialogue(p), now) ==>
                  now == System(Returned(r.status, r.err, Delivered(st, call)),
                                Finished(r.store, r.err, r.status), [], []))
            && (r.status == OK <==> r.err == 0) && (r.status == OK || r.status == NOT_OK)
  {
    n := CallsComeToRest(p, st, call, moves);
    StatusMatchesError(p, st, RequestOf(call));
  }

  /** The resting place of a call is a place to be stuck in exactly for the endless ones. */
  lemma RestIsStuckIff(p: Policy, st: Store, call: Call)
    ensures Stuck(p, System(ClientEnd(p, st, call), ServerEnd(p, st, call), [], [])) <==> Endless(p, st, call)
  {
    var c, s := ClientEnd(p, st, call), ServerEnd(p, st, call);
    if EmptyReadN(st, call) {
      assert ClientAct(c) == Rcv(Number);
    } else if EmptyWrite(st, call) {
      assert ClientAct(c) == Spin;
    } else if EndlessWrite(p, st, call) {
      assert ServerAct(s) == Spin;
    } else {
      assert ClientAct(c) == Stop == ServerAct(s);
    }
    AtRestIsStuck(p, c, s);
  }

  lemma AtRestIsStuck(p: Policy, c: Client, s: Server)
    requires !ClientAct(c).Snd? && !ServerAct(s).Snd?
    ensures Stuck(p, System(c, s, [], [])) <==> !(ClientAct(c) == Stop == ServerAct(s))
  {
  }

  /** So every run of an endless call that has no move left is stuck, and no run of any other call
      is ever stuck. */
  lemma StuckIff(p: Policy, st: Store, call: Call, moves: seq<Move>)
    requires InRange(st, call) && IsRun(Dialogue(p), Start(st, call), moves)
    ensures var now := After(Dialogue(p), Start(st, call), moves);
            && (Stuck(p, now) ==> Endless(p, st, call))
            && (Endless(p, st, call) && !SomeMove(Dialogue(p), now) ==> Stuck(p, now))
  {
    var n := CallsComeToRest(p, st, call, moves);
    RestIsStuckIff(p, st, call);
  }

  /** And there is such a run: each of the three does get stuck. */
  lemma EndlessCallSticks(p: Policy, st: Store, call: Call) returns (moves: seq<Move>)
    requires InRange(st, call) && Endless(p, st, call)
    ensures IsRun(Dialogue(p), Start(st, call), moves) && Stuck(p, After(Dialogue(p), Start(st, call), moves))
  {
    var n := CallAgrees(p, st, call);
    var ce, se := ClientEnd(p, st, call), ServerEnd(p, st, call);
    moves := AgreementIsReached(Dialogue(p), SendOp(call), RecvOp(st), n, ce, se);
    RestIsStuckIff(p, st, call);
  }

  /** An input for each: nothing in the store, nothing in the local file, and 4 GiB in it, which any
      store admits that has one resident file and no bytes over its limit. */
  lemma EndlessInputs(p: Policy, name: Name, limit: nat, data: seq<byte>)
    requires limit < TWO_63 && |data| == TWO_32
    ensures var one := Store([NewFile(name)], 2, limit, 0, 0, 0, 0);
            && Endless(p, Store([], 2, limit, 0, 0, 0, 0), ReadNFiles(0))
            && Endless(p, one, WriteFile(name, []))
            && Endless(p, one, WriteFile(name, data))
  {
    var one := Store([NewFile(name)], 2, limit, 0, 0, 0, 0);
    TotalOne(NewFile(name));
    assert Int32(TWO_32) == 0 && Looked(one, p, name) == one;
    assert Legal(one, 0, TWO_32);
  }
}
