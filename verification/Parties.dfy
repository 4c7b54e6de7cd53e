/** The two sides of the dialogue as processes: the library functions of the client, and the client
    thread and worker that serve one request, each reduced to what it sends and waits for next. */
module Parties {
  import opened CInt
  import opened WriteLoop
  import opened Names
  import opened FileStore
  import opened Protocol
  import opened Requests
  import opened Wire
  import opened Sessions

  // ---- the client ----

  datatype Call =
    | OpenFile(path: Name, flags: int)
    | ReadFile(path: Name)
    | WriteFile(path: Name, data: seq<byte>)
    | RemoveFile(path: Name)
    | ReadNFiles(n: int)
    | CloseConnection

  /** What a call hands back besides its result. */
  datatype Delivery = Nothing | Content(bytes: seq<byte>, size: nat) | Contents(files: seq<seq<byte>>)

  /** Where the client stands in a call. */
  datatype Client =
    | SendOp(call: Call)
    | SendName(call: Call)
    | SendFlags(call: Call)
    | Gate(call: Call, passed: nat)                           // waiting for CONTINUE, after `passed` of them
    | ReadSize(call: Call)
    | ReadContent(call: Call, size: nat)
    | WriteSize(call: Call)
    | WriteContent(call: Call)
    | Spinning(call: Call)                                    // in the loop that reads an empty local file
    | AwaitCount(call: Call)
    | GateN(count: int)
    | ReadFileN(count: int, got: seq<seq<byte>>)
    | ReadSizeN(count: int, got: seq<seq<byte>>)
    | GetStatus(out: Delivery)
    | GetError(status: int, out: Delivery)
    | Returned(ret: int, errno: int, out: Delivery)

  function OpCode(call: Call): nat {
    match call
    case OpenFile(_, _) => OPEN_FILE
    case ReadFile(_) => READ_FILE
    case WriteFile(_, _) => WRITE_FILE
    case RemoveFile(_) => REMOVE_FILE
    case ReadNFiles(_) => READN_FILE
    case CloseConnection => CLOSE_CONNECTION
  }

  /** "readNString" and "Close connection" */
  const READN_NAME := Name([114, 101, 97, 100, 78, 83, 116, 114, 105, 110, 103])
  const CLOSE_NAME := Name([67, 108, 111, 115, 101, 32, 99, 111, 110, 110, 101, 99, 116, 105, 111, 110])

  function PathOf(call: Call): Name {
    match call
    case ReadNFiles(_) => READN_NAME
    case CloseConnection => CLOSE_NAME
    case _ => call.path
  }

  /** A negative number of files counts as 0. */
  function FlagsOf(call: Call): int {
    match call
    case OpenFile(_, flags) => flags
    case ReadNFiles(n) => if n < 0 then 0 else n
    case _ => 0
  }

  /** A string is sent with its terminator. */
  function CString(name: Name): seq<byte> {
    name.chars + [0]
  }

  function AfterRequest(call: Call): Client {
    match call
    case OpenFile(_, _) => GetStatus(Nothing)
    case ReadFile(_) => Gate(call, 0)
    case WriteFile(_, _) => Gate(call, 0)
    case RemoveFile(_) => GetStatus(Nothing)
    case ReadNFiles(_) => AwaitCount(call)
    case CloseConnection => GetStatus(Nothing)
  }

  /** Between the second CONTINUE and the message, writeFile reads the local file. */
  function ReadLocal(call: Call): Client {
    if call.WriteFile? && call.data == [] then Spinning(call) else WriteContent(call)
  }

  /** What follows the CONTINUE number `passed` of a call. */
  function AfterGate(call: Call, passed: nat): Client {
    match call
    case ReadFile(_) => if passed == 0 then Gate(call, 1) else ReadSize(call)
    case WriteFile(_, _) =>
      if passed == 0 then WriteSize(call) else if passed == 1 then ReadLocal(call) else GetStatus(Nothing)
    case _ => GetStatus(Nothing)
  }

  /** The loop of readNFiles, with `|got|` files received. */
  function NextFile(count: int, got: seq<seq<byte>>): Client {
    if |got| < count then ReadFileN(count, got) else GetStatus(Contents(got))
  }

  /** `get_resp`; the result -1 is for a success that carries an error. */
  function Response(status: int, error: int): int {
    if status == OK && error != 0 then -1 else status
  }

  function ClientAct(c: Client): Act {
    match c
    case SendOp(call) => Snd(Num(OpCode(call)))
    case SendName(call) => Snd(Msg(CString(PathOf(call))))
    case SendFlags(call) => Snd(Num(U64(FlagsOf(call))))
    case WriteSize(call) => Snd(Num(if call.WriteFile? then |call.data| else 0))
    case WriteContent(call) => Snd(Msg(if call.WriteFile? then call.data else []))
    case ReadContent(_, _) => Rcv(Message)
    case ReadFileN(_, _) => Rcv(Message)
    case Returned(_, _, _) => Stop
    case Spinning(_) => Spin
    case _ => Rcv(Number)
  }

  function ClientSent(c: Client): Client {
    match c
    case SendOp(call) => SendName(call)
    case SendName(call) => SendFlags(call)
    case SendFlags(call) => AfterRequest(call)
    case WriteSize(call) => Gate(call, 1)
    case WriteContent(call) => Gate(call, 2)
    case _ => c
  }

  /** A unit that is not of the awaited kind is never received. */
  function ClientGot(c: Client, t: Token): Client {
    if ClientAct(c) != Rcv(KindOf(t)) then c else
    match c
    case Gate(call, passed) =>
      if Int32(t.n) == CONTINUE then AfterGate(call, passed) else GetStatus(Nothing)
    case ReadSize(call) => ReadContent(call, t.n)
    case ReadContent(call, size) => GetStatus(Content(t.bytes, size))
    case AwaitCount(call) =>
      var count := Int32(t.n);
      if count == 0 then Returned(NOT_OK, 0, Nothing) else GateN(count)
    case GateN(count) =>
      if Int32(t.n) == CONTINUE then NextFile(count, []) else GetStatus(Nothing)
    case ReadFileN(count, got) => ReadSizeN(count, got + [t.bytes])
    case ReadSizeN(count, got) => NextFile(count, got)
    case GetStatus(out) => GetError(Int32(t.n), out)
    case GetError(status, out) => Returned(Response(status, Int32(t.n)), Int32(t.n), out)
    case _ => c
  }

  // ---- the server ----

  /** Where the client thread and the worker stand in one request. */
  datatype Server =
    | RecvOp(st: Store)
    | RecvName(st: Store, op: int)
    | RecvFlags(st: Store, op: int, name: seq<byte>)
    | Sending(token: Token, then_: Server)
    | RecvSize(st: Store, path: Name)
    | RecvContent(st: Store, path: Name, size: nat)
    | Writing(st: Store, path: Name)                          // in the loop that writes a block, for ever
    | Finished(st: Store, err: nat, status: nat)
    | Ended                                                   // the worker or the server has gone

  /** A received string up to its terminator, if it fits a name buffer. */
  function ParseName(s: seq<byte>): Option<Name> {
    var chars := UpToZero(s);
    if |chars| < MAXNAME then Some(Name(chars)) else None
  }

  function UpToZero(s: seq<byte>): (r: seq<byte>)
    ensures forall i :: 0 <= i < |r| ==> r[i] != 0
  {
    if s == [] || s[0] == 0 then [] else [s[0]] + UpToZero(s[1..])
  }

  function Emit(ts: seq<Token>, k: Server): Server {
    if ts == [] then k else Sending(ts[0], Emit(ts[1..], k))
  }

  /** `send_response`, by the client thread, once the worker has answered. */
  function Respond(st: Store, err: nat, status: nat): Server {
    Sending(Num(status), Sending(Num(err), Finished(st, err, status)))
  }

  function Replying(r: Reply): Server {
    Emit(r.sent, Respond(r.store, r.err, r.status))
  }

  /** After its last go-ahead the worker writes the block into the file. */
  function AfterWriting(st: Store, path: Name, data: seq<byte>): Server
    requires Has(st.files, path)
  {
    if NeverEnds(|data|) then Writing(st, path) else Respond(Appended(st, path, data), 0, OK)
  }

  /** The worker's switch; a write goes on with what the client sends. */
  function Dispatch(p: Policy, st: Store, op: int, path: Name, flags: int): Server {
    if op == OPEN_FILE then Replying(OpenReply(st, p, path, flags))
    else if op == READ_FILE then Replying(ReadReply(st, p, path))
    else if op == WRITE_FILE then
      if Has(st.files, path) then Sending(Num(CONTINUE), RecvSize(Looked(st, p, path), path))
      else Sending(Num(NOT_OK), Respond(st, ENONET, NOT_OK))
    else if op == READN_FILE then Replying(ReadNReply(st, flags))
    else if op == REMOVE_FILE then Replying(RemoveReply(st, p, path))
    else if op == CLOSE_CONNECTION then Respond(st, 0, OK)
    else Ended
  }

  function ServerAct(s: Server): Act {
    match s
    case RecvName(_, _) => Rcv(Message)
    case RecvContent(_, _, _) => Rcv(Message)
    case Sending(t, _) => Snd(t)
    case Writing(_, _) => Spin
    case Finished(_, _, _) => Stop
    case Ended => Stop
    case _ => Rcv(Number)
  }

  function ServerSent(s: Server): Server {
    if s.Sending? then s.then_ else s
  }

  function ServerGot(p: Policy, s: Server, t: Token): Server {
    if ServerAct(s) != Rcv(KindOf(t)) then s else
    match s
    case RecvOp(st) => RecvName(st, Int32(t.n))
    case RecvName(st, op) => RecvFlags(st, op, t.bytes)
    case RecvFlags(st, op, name) =>
      (match ParseName(name)
       case Some(path) => Dispatch(p, st, op, path, Int32(t.n))
       case None => Ended)
    case RecvSize(st, path) =>
      var room := MakeRoom(st, 0, t.n);
      if CacheErrno(st, 0, t.n) == E2BIG then Sending(Num(NO_CONTINUE), Respond(room, E2BIG, NOT_OK))
      else Sending(Num(CONTINUE), RecvContent(room, path, t.n))
    case RecvContent(st, path, size) =>
      if !Has(st.files, path) then Sending(Num(NOT_OK), Respond(st, ENOENT, NOT_OK))
      else if size > |t.bytes| then Ended
      else Sending(Num(CONTINUE), AfterWriting(st, path, t.bytes[..size]))
    case _ => s
  }

  /** The two sides, under one policy. */
  function Dialogue(p: Policy): Pair<Client, Server> {
    Pair(Process(ClientAct, ClientSent, ClientGot),
         Process(ServerAct, ServerSent, (s, t) => ServerGot(p, s, t)))
  }
}
