/** What goes over the connection in a call, unit by unit in both directions and in order: the client's
    run on what the server sends, the server's walk through what the client sends, and that the one
    is the mirror image of the other. */
module Exchanges {
  import opened CInt
  import opened WriteLoop
  import opened Names
  import opened Protocol
  import opened Wire
  import opened Sessions
  import opened FileStore
  import opened Requests
  import opened Parties
  import opened Agreement

  /** A client that has run as far as it can: where it stopped, what it did on the connection and what
      it left unread. */
  datatype Played = Played(ended: Client, done: seq<Io>, left: seq<Token>)

  /** How many units the client sends before it next receives, at most. */
  function ToSend(c: Client): nat {
    match c
    case SendOp(_) => 3
    case SendName(_) => 2
    case SendFlags(_) => 1
    case WriteSize(_) => 1
    case WriteContent(_) => 1
    case _ => 0
  }

  /** The client's run on what it will receive, or none if it does not come to an end. */
  function Play(c: Client, inbox: seq<Token>): Option<Played>
    decreases |inbox|, ToSend(c)
  {
    match ClientAct(c)
    case Stop => Some(Played(c, [], inbox))
    case Spin => None
    case Snd(t) => Having([Out(t)], Play(ClientSent(c), inbox))
    case Rcv(kind) =>
      if inbox == [] || KindOf(inbox[0]) != kind then None
      else Having([In(inbox[0])], Play(ClientGot(c, inbox[0]), inbox[1..]))
  }

  function Having(done: seq<Io>, p: Option<Played>): Option<Played> {
    match p
    case None => None
    case Some(q) => Some(q.(done := done + q.done))
  }

  /** The server's way through what goes out and comes in, or none if it does not do that. */
  function Walk(p: Policy, s: Server, ios: seq<Io>): Option<Server>
    decreases |ios|
  {
    if ios == [] then Some(s)
    else
      match ios[0]
      case Out(t) => if ServerAct(s) == Snd(t) then Walk(p, ServerSent(s), ios[1..]) else None
      case In(t) => if ServerAct(s) == Rcv(KindOf(t)) then Walk(p, ServerGot(p, s, t), ios[1..]) else None
  }

  /** The same exchange from the other side. */
  function Mirror(ios: seq<Io>): (r: seq<Io>)
    ensures |r| == |ios|
  {
    seq(|ios|, i requires 0 <= i < |ios| => if ios[i].Out? then In(ios[i].token) else Out(ios[i].token))
  }

  /** What the server sends and receives where it agrees with the client in `n` exchanges. */
  function Exchanged(p: Policy, c: Client, s: Server, n: nat): seq<Io>
    decreases n
  {
    if n == 0 then [] else
    match (ClientAct(c), ServerAct(s))
    case (Snd(t), Rcv(_)) => [In(t)] + Exchanged(p, ClientSent(c), ServerGot(p, s, t), n - 1)
    case (Rcv(_), Snd(t)) => [Out(t)] + Exchanged(p, ClientGot(c, t), ServerSent(s), n - 1)
    case _ => []
  }

  // ---- both sides of an agreement ----

  /** Given what goes out in an exchange, the client does its mirror image, ends and leaves the rest. */
  ghost predicate PlaysTo(c: Client, ios: seq<Io>, end: Client, rest: seq<Token>) {
    Play(c, SentIn(ios) + rest) == Some(Played(end, Mirror(ios), rest))
  }

  lemma OneSent(c: Client, ios: seq<Io>, end: Client, rest: seq<Token>)
    requires ClientAct(c).Snd? && PlaysTo(ClientSent(c), ios, end, rest)
    ensures PlaysTo(c, [In(ClientAct(c).token)] + ios, end, rest)
  {
    var t := ClientAct(c).token;
    FrontUnit(In(t), ios);
    assert [] + SentIn(ios) == SentIn(ios);
    assert Mirror([In(t)] + ios) == [Out(t)] + Mirror(ios);
  }

  lemma OneReceived(c: Client, t: Token, ios: seq<Io>, end: Client, rest: seq<Token>)
    requires ClientAct(c) == Rcv(KindOf(t)) && PlaysTo(ClientGot(c, t), ios, end, rest)
    ensures PlaysTo(c, [Out(t)] + ios, end, rest)
  {
    FrontUnit(Out(t), ios);
    assert Mirror([Out(t)] + ios) == [In(t)] + Mirror(ios);
    var inbox := [t] + SentIn(ios) + rest;
    assert inbox[0] == t && inbox[1..] == SentIn(ios) + rest;
  }

  lemma {:induction false} AgreedClientPlays(p: Policy, c: Client, s: Server, n: nat, ce: Client, se: Server,
                                             rest: seq<Token>)
    requires Agree(Dialogue(p), c, s, n, ce, se) && ClientAct(ce) == Stop
    ensures PlaysTo(c, Exchanged(p, c, s, n), ce, rest)
    decreases n, 1
  {
    if n == 0 {
      NothingPlayed(c, rest);
    } else if ClientAct(c).Snd? {
      var t := ClientAct(c).token;
      TowardsServer(p, c, s, n, ce, se);
      AgreedClientPlays(p, ClientSent(c), ServerGot(p, s, t), n - 1, ce, se, rest);
      OneSent(c, Exchanged(p, ClientSent(c), ServerGot(p, s, t), n - 1), ce, rest);
    } else {
      var t, k := ServerIsSending(p, c, s, n, ce, se);
      ClientPlaysOn(p, c, t, k, n, ce, se, rest);
    }
  }

  lemma {:induction false} ClientPlaysOn(p: Policy, c: Client, t: Token, k: Server, n: nat, ce: Client, se: Server,
                                         rest: seq<Token>)
    requires Agree(Dialogue(p), c, Sending(t, k), n, ce, se) && ClientAct(ce) == Stop && n > 0
    ensures PlaysTo(c, Exchanged(p, c, Sending(t, k), n), ce, rest)
    decreases n, 0
  {
    TowardsClient(p, c, t, k, n, ce, se);
    AgreedClientPlays(p, ClientGot(c, t), k, n - 1, ce, se, rest);
    OneReceived(c, t, Exchanged(p, ClientGot(c, t), k, n - 1), ce, rest);
  }

  lemma ServerIsSending(p: Policy, c: Client, s: Server, n: nat, ce: Client, se: Server) returns (t: Token, k: Server)
    requires Agree(Dialogue(p), c, s, n, ce, se) && n > 0 && !ClientAct(c).Snd?
    ensures s == Sending(t, k)
  {
    t, k := s.token, s.then_;
  }

  lemma NothingPlayed(c: Client, rest: seq<Token>)
    requires ClientAct(c) == Stop
    ensures PlaysTo(c, [], c, rest)
  {
    assert [] + rest == rest && Mirror([]) == [];
  }

  lemma {:induction false} AgreedServerWalks(p: Policy, c: Client, s: Server, n: nat, ce: Client, se: Server)
    requires Agree(Dialogue(p), c, s, n, ce, se)
    ensures Walk(p, s, Exchanged(p, c, s, n)) == Some(se)
    decreases n, 1
  {
    if n > 0 && ClientAct(c).Snd? {
      var t := ClientAct(c).token;
      TowardsServer(p, c, s, n, ce, se);
      AgreedServerWalks(p, ClientSent(c), ServerGot(p, s, t), n - 1, ce, se);
      OneStep(p, s, In(t), Exchanged(p, ClientSent(c), ServerGot(p, s, t), n - 1));
    } else if n > 0 {
      var t, k := ServerIsSending(p, c, s, n, ce, se);
      ServerWalksOn(p, c, t, k, n, ce, se);
    }
  }

  lemma {:induction false} ServerWalksOn(p: Policy, c: Client, t: Token, k: Server, n: nat, ce: Client, se: Server)
    requires Agree(Dialogue(p), c, Sending(t, k), n, ce, se) && n > 0
    ensures Walk(p, Sending(t, k), Exchanged(p, c, Sending(t, k), n)) == Some(se)
    decreases n, 0
  {
    TowardsClient(p, c, t, k, n, ce, se);
    AgreedServerWalks(p, ClientGot(c, t), k, n - 1, ce, se);
    OneStep(p, Sending(t, k), Out(t), Exchanged(p, ClientGot(c, t), k, n - 1));
  }

  lemma OneStep(p: Policy, s: Server, io: Io, later: seq<Io>)
    requires ServerAct(s) == if io.Out? then Snd(io.token) else Rcv(KindOf(io.token))
    ensures Walk(p, s, [io] + later) == Walk(p, if io.Out? then ServerSent(s) else ServerGot(p, s, io.token), later)
  {
    assert ([io] + later)[1..] == later;
  }

  // ---- what is exchanged ----

  /** A unit that goes one way or the other. */
  lemma TowardsServer(p: Policy, c: Client, s: Server, n: nat, ce: Client, se: Server)
    requires Agree(Dialogue(p), c, s, n, ce, se) && ClientAct(c).Snd?
    ensures var t := ClientAct(c).token;
            && n > 0 && ServerAct(s) == Rcv(KindOf(t))
            && Agree(Dialogue(p), ClientSent(c), ServerGot(p, s, t), n - 1, ce, se)
            && Exchanged(p, c, s, n) == [In(t)] + Exchanged(p, ClientSent(c), ServerGot(p, s, t), n - 1)
  {
  }

  lemma TowardsClient(p: Policy, c: Client, t: Token, k: Server, n: nat, ce: Client, se: Server)
    requires Agree(Dialogue(p), c, Sending(t, k), n, ce, se)
    ensures n > 0 && ClientAct(c) == Rcv(KindOf(t))
    ensures Agree(Dialogue(p), ClientGot(c, t), k, n - 1, ce, se)
    ensures Exchanged(p, c, Sending(t, k), n) == [Out(t)] + Exchanged(p, ClientGot(c, t), k, n - 1)
  {
  }

  /** Operation, name and flags. */
  function Asked(call: Call): seq<Io> {
    [In(Num(OpCode(call))), In(Msg(CString(PathOf(call)))), In(Num(U64(FlagsOf(call))))]
  }

  /** Some units, and then status and error. */
  function Said(ios: seq<Io>, err: nat, status: nat): seq<Io> {
    ios + [Out(Num(status)), Out(Num(err))]
  }

  lemma {:induction false} EmittedIsSaid(p: Policy, c: Client, sent: seq<Token>, st: Store, err: nat, status: nat,
                                         n: nat, ce: Client, se: Server)
    requires Agree(Dialogue(p), c, Emit(sent, Respond(st, err, status)), n, ce, se)
    ensures Exchanged(p, c, Emit(sent, Respond(st, err, status)), n) == Said(Outs(sent), err, status)
    decreases |sent|
  {
    if sent == [] {
      ResponseIsSaid(p, c, st, err, status, n, ce, se);
      assert Said(Outs(sent), err, status) == [Out(Num(status)), Out(Num(err))];
    } else {
      TowardsClient(p, c, sent[0], Emit(sent[1..], Respond(st, err, status)), n, ce, se);
      EmittedIsSaid(p, ClientGot(c, sent[0]), sent[1..], st, err, status, n - 1, ce, se);
      assert Outs(sent) == [Out(sent[0])] + Outs(sent[1..]);
      assert [Out(sent[0])] + Said(Outs(sent[1..]), err, status) == Said(Outs(sent), err, status);
    }
  }

  lemma ResponseIsSaid(p: Policy, c: Client, st: Store, err: nat, status: nat, n: nat, ce: Client, se: Server)
    requires Agree(Dialogue(p), c, Respond(st, err, status), n, ce, se)
    ensures Exchanged(p, c, Respond(st, err, status), n) == [Out(Num(status)), Out(Num(err))]
  {
    var last := Finished(st, err, status);
    var c' := ClientGot(c, Num(status));
    TowardsClient(p, c, Num(status), Sending(Num(err), last), n, ce, se);
    TowardsClient(p, c', Num(err), last, n - 1, ce, se);
    assert Exchanged(p, ClientGot(c', Num(err)), last, n - 2) == [];
  }

  lemma EmittedOne(p: Policy, c: Client, t: Token, st: Store, err: nat, status: nat, n: nat, ce: Client, se: Server)
    requires Agree(Dialogue(p), c, Sending(t, Respond(st, err, status)), n, ce, se)
    ensures Exchanged(p, c, Sending(t, Respond(st, err, status)), n) == Said([Out(t)], err, status)
  {
    EmitOne(t, Respond(st, err, status));
    EmittedIsSaid(p, c, [t], st, err, status, n, ce, se);
    assert Outs([t]) == [Out(t)];
  }

  lemma RequestTaken(p: Policy, st: Store, call: Call, n: nat, ce: Client, se: Server)
    requires InRange(st, call) && Agree(Dialogue(p), SendOp(call), RecvOp(st), n, ce, se)
    ensures var server := Dispatch(p, st, OpCode(call), PathOf(call), FlagsOf(call));
            && n >= 3 && Agree(Dialogue(p), AfterRequest(call), server, n - 3, ce, se)
            && Exchanged(p, SendOp(call), RecvOp(st), n)
               == Asked(call) + Exchanged(p, AfterRequest(call), server, n - 3)
  {
    var op, path, flags := OpCode(call), PathOf(call), FlagsOf(call);
    Int32Exact(op);
    TowardsServer(p, SendOp(call), RecvOp(st), n, ce, se);
    TowardsServer(p, SendName(call), RecvName(st, op), n - 1, ce, se);
    TowardsServer(p, SendFlags(call), RecvFlags(st, op, CString(path)), n - 2, ce, se);
    ParsesBack(path.chars);
    LowBits(flags);
    Int32Exact(flags);
    assert ParseName(CString(path)) == Some(path) && Int32(U64(flags)) == flags;
    var later := Exchanged(p, AfterRequest(call), Dispatch(p, st, op, path, flags), n - 3);
    var a, b, c := In(Num(op)), In(Msg(CString(path))), In(Num(U64(flags)));
    assert [a] + ([b] + ([c] + later)) == [a, b, c] + later;
  }

  /** What goes over the connection after the request is what the handling says, and the response. */
  lemma ExchangeIsSaid(p: Policy, st: Store, call: Call, n: nat, ce: Client, se: Server)
    requires InRange(st, call) && !Endless(p, st, call)
    requires Agree(Dialogue(p), SendOp(call), RecvOp(st), n, ce, se)
    ensures var r := Handle(st, p, RequestOf(call));
            Exchanged(p, SendOp(call), RecvOp(st), n)
            == Asked(call) + Said(Exchange(st, p, RequestOf(call)), r.err, r.status)
  {
    RequestTaken(p, st, call, n, ce, se);
    if !call.WriteFile? {
      ReplyIsSaid(p, st, call, n - 3, ce, se);
    } else if Has(st.files, call.path) {
      WriteIsSaid(p, st, call, n - 3, ce, se);
    } else {
      EmittedOne(p, AfterRequest(call), Num(NOT_OK), st, ENONET, NOT_OK, n - 3, ce, se);
    }
  }

  lemma ReplyIsSaid(p: Policy, st: Store, call: Call, n: nat, ce: Client, se: Server)
    requires !call.WriteFile?
    requires var server := Dispatch(p, st, OpCode(call), PathOf(call), FlagsOf(call));
             Agree(Dialogue(p), AfterRequest(call), server, n, ce, se)
    ensures var r := Handle(st, p, RequestOf(call));
            var server := Dispatch(p, st, OpCode(call), PathOf(call), FlagsOf(call));
            Exchanged(p, AfterRequest(call), server, n) == Said(Exchange(st, p, RequestOf(call)), r.err, r.status)
  {
    var r := Handle(st, p, RequestOf(call));
    var server := Dispatch(p, st, OpCode(call), PathOf(call), FlagsOf(call));
    DispatchReplies(p, st, call);
    assert server == Emit(r.sent, Respond(r.store, r.err, r.status));
    EmittedIsSaid(p, AfterRequest(call), r.sent, r.store, r.err, r.status, n, ce, se);
  }

  lemma DispatchReplies(p: Policy, st: Store, call: Call)
    requires !call.WriteFile?
    ensures var r := Handle(st, p, RequestOf(call));
            && Dispatch(p, st, OpCode(call), PathOf(call), FlagsOf(call)) == Replying(r)
            && Exchange(st, p, RequestOf(call)) == Outs(r.sent)
  {
    if call.CloseConnection? { assert Outs([]) == []; }
  }

  lemma {:induction false} WriteIsSaid(p: Policy, st: Store, call: Call, n: nat, ce: Client, se: Server)
    requires call.WriteFile? && Has(st.files, call.path) && call.data != []
    requires NeverEnds(|call.data|) ==> !Granted(st, p, call.path, |call.data|)
    requires var server := Sending(Num(CONTINUE), RecvSize(Looked(st, p, call.path), call.path));
             Agree(Dialogue(p), Gate(call, 0), server, n, ce, se)
    ensures var r := WriteReply(st, p, call.path, call.data);
            var server := Sending(Num(CONTINUE), RecvSize(Looked(st, p, call.path), call.path));
            Exchanged(p, Gate(call, 0), server, n)
            == Said(WriteExchange(st, p, call.path, call.data), r.err, r.status)
  {
    var found, path := Looked(st, p, call.path), call.path;
    TowardsClient(p, Gate(call, 0), Num(CONTINUE), RecvSize(found, path), n, ce, se);
    TowardsServer(p, WriteSize(call), RecvSize(found, path), n - 1, ce, se);
    FoundIsSaid(p, found, call, n - 2, ce, se);
    FoundSaid(st, p, call);
  }

  /** What goes over the connection once the size has been received. */
  function AfterFound(found: Store, call: Call): seq<Io>
    requires call.WriteFile?
  {
    var room := MakeRoom(found, 0, |call.data|);
    if CacheErrno(found, 0, |call.data|) == E2BIG then Said([Out(Num(NO_CONTINUE))], E2BIG, NOT_OK)
    else AfterGranted(room, call)
  }

  function AfterGranted(room: Store, call: Call): seq<Io>
    requires call.WriteFile?
  {
    var goAhead, content := Out(Num(CONTINUE)), In(Msg(call.data));
    if Has(room.files, call.path) then Said([goAhead, content, goAhead], 0, OK)
    else Said([goAhead, content, Out(Num(NOT_OK))], ENOENT, NOT_OK)
  }

  lemma FoundSaid(st: Store, p: Policy, call: Call)
    requires call.WriteFile? && Has(st.files, call.path)
    ensures var r := WriteReply(st, p, call.path, call.data);
            [Out(Num(CONTINUE))] + ([In(Num(|call.data|))] + AfterFound(Looked(st, p, call.path), call))
            == Said(WriteExchange(st, p, call.path, call.data), r.err, r.status)
  {
  }

  /** From the announced size on. */
  lemma FoundIsSaid(p: Policy, found: Store, call: Call, n: nat, ce: Client, se: Server)
    requires call.WriteFile? && call.data != []
    requires NeverEnds(|call.data|) && CacheErrno(found, 0, |call.data|) != E2BIG ==>
               !Has(MakeRoom(found, 0, |call.data|).files, call.path)
    requires Agree(Dialogue(p), Gate(call, 1), ServerGot(p, RecvSize(found, call.path), Num(|call.data|)), n, ce, se)
    ensures var server := ServerGot(p, RecvSize(found, call.path), Num(|call.data|));
            Exchanged(p, Gate(call, 1), server, n) == AfterFound(found, call)
  {
    var path, size := call.path, |call.data|;
    var room := MakeRoom(found, 0, size);
    if CacheErrno(found, 0, size) == E2BIG {
      EmittedOne(p, Gate(call, 1), Num(NO_CONTINUE), room, E2BIG, NOT_OK, n, ce, se);
    } else {
      GrantedIsSaid(p, room, call, n, ce, se);
    }
  }

  lemma GrantedIsSaid(p: Policy, room: Store, call: Call, n: nat, ce: Client, se: Server)
    requires call.WriteFile? && call.data != [] && (NeverEnds(|call.data|) ==> !Has(room.files, call.path))
    requires var server := Sending(Num(CONTINUE), RecvContent(room, call.path, |call.data|));
             Agree(Dialogue(p), Gate(call, 1), server, n, ce, se)
    ensures var server := Sending(Num(CONTINUE), RecvContent(room, call.path, |call.data|));
            Exchanged(p, Gate(call, 1), server, n) == AfterGranted(room, call)
  {
    var s := RecvContent(room, call.path, |call.data|);
    TowardsClient(p, Gate(call, 1), Num(CONTINUE), s, n, ce, se);
    TowardsServer(p, WriteContent(call), s, n - 1, ce, se);
    ContentIsSaid(p, room, call, n - 2, ce, se);
    GrantedSaid(room, call);
  }

  function AfterContent(room: Store, call: Call): seq<Io>
    requires call.WriteFile?
  {
    if Has(room.files, call.path) then Said([Out(Num(CONTINUE))], 0, OK) else Said([Out(Num(NOT_OK))], ENOENT, NOT_OK)
  }

  lemma GrantedSaid(room: Store, call: Call)
    requires call.WriteFile?
    ensures [Out(Num(CONTINUE))] + ([In(Msg(call.data))] + AfterContent(room, call)) == AfterGranted(room, call)
  {
  }

  lemma ContentIsSaid(p: Policy, room: Store, call: Call, n: nat, ce: Client, se: Server)
    requires call.WriteFile? && (NeverEnds(|call.data|) ==> !Has(room.files, call.path))
    requires var server := ServerGot(p, RecvContent(room, call.path, |call.data|), Msg(call.data));
             Agree(Dialogue(p), Gate(call, 2), server, n, ce, se)
    ensures var server := ServerGot(p, RecvContent(room, call.path, |call.data|), Msg(call.data));
            Exchanged(p, Gate(call, 2), server, n) == AfterContent(room, call)
  {
    if Has(room.files, call.path) {
      var st := Appended(room, call.path, call.data);
      assert call.data[..|call.data|] == call.data;
      EmittedOne(p, Gate(call, 2), Num(CONTINUE), st, 0, OK, n, ce, se);
    } else {
      EmittedOne(p, Gate(call, 2), Num(NOT_OK), room, ENOENT, NOT_OK, n, ce, se);
    }
  }

  // ---- the theorem ----

  /** What goes over the connection in a call, as the server sees it. */
  function CallExchange(p: Policy, st: Store, call: Call): seq<Io> {
    var r := Handle(st, p, RequestOf(call));
    Asked(call) + Said(Exchange(st, p, RequestOf(call)), r.err, r.status)
  }

  /** Every call but the endless ones: given what the server sends in the exchange, the client does
      the mirror image of it, ends with what the handling decided and leaves what follows unread;
      and the exchange takes the server from the start of the request to its end. */
  lemma CallsAreAnswered(p: Policy, st: Store, call: Call, rest: seq<Token>)
    requires InRange(st, call) && !Endless(p, st, call)
    ensures var r := Handle(st, p, RequestOf(call));
            && PlaysTo(SendOp(call), CallExchange(p, st, call), Returned(r.status, r.err, Delivered(st, call)), rest)
            && Walk(p, RecvOp(st), CallExchange(p, st, call)) == Some(Finished(r.store, r.err, r.status))
  {
    var n := CallAgrees(p, st, call);
    var ce, se := ClientEnd(p, st, call), ServerEnd(p, st, call);
    ExchangeIsSaid(p, st, call, n, ce, se);
    AgreedClientPlays(p, SendOp(call), RecvOp(st), n, ce, se, rest);
    AgreedServerWalks(p, SendOp(call), RecvOp(st), n, ce, se);
  }

  /** In units: the server sends what the reply says and the response; the client sends operation, name
      and flags, and for a write as much of size and content as the worker takes in. */
  lemma UnitsOfCall(p: Policy, st: Store, call: Call)
    ensures var r, ios := Handle(st, p, RequestOf(call)), CallExchange(p, st, call);
            && SentIn(ios) == r.sent + [Num(r.status), Num(r.err)]
            && ReceivedIn(ios)
               == [Num(OpCode(call)), Msg(CString(PathOf(call))), Num(U64(FlagsOf(call)))]
                  + if call.WriteFile? then
                      [Num(|call.data|), Msg(call.data)][..WriteConsumes(st, p, call.path, call.data)]
                    else []
  {
    var r, body := Handle(st, p, RequestOf(call)), Exchange(st, p, RequestOf(call));
    ExchangeUnits(st, p, RequestOf(call));
    var response := [Out(Num(r.status)), Out(Num(r.err))];
    UnitsConcat(Asked(call), body + response);
    UnitsConcat(body, response);
    AskedUnits(call);
    OutsUnits([Num(r.status), Num(r.err)]);
    assert response == Outs([Num(r.status), Num(r.err)]);
    assert Asked(call) + (body + response) == CallExchange(p, st, call);
  }

  lemma AskedUnits(call: Call)
    ensures SentIn(Asked(call)) == []
    ensures ReceivedIn(Asked(call)) == [Num(OpCode(call)), Msg(CString(PathOf(call))), Num(U64(FlagsOf(call)))]
  {
    var a, b, c := Asked(call)[0], Asked(call)[1], Asked(call)[2];
    OneUnit(c);
    FrontUnit(b, [c]);
    FrontUnit(a, [b, c]);
    assert [b] + [c] == [b, c] && [a] + [b, c] == Asked(call);
  }

  /** The answer is the status that arrives, except that a success which carries an error is -1; the
      error is left in `errno` either way. */
  lemma ResponseIsReported(out: Delivery, status: nat, err: nat, rest: seq<Token>)
    requires status < TWO_31 && err < TWO_31
    ensures var response := [Num(status), Num(err)];
            var ret := if status == 1 && err != 0 then -1 else status;
            Play(GetStatus(out), response + rest)
              == Some(Played(Returned(ret, err, out), [In(Num(status)), In(Num(err))], rest))
  {
    Int32Exact(status);
    Int32Exact(err);
    var ios := [Out(Num(status)), Out(Num(err))];
    NothingPlayed(Returned(Response(status, err), err, out), rest);
    OneReceived(GetError(status, out), Num(err), [], Returned(Response(status, err), err, out), rest);
    assert [Out(Num(err))] + [] == [Out(Num(err))];
    OneReceived(GetStatus(out), Num(status), [Out(Num(err))], Returned(Response(status, err), err, out), rest);
    assert [Out(Num(status))] + [Out(Num(err))] == ios;
    OutsUnits([Num(status), Num(err)]);
    assert ios == Outs([Num(status), Num(err)]);
    assert Mirror(ios) == [In(Num(status)), In(Num(err))];
  }

  /** Where the client waits for a go-ahead, any other number is a refusal: all that is left is the
      response, and nothing is handed over. */
  lemma OtherThanContinue(c: Client, n: nat, status: nat, err: nat, rest: seq<Token>)
    requires c.Gate? || c.GateN?
    requires n < TWO_31 && status < TWO_31 && err < TWO_31 && n != CONTINUE
    ensures var inbox := [Num(n), Num(status), Num(err)];
            var ret := if status == 1 && err != 0 then -1 else status;
            Play(c, inbox + rest)
              == Some(Played(Returned(ret, err, Nothing), [In(Num(n)), In(Num(status)), In(Num(err))], rest))
  {
    Int32Exact(n);
    ResponseIsReported(Nothing, status, err, rest);
    var inbox, response := [Num(n), Num(status), Num(err)] + rest, [Num(status), Num(err)] + rest;
    assert inbox[0] == Num(n) && inbox[1..] == response;
    assert Play(c, inbox) == Having([In(Num(n))], Play(GetStatus(Nothing), response));
    assert [In(Num(n))] + [In(Num(status)), In(Num(err))] == [In(Num(n)), In(Num(status)), In(Num(err))];
  }

  /** A count of 0 ends readNFiles there and then: it returns NOT_OK with no error, and nothing that
      follows is read. */
  lemma ZeroCountEnds(call: Call, rest: seq<Token>)
    requires call.ReadNFiles?
    ensures Play(AwaitCount(call), [Num(0)] + rest)
         == Some(Played(Returned(NOT_OK, 0, Nothing), [In(Num(0))], rest))
  {
    var end := Returned(NOT_OK, 0, Nothing);
    Int32Exact(0);
    NothingPlayed(end, rest);
    OneReceived(AwaitCount(call), Num(0), [], end, rest);
    assert [Out(Num(0))] + [] == [Out(Num(0))];
    OneUnit(Out(Num(0)));
    assert Mirror([Out(Num(0))]) == [In(Num(0))];
  }
}
