/** The functions of the client library, which send and receive step by step on the one connection
    to the server and set `errno`. Each follows the client of Parties to its end. */
module ClientLibrary {
  import opened CInt
  import opened Names
  import opened Protocol
  import opened Wire
  import opened Sessions
  import opened Parties
  import opened Channel
  import opened LocalStream
  import opened Exchanges

  class ServerConnection {
    const serverfd: Connection
    var errno: int
    ghost var call: Call            // the call in progress, and the connection when it began
    ghost var arriving: seq<Token>
    ghost var before: seq<Io>
    ghost var at: Client            // where the client stands in it

    /** What has been sent and received since the call began, in that order, has taken the client to
        `at`, and what it has yet to wait for will arrive. */
    ghost predicate Valid()
      reads this, serverfd
    {
      && before <= serverfd.trace
      && Play(at, serverfd.inbox).Some?
      && Play(SendOp(call), arriving) == Having(serverfd.trace[|before|..], Play(at, serverfd.inbox))
    }

    /** The server answers the call in full. */
    ghost predicate Answered(call: Call)
      reads serverfd
    {
      Play(SendOp(call), serverfd.inbox).Some?
    }

    constructor (serverfd: Connection)
      ensures this.serverfd == serverfd
    {
      this.serverfd := serverfd;
    }

    // ---- steps ----

    ghost method Begin(call: Call)
      requires Answered(call)
      modifies this`call, this`arriving, this`before, this`at
      ensures Valid() && this.call == call && at == SendOp(call)
      ensures arriving == serverfd.inbox && before == serverfd.trace
    {
      this.call, arriving, before, at := call, serverfd.inbox, serverfd.trace, SendOp(call);
      assert serverfd.trace[|before|..] == [];
      assert [] + Play(at, serverfd.inbox).value.done == Play(at, serverfd.inbox).value.done;
    }

    method SendNumber(n: nat)
      requires Valid() && ClientAct(at) == Snd(Num(n))
      modifies this`at, serverfd`trace
      ensures Valid() && at == ClientSent(old(at))
    {
      serverfd.SendNumber(n);
      Done(Out(Num(n)), ClientSent(at), serverfd.inbox);
    }

    method SendMessage(bytes: seq<byte>)
      requires Valid() && ClientAct(at) == Snd(Msg(bytes))
      modifies this`at, serverfd`trace
      ensures Valid() && at == ClientSent(old(at))
    {
      serverfd.SendMessage(bytes);
      Done(Out(Msg(bytes)), ClientSent(at), serverfd.inbox);
    }

    method RecvNumber() returns (n: nat)
      requires Valid() && ClientAct(at) == Rcv(Number)
      modifies this`at, serverfd
      ensures Valid() && at == ClientGot(old(at), Num(n))
    {
      ghost var inbox := serverfd.inbox;
      n := serverfd.RecvNumber();
      Done(In(Num(n)), ClientGot(at, Num(n)), inbox);
    }

    method RecvMessage() returns (bytes: seq<byte>)
      requires Valid() && ClientAct(at) == Rcv(Message)
      modifies this`at, serverfd
      ensures Valid() && at == ClientGot(old(at), Msg(bytes))
    {
      ghost var inbox := serverfd.inbox;
      bytes := serverfd.RecvMessage();
      Done(In(Msg(bytes)), ClientGot(at, Msg(bytes)), inbox);
    }

    /** The last unit on the connection takes the client to its next place. */
    ghost method Done(io: Io, next: Client, inbox: seq<Token>)
      requires before <= serverfd.trace
      requires |before| < |serverfd.trace| && serverfd.trace[|serverfd.trace| - 1] == io
      requires Play(at, inbox).Some? && Play(at, inbox) == Having([io], Play(next, serverfd.inbox))
      requires Play(SendOp(call), arriving)
            == Having(serverfd.trace[|before|..|serverfd.trace| - 1], Play(at, inbox))
      modifies this`at
      ensures Valid() && at == next
    {
      var out := serverfd.trace;
      var n := |out| - 1;
      var rest := Play(next, serverfd.inbox);
      assert out[|before|..n] + [io] == out[|before|..];
      assert out[|before|..n] + ([io] + rest.value.done) == out[|before|..] + rest.value.done;
      at := next;
    }

    // ---- the library ----

    method GetResp() returns (ret: int)
      requires Valid() && at.GetStatus?
      modifies this`at, this`errno, serverfd
      ensures Valid() && at == Returned(ret, errno, old(at).out)
    {
      errno := 0;
      var n := RecvNumber();
      var status := Int32(n);
      n := RecvNumber();
      errno := Int32(n);
      if status == OK && errno != 0 {
        return -1;
      }
      return status;
    }

    method SendReq(op: nat, filename: Name, flags: int)
      requires Valid() && at == SendOp(call)
      requires op == OpCode(call) && filename == PathOf(call) && flags == FlagsOf(call)
      modifies this`at, serverfd`trace
      ensures Valid() && at == AfterRequest(call)
    {
      SendNumber(op);
      SendMessage(CString(filename));
      SendNumber(U64(flags));
    }

    /** The test that the server's go-ahead has come, without which the response follows. */
    method CanContinue() returns (go: bool)
      requires Valid() && at.Gate?
      modifies this`at, serverfd
      ensures Valid() && at == if go then AfterGate(old(at).call, old(at).passed) else GetStatus(Nothing)
    {
      var n := RecvNumber();
      return Int32(n) == CONTINUE;
    }

    method OpenFile(pathname: Name, flags: int) returns (ret: int)
      requires Answered(Call.OpenFile(pathname, flags))
      modifies this, serverfd
      ensures Valid() && call == Call.OpenFile(pathname, flags)
      ensures arriving == old(serverfd.inbox) && before == old(serverfd.trace)
      ensures at == Returned(ret, errno, Nothing)
    {
      Begin(Call.OpenFile(pathname, flags));
      SendReq(OPEN_FILE, pathname, flags);
      ret := GetResp();
    }

    method RemoveFile(pathname: Name) returns (ret: int)
      requires Answered(Call.RemoveFile(pathname))
      modifies this, serverfd
      ensures Valid() && call == Call.RemoveFile(pathname)
      ensures arriving == old(serverfd.inbox) && before == old(serverfd.trace)
      ensures at == Returned(ret, errno, Nothing)
    {
      Begin(Call.RemoveFile(pathname));
      SendReq(REMOVE_FILE, pathname, 0);
      ret := GetResp();
    }

    /** Anything but success is turned into a refusal. */
    method CloseConnection() returns (ret: int)
      requires Answered(Call.CloseConnection)
      modifies this, serverfd
      ensures Valid() && call == Call.CloseConnection
      ensures arriving == old(serverfd.inbox) && before == old(serverfd.trace)
      ensures at.Returned? && at.errno == errno && ret == if at.ret == OK then OK else NOT_OK
    {
      Begin(Call.CloseConnection);
      SendReq(CLOSE_CONNECTION, CLOSE_NAME, 0);
      var resp := GetResp();
      return if resp == OK then resp else NOT_OK;
    }

    /** `buf` and `size` are what the file holds, if it was sent. */
    method ReadFile(pathname: Name) returns (ret: int, buf: Option<seq<byte>>, size: nat)
      requires Answered(Call.ReadFile(pathname))
      modifies this, serverfd
      ensures Valid() && call == Call.ReadFile(pathname)
      ensures arriving == old(serverfd.inbox) && before == old(serverfd.trace)
      ensures at == Returned(ret, errno, if buf.Some? then Content(buf.value, size) else Nothing)
    {
      Begin(Call.ReadFile(pathname));
      SendReq(READ_FILE, pathname, 0);
      buf, size := GatedContent();
      ret := GetResp();
    }

    /** Size and content, if the server's go-ahead comes twice. */
    method GatedContent() returns (buf: Option<seq<byte>>, size: nat)
      requires Valid() && at == Gate(call, 0) && call.ReadFile?
      modifies this`at, serverfd
      ensures Valid() && at == GetStatus(if buf.Some? then Content(buf.value, size) else Nothing)
    {
      var go := CanContinue();
      if !go { return None, 0; }
      go := CanContinue();
      if !go { return None, 0; }
      size := RecvNumber();
      var content := RecvMessage();
      buf := Some(content);
    }

    /** `data` is what the local file holds. It is read and sent only once the server has accepted
        its size; that it is then not empty is part of being answered. */
    method WriteFile(pathname: Name, data: seq<byte>) returns (ret: int)
      requires Answered(Call.WriteFile(pathname, data))
      modifies this, serverfd
      ensures Valid() && call == Call.WriteFile(pathname, data)
      ensures arriving == old(serverfd.inbox) && before == old(serverfd.trace)
      ensures at == Returned(ret, errno, Nothing)
    {
      Begin(Call.WriteFile(pathname, data));
      SendReq(WRITE_FILE, pathname, 0);
      GatedWrite(data);
      ret := GetResp();
    }

    /** Size and content, each after the server's go-ahead, and a last one. */
    method GatedWrite(data: seq<byte>)
      requires Valid() && at == Gate(call, 0) && call.WriteFile? && call.data == data
      modifies this`at, serverfd
      ensures Valid() && at == GetStatus(Nothing)
    {
      var go := CanContinue();
      if !go { return; }
      SendNumber(|data|);
      go := CanContinue();
      if !go { return; }
      var fp := new FileStream.Fopen(data);
      var fileCont := ReadAll(fp, |data|);
      SendMessage(fileCont);
      go := CanContinue();
    }

    /** `got` are the contents received, if it came to that. */
    method ReadNFiles(n: int) returns (ret: int, got: Option<seq<seq<byte>>>)
      requires Answered(Call.ReadNFiles(n))
      modifies this, serverfd
      ensures Valid() && call == Call.ReadNFiles(n)
      ensures arriving == old(serverfd.inbox) && before == old(serverfd.trace)
      ensures at == Returned(ret, errno, if got.Some? then Contents(got.value) else Nothing)
    {
      got := None;
      errno := 0;
      Begin(Call.ReadNFiles(n));
      SendReq(READN_FILE, READN_NAME, if n < 0 then 0 else n);
      var number := RecvNumber();
      var realN := Int32(number);
      if realN == 0 {
        return NOT_OK, None;
      }
      got := GatedFiles(realN);
      ret := GetResp();
    }

    /** The files, if the server's go-ahead comes. */
    method GatedFiles(realN: int) returns (got: Option<seq<seq<byte>>>)
      requires Valid() && at == GateN(realN)
      modifies this`at, serverfd
      ensures Valid() && at == GetStatus(if got.Some? then Contents(got.value) else Nothing)
    {
      var canContinue := RecvNumber();
      if Int32(canContinue) != CONTINUE {
        return None;
      }
      var received := ReceiveFiles(realN);
      return Some(received);
    }

    method ReceiveFiles(realN: int) returns (buffer: seq<seq<byte>>)
      requires Valid() && at == NextFile(realN, [])
      modifies this`at, serverfd
      ensures Valid() && at == GetStatus(Contents(buffer)) && |buffer| == if realN < 0 then 0 else realN
    {
      buffer := [];
      var i := 0;
      while i < realN
        invariant Valid() && at == NextFile(realN, buffer) && |buffer| == i
        invariant 0 <= i && (i <= realN || i == 0)
      {
        var content := RecvMessage();
        buffer := buffer + [content];
        var fileSize := RecvNumber();
        i := i + 1;
      }
    }
  }
}
