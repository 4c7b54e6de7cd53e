/** A connection at the level of numbers and messages, whose framing is the subject of Wire. */
module Channel {
  import opened Names
  import opened Protocol

  /** One side's view of a connection: the units it will still receive, and all that it has sent and
      received so far, in order. */
  class Connection {
    var inbox: seq<Token>
    ghost var trace: seq<Io>

    method SendNumber(n: nat)
      modifies this`trace
      ensures trace == old(trace) + [Out(Num(n))]
    {
      trace := trace + [Out(Num(n))];
    }

    method SendMessage(bytes: seq<byte>)
      modifies this`trace
      ensures trace == old(trace) + [Out(Msg(bytes))]
    {
      trace := trace + [Out(Msg(bytes))];
    }

    method RecvNumber() returns (n: nat)
      requires inbox != [] && inbox[0].Num?
      modifies this
      ensures n == old(inbox)[0].n && inbox == old(inbox)[1..] && trace == old(trace) + [In(Num(n))]
    {
      n := inbox[0].n;
      inbox := inbox[1..];
      trace := trace + [In(Num(n))];
    }

    method RecvMessage() returns (bytes: seq<byte>)
      requires inbox != [] && inbox[0].Msg?
      modifies this
      ensures bytes == old(inbox)[0].bytes && inbox == old(inbox)[1..] && trace == old(trace) + [In(Msg(bytes))]
    {
      bytes := inbox[0].bytes;
      inbox := inbox[1..];
      trace := trace + [In(Msg(bytes))];
    }
  }
}
