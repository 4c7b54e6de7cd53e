/** Framing: numbers as eight bytes, messages as a length and a payload, over a stream that takes
    and gives bytes in pieces of any positive size. */
module Wire {
  import opened CInt
  import opened Names
  import opened Protocol

  datatype Option<+T> = None | Some(value: T)

  // ---- bytes of numbers ----

  const WORD := 8

  /** The `k` low bytes of `n`, least significant first. */
  function Bytes(n: nat, k: nat): (b: seq<byte>)
    ensures |b| == k
  {
    if k == 0 then [] else [n % 256] + Bytes(n / 256, k - 1)
  }

  function Value(b: seq<byte>): nat {
    if b == [] then 0 else b[0] + 256 * Value(b[1..])
  }

  function Pow256(k: nat): nat {
    if k == 0 then 1 else 256 * Pow256(k - 1)
  }

  lemma {:induction false} ValueOfBytes(n: nat, k: nat)
    requires n < Pow256(k)
    ensures Value(Bytes(n, k)) == n
  {
    if k > 0 {
      ValueOfBytes(n / 256, k - 1);
      assert Bytes(n, k)[1..] == Bytes(n / 256, k - 1);
    }
  }

  lemma {:induction false} BytesOfValue(b: seq<byte>)
    ensures Bytes(Value(b), |b|) == b && Value(b) < Pow256(|b|)
  {
    if b != [] {
      BytesOfValue(b[1..]);
      assert Value(b) % 256 == b[0] && Value(b) / 256 == Value(b[1..]);
      assert b == [b[0]] + b[1..];
    }
  }

  lemma WordRange()
    ensures Pow256(WORD) == TWO_64
  {
    assert Pow256(2) == 65536;
    assert Pow256(4) == 256 * (256 * Pow256(2));
    assert Pow256(6) == 256 * (256 * Pow256(4));
    assert Pow256(8) == 256 * (256 * Pow256(6));
  }

  // ---- tokens as bytes ----

  datatype Kind = Number | Message

  predicate Sendable(t: Token) {
    match t
    case Num(n) => n < TWO_64
    case Msg(b) => |b| < TWO_63
  }

  function Encode(t: Token): seq<byte> {
    match t
    case Num(n) => Bytes(n, WORD)
    case Msg(b) => Bytes(|b|, WORD) + b
  }

  function EncodeAll(ts: seq<Token>): seq<byte> {
    if ts == [] then [] else Encode(ts[0]) + EncodeAll(ts[1..])
  }

  function KindOf(t: Token): Kind {
    if t.Num? then Number else Message
  }

  function KindsOf(ts: seq<Token>): seq<Kind> {
    if ts == [] then [] else [KindOf(ts[0])] + KindsOf(ts[1..])
  }

  /** What a receiver that expects a number, or a message, makes of a stream, and what it leaves.
      A message whose announced length reads as -1, or that is cut short, is no message. */
  function Decode(kind: Kind, stream: seq<byte>): Option<(Token, seq<byte>)> {
    if |stream| < WORD then None
    else
      var n, rest := Value(stream[..WORD]), stream[WORD..];
      match kind
      case Number => Some((Num(n), rest))
      case Message => if n == TWO_64 - 1 || |rest| < n then None else Some((Msg(rest[..n]), rest[n..]))
  }

  function DecodeAll(kinds: seq<Kind>, stream: seq<byte>): Option<(seq<Token>, seq<byte>)>
    decreases |kinds|
  {
    if kinds == [] then Some(([], stream))
    else
      match Decode(kinds[0], stream)
      case None => None
      case Some((t, rest)) =>
        match DecodeAll(kinds[1..], rest)
        case None => None
        case Some((ts, last)) => Some(([t] + ts, last))
  }

  lemma WordRoundTrip(n: nat, rest: seq<byte>)
    requires n < TWO_64
    ensures var stream := Bytes(n, WORD) + rest;
            stream[WORD..] == rest && Value(stream[..WORD]) == n
  {
    WordRange();
    ValueOfBytes(n, WORD);
    assert (Bytes(n, WORD) + rest)[..WORD] == Bytes(n, WORD);
  }

  /** A unit survives the wire, and nothing behind it is touched. */
  lemma DecodeEncode(t: Token, rest: seq<byte>)
    requires Sendable(t)
    ensures Decode(KindOf(t), Encode(t) + rest) == Some((t, rest))
  {
    match t
    case Num(n) => WordRoundTrip(n, rest);
    case Msg(b) =>
      var tail := b + rest;
      WordRoundTrip(|b|, tail);
      assert Encode(t) + rest == Bytes(|b|, WORD) + tail;
      assert tail[..|b|] == b && tail[|b|..] == rest;
  }

  /** A message cut short anywhere is no message, nor is one whose length reads as -1. */
  lemma CutShort(b: seq<byte>, k: nat, rest: seq<byte>)
    requires Sendable(Msg(b)) && k < |Encode(Msg(b))|
    ensures Decode(Message, Encode(Msg(b))[..k]) == None
    ensures Decode(Message, Bytes(TWO_64 - 1, WORD) + rest) == None
  {
    var cut := Encode(Msg(b))[..k];
    if k >= WORD {
      WordRange();
      ValueOfBytes(|b|, WORD);
      assert cut[..WORD] == Bytes(|b|, WORD);
      assert Value(cut[..WORD]) == |b| && |cut[WORD..]| < |b|;
    }
    WordRoundTrip(TWO_64 - 1, rest);
  }

  lemma DecodeOne(t: Token, ts: seq<Token>, kinds: seq<Kind>, behind: seq<byte>, rest: seq<byte>)
    requires Sendable(t) && DecodeAll(kinds, behind) == Some((ts, rest))
    ensures DecodeAll([KindOf(t)] + kinds, Encode(t) + behind) == Some(([t] + ts, rest))
  {
    DecodeEncode(t, behind);
    assert ([KindOf(t)] + kinds)[1..] == kinds;
  }

  lemma Associative<T>(a: seq<T>, b: seq<T>, c: seq<T>)
    ensures (a + b) + c == a + (b + c)
  {
  }

  /** Any sequence of units decodes to itself, for a receiver that expects those kinds. */
  lemma {:induction false} FramingRoundTrip(ts: seq<Token>, rest: seq<byte>)
    requires forall t :: t in ts ==> Sendable(t)
    ensures DecodeAll(KindsOf(ts), EncodeAll(ts) + rest) == Some((ts, rest))
  {
    if ts == [] {
      assert EncodeAll(ts) + rest == rest;
    } else {
      var later := ts[1..];
      FramingRoundTrip(later, rest);
      var behind := EncodeAll(later) + rest;
      DecodeOne(ts[0], later, KindsOf(later), behind, rest);
      assert EncodeAll(ts) + rest == Encode(ts[0]) + behind by { Associative(Encode(ts[0]), EncodeAll(later), rest); }
      assert KindsOf(ts) == [KindOf(ts[0])] + KindsOf(later);
      assert [ts[0]] + later == ts;
    }
  }

  // ---- the stream and the loops over it ----

  /** A connected socket, seen as the bytes that will still arrive before the end of the stream.
      A system call on it handles any positive number of bytes up to what it is asked for; on a
      connection that is not `reliable` it may also fail. */
  class Stream {
    var data: seq<byte>
    const reliable: bool

    constructor (reliable: bool)
      ensures data == [] && this.reliable == reliable
    {
      data := [];
      this.reliable := reliable;
    }

    /** `read`: -1 for an error, 0 at the end of the stream. */
    method Read(buf: array<byte>, off: nat, len: nat) returns (n: int)
      requires len > 0 && off + len <= buf.Length
      modifies this`data, buf
      ensures n == -1 ==> !reliable && data == old(data) && buf[..] == old(buf[..])
      ensures n != -1 ==>
                0 <= n <= len && n <= |old(data)| && (n == 0 ==> old(data) == [])
                && data == old(data)[n..]
                && forall i :: 0 <= i < buf.Length ==>
                     buf[i] == if off <= i < off + n then old(data)[i - off] else old(buf[i])
    {
      if !reliable {
        if * { return -1; }
      }
      if data == [] {
        return 0;
      }
      n :| 1 <= n <= len && n <= |data|;
      forall i | 0 <= i < n {
        buf[off + i] := data[i];
      }
      data := data[n..];
    }

    /** `write`: how much of the block was taken, or -1. */
    method Write(block: seq<byte>) returns (n: int)
      requires block != []
      modifies this`data
      ensures n == -1 ==> !reliable && data == old(data)
      ensures n != -1 ==> 0 <= n <= |block| && data == old(data) + block[..n] && (n == 0 ==> !reliable)
    {
      if !reliable {
        if * { return -1; }
        if * { return 0; }
      }
      n :| 1 <= n <= |block|;
      data := data + block[..n];
    }
  }

  /** Reads `n` bytes into the buffer whatever the sizes of the pieces. On an early end of the
      stream, or an error after some bytes, the result is the number of bytes copied. */
  method Readn(fd: Stream, buf: array<byte>, n: nat) returns (r: int)
    requires n <= buf.Length
    modifies fd`data, buf
    ensures r == -1 ==> !fd.reliable && fd.data == old(fd.data) && buf[..] == old(buf[..])
    ensures r != -1 ==>
              0 <= r <= n && r <= |old(fd.data)|
              && fd.data == old(fd.data)[r..]
              && buf[..r] == old(fd.data)[..r] && buf[r..] == old(buf[..])[r..]
    ensures fd.reliable ==> r == if n <= |old(fd.data)| then n else |old(fd.data)|
  {
    ghost var stream, before := fd.data, buf[..];
    assert stream[0..] == stream;
    var nleft := n;
    ghost var done := 0;
    while nleft > 0
      invariant 0 <= nleft && done + nleft == n && done <= |stream|
      invariant fd.data == stream[done..]
      invariant forall i :: 0 <= i < buf.Length ==> buf[i] == if i < done then stream[i] else before[i]
      decreases nleft
    {
      var nread := fd.Read(buf, n - nleft, nleft);
      if nread == -1 {
        if nleft == n { return -1; } else { break; }
      } else if nread == 0 {
        break;
      }
      assert stream[done..][nread..] == stream[done + nread..];
      nleft := nleft - nread;
      done := done + nread;
    }
    r := n - nleft;
  }

  /** Writes `n` bytes whatever the sizes of the pieces; the result is how many went out. */
  method Writen(fd: Stream, block: seq<byte>) returns (r: int)
    modifies fd`data
    ensures r == -1 ==> !fd.reliable && fd.data == old(fd.data)
    ensures r != -1 ==> 0 <= r <= |block| && fd.data == old(fd.data) + block[..r]
    ensures fd.reliable ==> r == |block|
  {
    var n := |block|;
    var nleft := n;
    while nleft > 0
      invariant 0 <= nleft <= n
      invariant fd.data == old(fd.data) + block[..n - nleft]
      decreases nleft
    {
      var nwritten := fd.Write(block[n - nleft..]);
      if nwritten == -1 {
        if nleft == n { return -1; } else { break; }
      } else if nwritten == 0 {
        break;
      }
      ghost var done := n - nleft;
      assert block[done..][..nwritten] == block[done..done + nwritten];
      assert block[..done] + block[done..done + nwritten] == block[..done + nwritten];
      nleft := nleft - nwritten;
    }
    return n - nleft;
  }

  /** Numbers go out and come in whole. */
  method SendNumber(fd: Stream, n: nat) returns (err: int)
    requires fd.reliable && n < TWO_64
    modifies fd`data
    ensures err == WORD && fd.data == old(fd.data) + Encode(Num(n))
  {
    fd.data := fd.data + Bytes(n, WORD);
    return WORD;
  }

  method RecvNumber(fd: Stream) returns (n: nat)
    requires fd.reliable && |fd.data| >= WORD
    modifies fd`data
    ensures Decode(Number, old(fd.data)) == Some((Num(n), fd.data)) && n < TWO_64
  {
    WordRange();
    BytesOfValue(fd.data[..WORD]);
    n := Value(fd.data[..WORD]);
    fd.data := fd.data[WORD..];
  }

  method SendMessage(fd: Stream, message: seq<byte>) returns (err: int)
    requires fd.reliable && |message| < TWO_63
    modifies fd`data
    ensures err == 0 && fd.data == old(fd.data) + Encode(Msg(message))
  {
    var e := SendNumber(fd, |message|);
    var wrote := Writen(fd, message);
    if wrote != |message| {
      return -1;
    }
    assert message[..|message|] == message;
    return 0;
  }

  /** Delivers exactly the message that comes next, or none if the stream ends inside it. */
  method RecvMessage(fd: Stream) returns (message: Option<seq<byte>>)
    requires fd.reliable && |fd.data| >= WORD
    requires var size := Value(fd.data[..WORD]); size < TWO_63 || size == TWO_64 - 1
    modifies fd`data
    ensures match Decode(Message, old(fd.data))
            case Some((t, rest)) => message == Some(t.bytes) && t.Msg? && fd.data == rest
            case None => message == None
  {
    var size := RecvNumber(fd);
    var msgSize := Int64(size);
    if msgSize == -1 {
      return None;
    }
    ghost var rest := fd.data;
    var buffer := new byte[msgSize + 1];
    var byteRead := Readn(fd, buffer, msgSize);
    if byteRead != msgSize {
      return None;
    }
    assert buffer[..msgSize] == rest[..msgSize];
    return Some(buffer[..msgSize]);
  }
}
