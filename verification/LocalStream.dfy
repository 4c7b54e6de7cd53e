/** The local file that a client reads before it sends it: a stream with a position and an end flag,
    and the loop that asks it for the whole file until the flag is set. */
module LocalStream {
  import opened Names

  /** A stream being read into a buffer. */
  datatype Reading = Reading(data: seq<byte>, pos: nat, eof: bool, buf: seq<byte>)

  ghost predicate Within(r: Reading) {
    r.pos <= |r.data|
  }

  function Opened(data: seq<byte>, buf: seq<byte>): Reading {
    Reading(data, 0, false, buf)
  }

  /** `fread` of as many bytes as the buffer holds. It sets the flag when it has to stop short; when
      it is asked for none it leaves the stream as it is. */
  function AfterFread(r: Reading): Reading
    requires Within(r)
  {
    if r.buf == [] then r
    else
      var got := if |r.buf| <= |r.data| - r.pos then |r.buf| else |r.data| - r.pos;
      Reading(r.data, r.pos + got, r.eof || got < |r.buf|, r.data[r.pos..r.pos + got] + r.buf[got..])
  }

  /** The state after `k` turns of the loop. */
  function Turns(r: Reading, k: nat): (after: Reading)
    requires Within(r)
    ensures Within(after)
  {
    if k == 0 then r else AfterFread(Turns(r, k - 1))
  }

  ghost predicate LoopEnds(r: Reading)
    requires Within(r)
  {
    exists k :: Turns(r, k).eof
  }

  lemma {:induction false} NothingAsked(r: Reading, k: nat)
    requires Within(r) && r.buf == []
    ensures Turns(r, k) == r
  {
    if k > 0 { NothingAsked(r, k - 1); }
  }

  /** The loop comes to an end iff the file is not empty; its second turn is then the last, and the
      buffer holds the file. */
  lemma ReadLoopEndsIff(data: seq<byte>, buf: seq<byte>)
    requires |buf| == |data|
    ensures var r := Opened(data, buf);
            && (LoopEnds(r) <==> data != [])
            && (data != [] ==> !Turns(r, 1).eof && Turns(r, 2).eof && Turns(r, 2).buf == data)
  {
    var r := Opened(data, buf);
    if data == [] {
      forall k ensures !Turns(r, k).eof {
        NothingAsked(r, k);
      }
    } else {
      assert Turns(r, 0) == r;
      assert Turns(r, 1) == Reading(data, |data|, false, data) by {
        assert data[..|data|] + buf[|data|..] == data;
      }
      assert Turns(r, 2) == Reading(data, |data|, true, data) by {
        assert data[|data|..|data|] + data[0..] == data;
      }
    }
  }

  class FileStream {
    const data: seq<byte>
    var pos: nat
    var eof: bool

    constructor Fopen(data: seq<byte>)
      ensures this.data == data && pos == 0 && !eof
    {
      this.data, pos, eof := data, 0, false;
    }

    method Fread(buf: array<byte>)
      requires pos <= |data|
      modifies this, buf
      ensures Reading(data, pos, eof, buf[..]) == AfterFread(old(Reading(data, pos, eof, buf[..])))
      ensures pos <= |data|
    {
      if buf.Length == 0 { return; }
      var got := if buf.Length <= |data| - pos then buf.Length else |data| - pos;
      forall i | 0 <= i < got {
        buf[i] := data[pos + i];
      }
      if got < buf.Length { eof := true; }
      pos := pos + got;
    }
  }

  /** The loop, for a file that is not empty. */
  method ReadAll(fp: FileStream, size: nat) returns (content: seq<byte>)
    requires fp.pos == 0 && !fp.eof && size == |fp.data| > 0
    modifies fp
    ensures content == fp.data && fp.eof
  {
    var fileCont := new byte[size];
    ghost var turns, start := 0, Opened(fp.data, fileCont[..]);
    ReadLoopEndsIff(fp.data, fileCont[..]);
    while !fp.eof
      invariant turns <= 2 && fp.pos <= |fp.data|
      invariant Reading(fp.data, fp.pos, fp.eof, fileCont[..]) == Turns(start, turns)
      invariant turns == 2 ==> fp.eof
      decreases 2 - turns
    {
      fp.Fread(fileCont);
      turns := turns + 1;
    }
    return fileCont[..];
  }
}
