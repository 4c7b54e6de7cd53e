/** Operation codes, status values and error numbers on the wire, and the units exchanged. */
module Protocol {
  import opened Names

  const O_CREATE := 0x01

  const OPEN_FILE := 0x05
  const READ_FILE := 0x07
  const WRITE_FILE := 0x08
  const READN_FILE := 0x09
  const REMOVE_FILE := 0x0B
  const CLOSE_CONNECTION := 0x0C

  const OK := 0x01
  const NOT_OK := 0x00
  const CONTINUE := 0x321
  const NO_CONTINUE := 0x432

  // Linux error numbers
  const ENOENT := 2
  const E2BIG := 7
  const EACCES := 13
  const EEXIST := 17
  const ENODATA := 61
  const ENONET := 64
  const ECANCELED := 125

  /** What one `send_number` or one `send_message` puts on a connection. */
  datatype Token = Num(n: nat) | Msg(bytes: seq<byte>)

  /** A unit that goes out, or comes in. */
  datatype Io = Out(token: Token) | In(token: Token)

  function Outs(ts: seq<Token>): (ios: seq<Io>)
    ensures |ios| == |ts|
  {
    seq(|ts|, i requires 0 <= i < |ts| => Out(ts[i]))
  }

  function SentIn(ios: seq<Io>): seq<Token> {
    if ios == [] then [] else (if ios[0].Out? then [ios[0].token] else []) + SentIn(ios[1..])
  }

  function ReceivedIn(ios: seq<Io>): seq<Token> {
    if ios == [] then [] else (if ios[0].In? then [ios[0].token] else []) + ReceivedIn(ios[1..])
  }
}
