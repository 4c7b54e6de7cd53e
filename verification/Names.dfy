/** File names as C strings, and the two-sided prefix test by which the cache compares them. */
module Names {

  type byte = x: int | 0 <= x < 256

  const MAXNAME := 256

  /** A file name that fits its buffer: no terminator inside, and room for the one at the end. */
  type CName = s: seq<byte> | |s| < MAXNAME && (forall i :: 0 <= i < |s| ==> s[i] != 0)
    witness []

  /** The name buffer of a file. */
  datatype Name = Name(chars: CName)

  /** The character at an offset of a C string; the terminator follows the last one. */
  function CharAt(s: CName, i: nat): byte {
    if i < |s| then s[i] else 0
  }

  /** `strncmp` from offset `i` on: the difference at the first mismatch among the next `n`
      characters, 0 if there is none before the terminator. */
  function Strncmp(a: CName, b: CName, i: nat, n: nat): int
    decreases n
  {
    if n == 0 then 0
    else if CharAt(a, i) != CharAt(b, i) then CharAt(a, i) - CharAt(b, i)
    else if CharAt(a, i) == 0 then 0
    else Strncmp(a, b, i + 1, n - 1)
  }

  /** Over the first string's remaining length, `strncmp` is a prefix test. */
  lemma {:induction false} StrncmpIsPrefix(a: CName, b: CName, i: nat)
    requires i <= |a| && i <= |b| && a[..i] == b[..i]
    ensures Strncmp(a, b, i, |a| - i) == 0 <==> a <= b
    decreases |a| - i
  {
    if i == |a| {
      assert a == a[..i] && b[..i] <= b;
    } else if i < |b| && a[i] == b[i] {
      assert a[..i + 1] == a[..i] + [a[i]] && b[..i + 1] == b[..i] + [b[i]];
      StrncmpIsPrefix(a, b, i + 1);
    } else {
      assert CharAt(a, i) != CharAt(b, i);
    }
  }

  /** Two names are taken for equal when each agrees with the other over its own length. One
      such test would confuse "a" with "ab"; the two together accept exactly equal names. */
  predicate EqualNames(a: Name, b: Name): (equal: bool)
    ensures equal <==> a == b
  {
    var s, t := a.chars, b.chars;
    StrncmpIsPrefix(s, t, 0);
    StrncmpIsPrefix(t, s, 0);
    assert s <= t && t <= s ==> s == t;
    Strncmp(s, t, 0, |s|) == 0 && Strncmp(t, s, 0, |t|) == 0
  }
}
