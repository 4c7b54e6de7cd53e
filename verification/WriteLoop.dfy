/** The loop by which a block goes into a file: `fwrite` takes the whole block in every turn, and an
    `int` counts the bytes. */
module WriteLoop {
  import opened CInt

  /** The counter after a number of turns. */
  function Wrote(size: nat, turns: nat): int {
    if turns == 0 then 0 else Int32(Wrote(size, turns - 1) + size)
  }

  /** The guard compares the counter with the size as a `size_t`. */
  predicate GoesOn(size: nat, wrote: int) {
    U64(wrote) < size
  }

  predicate Ends(size: nat, turns: nat) {
    !GoesOn(size, Wrote(size, turns))
  }

  predicate NeverEnds(size: nat) {
    size > 0 && size % TWO_32 == 0
  }

  /** How often the block goes in. From 2^31 bytes on the loop ends when the counter is negative, which
      reads as a very large size. A block that never ends counts once, as far as it gets. */
  function Turns(size: nat): (turns: nat) {
    var low := size % TWO_32;
    if size == 0 then 0
    else if size < TWO_31 || low == 0 || low >= TWO_31 then 1
    else (TWO_31 + low - 1) / low
  }

  lemma TurnsPositive(size: nat)
    requires size > 0
    ensures Turns(size) >= 1
  {
  }

  /** What the loop leaves in the counter. */
  function Counted(size: nat): int {
    Wrote(size, Turns(size))
  }

  /** A block as often as the loop puts it into the file. */
  function Written<T>(data: seq<T>): seq<T> {
    Times(data, Turns(|data|))
  }

  function Times<T>(data: seq<T>, n: nat): seq<T> {
    if n == 0 then [] else Times(data, n - 1) + data
  }

  lemma {:induction false} TimesSize<T>(data: seq<T>, n: nat)
    ensures |Times(data, n)| == n * |data|
  {
    if n > 0 {
      TimesSize(data, n - 1);
      OneMore(|data|, n);
    }
  }

  lemma {:induction false} WroteIs(size: nat, turns: nat)
    ensures Wrote(size, turns) == Int32(turns * size)
  {
    if turns > 0 {
      WroteIs(size, turns - 1);
      Shortened((turns - 1) * size, size);
      OneMore(size, turns);
    }
  }

  lemma OneMore(size: nat, turns: nat)
    requires turns > 0
    ensures (turns - 1) * size + size == turns * size
  {
  }

  /** The counter only depends on the low half of the size. */
  lemma LowHalf(size: nat, turns: nat)
    ensures Int32(turns * size) == Int32(turns * (size % TWO_32))
  {
    var low, q := size % TWO_32, size / TWO_32;
    Expanded(size, low, q, turns);
    SameRemainder(turns * low, turns * size, turns * q, TWO_32);
  }

  lemma Expanded(size: nat, low: nat, q: nat, turns: nat)
    requires size == TWO_32 * q + low
    ensures turns * size == TWO_32 * (turns * q) + turns * low
  {
    assert turns * (TWO_32 * q) == TWO_32 * (turns * q);
  }

  /** The counter while what has been written stays below 2^31, counting the low halves only. */
  lemma WroteSmall(size: nat, k: nat)
    requires k * (size % TWO_32) < TWO_31
    ensures Wrote(size, k) == k * (size % TWO_32)
  {
    WroteIs(size, k);
    LowHalf(size, k);
    var x := k * (size % TWO_32);
    assert x >= 0;
    Int32Exact(x);
  }

  /** And where it has passed 2^31 for the first time. */
  lemma WroteNegative(size: nat, k: nat)
    requires TWO_31 <= k * (size % TWO_32) < TWO_32
    ensures Wrote(size, k) == k * (size % TWO_32) - TWO_32
  {
    WroteIs(size, k);
    LowHalf(size, k);
    var x := k * (size % TWO_32);
    assert x % TWO_32 == x;
  }

  /** Where the low halves of the turns add up. */
  lemma TurnsOfLow(size: nat)
    requires size >= TWO_31 && !NeverEnds(size)
    ensures TWO_31 <= Turns(size) * (size % TWO_32) < TWO_32
    ensures forall k :: 0 <= k < Turns(size) ==> k * (size % TWO_32) < TWO_31
  {
    var low := size % TWO_32;
    assert low > 0;
    if low < TWO_31 {
      LastTurn(low);
      forall k | 0 <= k < Turns(size) ensures k * low < TWO_31 {
        FewTurns(low, k);
      }
    } else {
      assert Turns(size) == 1 && 1 * low == low && 0 * low == 0;
    }
  }

  /** Before its last turn the loop goes on, and after it it ends. */
  lemma EndsAfterTurns(size: nat)
    requires size < TWO_63 && !NeverEnds(size)
    ensures Ends(size, Turns(size)) && forall k :: 0 <= k < Turns(size) ==> !Ends(size, k)
  {
    if size >= TWO_31 {
      TurnsOfLow(size);
      WroteNegative(size, Turns(size));
      ReadsVeryLarge(size, Wrote(size, Turns(size)));
      forall k | 0 <= k < Turns(size) ensures !Ends(size, k) {
        WroteSmall(size, k);
        ReadsAsIs(Wrote(size, k));
      }
    } else if size > 0 {
      assert size % TWO_32 == size && 1 * size == size;
      WroteSmall(size, 1);
      ReadsAsIs(size);
    }
  }

  lemma ReadsVeryLarge(size: nat, wrote: int)
    requires size < TWO_63 && -TWO_31 <= wrote < 0
    ensures !GoesOn(size, wrote)
  {
  }

  lemma ReadsAsIs(wrote: nat)
    requires wrote < TWO_64
    ensures U64(wrote) == wrote
  {
  }

  lemma FewTurns(low: nat, k: nat)
    requires 0 < low < TWO_31 && k < (TWO_31 + low - 1) / low
    ensures k * low < TWO_31
  {
    var n := TWO_31 + low - 1;
    var t := n / low;
    assert n == t * low + n % low;
    Monotone(k, t - 1, low);
    assert (t - 1) * low == t * low - low;
  }

  lemma Monotone(a: nat, b: nat, c: nat)
    requires a <= b
    ensures a * c <= b * c
  {
  }

  lemma LastTurn(low: nat)
    requires 0 < low < TWO_31
    ensures TWO_31 <= ((TWO_31 + low - 1) / low) * low < TWO_32
  {
  }

  lemma NothingCounted(size: nat, turns: nat)
    requires NeverEnds(size)
    ensures Wrote(size, turns) == 0
  {
    assert turns * 0 == 0;
    WroteSmall(size, turns);
  }

  /** The loop ends iff the size is 0 or no multiple of 2^32, and then after that many turns. */
  lemma WriteLoopEndsIff(size: nat)
    requires size < TWO_63
    ensures (exists k :: Ends(size, k)) <==> !NeverEnds(size)
    ensures !NeverEnds(size) ==> Ends(size, Turns(size)) && forall k :: 0 <= k < Turns(size) ==> !Ends(size, k)
  {
    if NeverEnds(size) {
      forall k ensures !Ends(size, k) {
        NothingCounted(size, k);
      }
    } else {
      EndsAfterTurns(size);
    }
  }

  /** Below 2^32 bytes the block goes in once. The counter is right exactly below 2^31; from there on,
      where the loop ends, it is negative. */
  lemma CountedIs(size: nat)
    ensures Counted(size) == size <==> size < TWO_31
    ensures 0 < size < TWO_32 ==> Turns(size) == 1
    ensures TWO_31 <= size && !NeverEnds(size) ==> -TWO_31 <= Counted(size) < 0
    ensures TWO_31 <= size < TWO_32 ==> Counted(size) == size - TWO_32
  {
    if size < TWO_31 {
      assert size % TWO_32 == size && 1 * size == size;
      if size > 0 { WroteSmall(size, 1); }
    } else if NeverEnds(size) {
      NothingCounted(size, Turns(size));
    } else {
      TurnsOfLow(size);
      WroteNegative(size, Turns(size));
      if size < TWO_32 { assert size % TWO_32 == size && 1 * size == size; }
    }
  }

  lemma OnceBelow<T>(data: seq<T>)
    requires |data| < TWO_32
    ensures Written(data) == data
  {
    if data != [] {
      assert Times(data, 0) == [];
      assert [] + data == data;
    }
  }
}
