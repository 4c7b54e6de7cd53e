/** The C integer conversions that the cache depends on, for the LP64 data model:
    `int` and `unsigned int` have 32 bits, `size_t` and `ssize_t` have 64.
    The expressions of the cache algorithm are written out with every implicit
    conversion, and compared with the integers they stand for. */
module CInt {
  const TWO_31 := 0x8000_0000
  const TWO_32 := 0x1_0000_0000
  const TWO_63 := 0x8000_0000_0000_0000
  const TWO_64 := 0x1_0000_0000_0000_0000

  /** Conversion to `unsigned int`. */
  function U32(x: int): nat { x % TWO_32 }

  /** Conversion to `size_t` or `unsigned long`. */
  function U64(x: int): nat { x % TWO_64 }

  /** Conversion to `int`: the low 32 bits, read in two's complement. */
  function Int32(x: int): int {
    var low := x % TWO_32;
    if low < TWO_31 then low else low - TWO_32
  }

  /** Conversion to `ssize_t`. */
  function Int64(x: int): int {
    var low := x % TWO_64;
    if low < TWO_63 then low else low - TWO_64
  }

  /** The negated guard of `is_action_legal`; both arguments of that function are `int`. */
  predicate LegalTest(used: nat, files: nat, maxMemory: nat, maxFiles: nat, nFiles: int, amount: int) {
    !(U64(used + U64(amount)) > maxMemory || U32(files + U32(nFiles)) > maxFiles)
  }

  /** `(int)((nCurrentFile + number_of_files) - (int)MaxFiles)` */
  function FilesToRemove(files: nat, nFiles: int, maxFiles: nat): int {
    Int32(U32(U32(files + U32(nFiles)) - U32(Int32(maxFiles))))
  }

  /** `(int)((current_memory + amount_of_memory) - (int)MaxMemory)` */
  function MemoryToRemove(used: nat, amount: nat, maxMemory: nat): int {
    Int32(U64(U64(used + amount) - U64(Int32(maxMemory))))
  }

  /** `(current_memory + amount_of_memory) - MaxMemory`, stored in a `ssize_t` */
  function MemoryStillToRemove(used: nat, amount: nat, maxMemory: nat): int {
    Int64(U64(U64(used + amount) - maxMemory))
  }

  // ---- remainders ----

  lemma SameRemainder(a: int, b: int, k: int, m: int)
    requires m > 0 && b == m * k + a
    ensures b % m == a % m
  {
    var qa, qb := a / m, b / m;
    assert a == m * qa + a % m && b == m * qb + b % m;
    assert m * (k + qa - qb) == b % m - a % m;
    NoMultiple(k + qa - qb, b % m - a % m, m);
  }

  lemma NoMultiple(q: int, d: int, m: int)
    requires m > 0 && m * q == d && -m < d < m
    ensures d == 0
  {
    assert q >= 1 ==> m * q >= m;
    assert q <= -1 ==> m * q <= -m;
  }

  /** A sum is the same to `size_t` whether or not its parts have been reduced first. */
  lemma Reduced64(x: int, y: int)
    ensures U64(U64(x) + y) == U64(x + y)
    ensures U64(y - U64(x)) == U64(y - x)
  {
    var q := x / TWO_64;
    assert x == TWO_64 * q + U64(x);
    SameRemainder(U64(x) + y, x + y, q, TWO_64);
    SameRemainder(y - x, y - U64(x), q, TWO_64);
  }

  lemma Reduced32(x: int, y: int)
    ensures U32(U32(x) + y) == U32(x + y)
    ensures U32(y - U32(x)) == U32(y - x)
  {
    var q := x / TWO_32;
    assert x == TWO_32 * q + U32(x);
    SameRemainder(U32(x) + y, x + y, q, TWO_32);
    SameRemainder(y - x, y - U32(x), q, TWO_32);
  }

  /** Reading as an `int` changes a value by a multiple of 2^32. */
  lemma Shortened(x: int, y: int)
    ensures Int32(y - Int32(x)) == Int32(y - x) && Int32(Int32(x) + y) == Int32(x + y)
  {
    var q := (x - Int32(x)) / TWO_32;
    assert x == TWO_32 * (x / TWO_32) + x % TWO_32;
    var k := if x % TWO_32 < TWO_31 then x / TWO_32 else x / TWO_32 + 1;
    assert x == TWO_32 * k + Int32(x);
    SameRemainder(y - x, y - Int32(x), k, TWO_32);
    SameRemainder(Int32(x) + y, x + y, k, TWO_32);
  }

  /** Reducing to 64 bits first does not change the low 32. */
  lemma LowBits(x: int)
    ensures Int32(U64(x)) == Int32(x)
  {
    var q := x / TWO_64;
    assert x == TWO_32 * (TWO_32 * q) + U64(x);
    SameRemainder(U64(x), x, TWO_32 * q, TWO_32);
  }

  /** Nor does reducing a part of a sum. */
  lemma ReducedInSum(x: int, y: int)
    ensures Int32(U64(x) + y) == Int32(x + y) && Int64(U64(x) + y) == Int64(x + y)
  {
    LowBits(U64(x) + y);
    LowBits(x + y);
    Reduced64(x, y);
    assert U64(U64(x) + y) == U64(x + y);
  }

  // ---- conversions that keep the value ----

  lemma SmallUnsigned(x: nat)
    ensures x < TWO_32 ==> U32(x) == x
    ensures x < TWO_64 ==> U64(x) == x
  {
  }

  /** A conversion to `int` keeps the value exactly when the value is an `int`. */
  lemma Int32Exact(x: int)
    ensures Int32(x) == x <==> -TWO_31 <= x < TWO_31
  {
    if -TWO_31 <= x < 0 {
      assert x % TWO_32 == x + TWO_32;
    } else if 0 <= x < TWO_31 {
      assert x % TWO_32 == x;
    }
  }

  lemma Int64Exact(x: int)
    ensures Int64(x) == x <==> -TWO_63 <= x < TWO_63
  {
    if -TWO_63 <= x < 0 {
      assert x % TWO_64 == x + TWO_64;
    } else if 0 <= x < TWO_63 {
      assert x % TWO_64 == x;
    }
  }

  // ---- the expressions of the cache algorithm ----

  /** The guard, with its conversions gathered: each limit is compared with one reduced sum. */
  lemma LegalTestIs(used: nat, files: nat, maxMemory: nat, maxFiles: nat, nFiles: int, amount: int)
    ensures LegalTest(used, files, maxMemory, maxFiles, nFiles, amount)
       <==> U64(used + amount) <= maxMemory && U32(files + nFiles) <= maxFiles
  {
    Reduced64(amount, used);
    Reduced32(nFiles, files);
  }

  /** The legality test on a request of any size: the size is cut to an `int` on the way in, so
      what is compared with the capacity is the size's low half. */
  lemma LegalTestExact(used: nat, files: nat, maxMemory: nat, maxFiles: nat, nFiles: nat, size: nat)
    requires used < TWO_63 && maxMemory < TWO_63 && files + nFiles < TWO_32
    ensures LegalTest(used, files, maxMemory, maxFiles, nFiles, Int32(size))
       <==> files + nFiles <= maxFiles && 0 <= used + Int32(size) <= maxMemory
  {
    LegalTestIs(used, files, maxMemory, maxFiles, nFiles, Int32(size));
    SumOrWrapped(used + Int32(size));
  }

  /** A sum that a `size_t` can hold, or one just below zero. */
  lemma SumOrWrapped(x: int)
    requires -TWO_63 <= x < TWO_64
    ensures U64(x) == if x < 0 then x + TWO_64 else x
  {
  }

  /** Hence the test answers the question it is asked, `used + size <= maxMemory`, exactly for the
      sizes below 2^31 and, from there on, where the low half happens to give the same answer: not
      below zero for a size that fits, and not admissible for one that does not. */
  lemma AdmissionExactWhen(used: nat, files: nat, maxMemory: nat, maxFiles: nat, nFiles: nat, size: nat)
    requires used <= maxMemory < TWO_63
    requires files + nFiles <= maxFiles < TWO_32
    ensures (LegalTest(used, files, maxMemory, maxFiles, nFiles, Int32(size)) <==> used + size <= maxMemory)
       <==> (|| size < TWO_31
             || (if used + size <= maxMemory then used + Int32(size) >= 0
                 else !(0 <= used + Int32(size) <= maxMemory)))
  {
    LegalTestExact(used, files, maxMemory, maxFiles, nFiles, size);
    Int32Exact(size);
    assert Int32(size) <= size;
  }

  /** A size within reach of a multiple of 2^32: what is free above it, what is used below it. */
  predicate NearMultiple(size: nat, k: nat, used: nat, maxMemory: nat) {
    k >= 1 && k * TWO_32 - used <= size <= k * TWO_32 + maxMemory - used
  }

  /** With a limit below 2^31, the sizes that do not fit and are admitted are exactly those. */
  lemma WronglyAdmittedIff(used: nat, files: nat, maxMemory: nat, maxFiles: nat, nFiles: nat, size: nat)
    requires used <= maxMemory < TWO_31
    requires files + nFiles <= maxFiles < TWO_32
    ensures LegalTest(used, files, maxMemory, maxFiles, nFiles, Int32(size)) && used + size > maxMemory
       <==> exists k: nat :: NearMultiple(size, k, used, maxMemory)
  {
    LegalTestExact(used, files, maxMemory, maxFiles, nFiles, size);
    if 0 <= used + Int32(size) <= maxMemory && used + size > maxMemory {
      var k := if size % TWO_32 < TWO_31 then size / TWO_32 else size / TWO_32 + 1;
      assert size == TWO_32 * k + Int32(size);
      assert NearMultiple(size, k, used, maxMemory);
    }
    if k: nat :| NearMultiple(size, k, used, maxMemory) {
      var low := size - k * TWO_32;
      SameRemainder(low, size, k, TWO_32);
      Int32Exact(low);
    }
  }

  /** A 4 GiB write is admitted into any store, as if it were empty. */
  lemma FourGigabytesAdmitted(used: nat, files: nat, maxMemory: nat, maxFiles: nat)
    requires used <= maxMemory < TWO_63 && files <= maxFiles < TWO_32
    ensures LegalTest(used, files, maxMemory, maxFiles, 0, Int32(TWO_32))
  {
    LegalTestExact(used, files, maxMemory, maxFiles, 0, TWO_32);
  }

  lemma Difference32(a: int, b: int)
    ensures Int32(U32(U32(a) - U32(b))) == Int32(a - b)
  {
    Reduced32(b, U32(a));
    Reduced32(a, -b);
    assert U32(U32(a) - U32(b)) == U32(a - b);
    assert U32(a - b) % TWO_32 == (a - b) % TWO_32;
  }

  /** Whatever the operands, the number of files to drop is the true difference read as an `int`. */
  lemma FilesToRemoveIs(files: nat, nFiles: int, maxFiles: nat)
    ensures FilesToRemove(files, nFiles, maxFiles) == Int32(files + nFiles - maxFiles)
  {
    Difference32(files + U32(nFiles), Int32(maxFiles));
    Shortened(maxFiles, files + U32(nFiles));
    assert FilesToRemove(files, nFiles, maxFiles) == Int32(files + U32(nFiles) - maxFiles);
    Reduced32(nFiles, files - maxFiles);
  }

  /** So it is exact, negative differences included, exactly when the difference is an `int`. */
  lemma FilesToRemoveExact(files: nat, nFiles: nat, maxFiles: nat)
    ensures FilesToRemove(files, nFiles, maxFiles) == files + nFiles - maxFiles
       <==> -TWO_31 <= files + nFiles - maxFiles < TWO_31
  {
    FilesToRemoveIs(files, nFiles, maxFiles);
    Int32Exact(files + nFiles - maxFiles);
  }

  /** Likewise the number of bytes to drop: the cast of the limit costs nothing, that of the
      difference does. */
  lemma MemoryToRemoveIs(used: nat, amount: nat, maxMemory: nat)
    ensures MemoryToRemove(used, amount, maxMemory) == Int32(used + amount - maxMemory)
  {
    Reduced64(Int32(maxMemory), U64(used + amount));
    Reduced64(used + amount, -Int32(maxMemory));
    LowBits(used + amount - Int32(maxMemory));
    Shortened(maxMemory, used + amount);
  }

  lemma MemoryToRemoveExact(used: nat, amount: nat, maxMemory: nat)
    ensures MemoryToRemove(used, amount, maxMemory) == used + amount - maxMemory
       <==> -TWO_31 <= used + amount - maxMemory < TWO_31
  {
    MemoryToRemoveIs(used, amount, maxMemory);
    Int32Exact(used + amount - maxMemory);
  }

  /** Inside the loop the difference is kept in 64 bits. */
  lemma MemoryStillToRemoveIs(used: nat, amount: nat, maxMemory: nat)
    ensures MemoryStillToRemove(used, amount, maxMemory) == Int64(used + amount - maxMemory)
  {
    var limit: int := maxMemory;
    Reduced64(used + amount, -limit);
    assert MemoryStillToRemove(used, amount, maxMemory) == Int64(U64(used + amount - maxMemory));
    assert Int64(U64(used + amount - maxMemory)) == Int64(used + amount - maxMemory);
  }

  lemma MemoryStillToRemoveExact(used: nat, amount: nat, maxMemory: nat)
    ensures MemoryStillToRemove(used, amount, maxMemory) == used + amount - maxMemory
       <==> -TWO_63 <= used + amount - maxMemory < TWO_63
  {
    MemoryStillToRemoveIs(used, amount, maxMemory);
    Int64Exact(used + amount - maxMemory);
  }
}
