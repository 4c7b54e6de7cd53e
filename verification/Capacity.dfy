/** What the cache promises about its two capacities, one request at a time and over whole runs. */
module Capacity {
  import opened CInt
  import opened WriteLoop
  import opened Names
  import opened FileStore
  import opened Protocol
  import opened Requests

  function EmptyStore(maxFiles: nat, maxMemory: nat): Store {
    Store([], maxFiles, maxMemory, 0, 0, 0, 0)
  }

  /** The store after a sequence of requests. */
  function Run(st: Store, policy: Policy, reqs: seq<Request>): Store {
    if reqs == [] then st
    else Handle(Run(st, policy, reqs[..|reqs| - 1]), policy, reqs[|reqs| - 1]).store
  }

  // ---- eviction ----

  /** The limits are within their C types, one more file can be counted, and the counter of bytes is
      exact. */
  predicate Regular(st: Store) {
    st.maxFiles < TWO_32 - 1 && st.maxMemory < TWO_63 && st.drift == 0
  }

  /** Whatever the request, eviction leaves a prefix, never more files or bytes than before,
      and leaves the capacities alone. */
  lemma EvictionShrinks(st: Store, nFiles: nat, amount: nat)
    ensures var after := MakeRoom(st, nFiles, amount);
            |after.files| <= |st.files| && after.files == st.files[..|after.files|]
            && Total(after.files) <= Total(st.files)
            && after.maxFiles == st.maxFiles && after.maxMemory == st.maxMemory
  {
    MakeRoomPrefix(st, nFiles, amount);
    assert st.files[..|st.files|] == st.files;
    TotalPrefix(st.files, |MakeRoom(st, nFiles, amount).files|, |st.files|);
  }

  /** Below 2^31 bytes, admission asks what it is meant to ask. */
  lemma LegalIsFits(st: Store, nFiles: nat, amount: nat)
    requires Total(st.files) < TWO_63 && st.maxMemory < TWO_63 && st.drift == 0
    requires |st.files| + nFiles < TWO_32 && amount < TWO_31
    ensures Legal(st, nFiles, amount) <==> Fits(st, |st.files|, nFiles, amount)
  {
    assert st.files[..|st.files|] == st.files;
    Int32Exact(amount);
  }

  /** A difference of counts below -2^31 reads as more files than there are. */
  lemma FilesOverReads(st: Store, nFiles: nat)
    requires |st.files| <= st.maxFiles < TWO_32 && nFiles < TWO_31
    ensures var d := |st.files| + nFiles - st.maxFiles;
            FilesOver(st, nFiles) == if d < -TWO_31 then d + TWO_32 else d
    ensures |st.files| + nFiles - st.maxFiles < -TWO_31 ==> FilesOver(st, nFiles) > |st.files|
  {
    var d := |st.files| + nFiles - st.maxFiles;
    if d < -TWO_31 {
      SameRemainder(d, d + TWO_32, 1, TWO_32);
      assert Int32(d) == Int32(d + TWO_32);
      Int32Exact(d + TWO_32);
    } else {
      Int32Exact(d);
    }
  }

  /** The guards of the two phases see what is over the limits, for a size that is an `int`. */
  predicate CastsHold(st: Store, nFiles: nat, amount: nat) {
    var kept := st.files[..FilePhase(st, nFiles)];
    && -TWO_31 <= |st.files| + nFiles - st.maxFiles < TWO_31
    && (BytesGuard(kept, st.drift, st.maxMemory, amount) <==> Total(kept) + amount > st.maxMemory)
  }

  /** For a request strictly below both capacities, eviction removes the shortest suffix after
      which the request fits, and counts one trigger iff that suffix is not empty, provided that
      the two differences read as `int` have the sign that they should. */
  lemma ExactEviction(st: Store, nFiles: nat, amount: nat)
    requires Total(st.files) < TWO_63 && st.maxMemory < TWO_63 && st.drift == 0 && |st.files| + nFiles < TWO_32
    requires nFiles < st.maxFiles && amount < st.maxMemory && amount < TWO_31
    requires CastsHold(st, nFiles, amount)
    ensures var after := MakeRoom(st, nFiles, amount);
            var m := |after.files|;
            m <= |st.files| && after.files == st.files[..m]
            && Fits(st, m, nFiles, amount)
            && (forall k :: m < k <= |st.files| ==> !Fits(st, k, nFiles, amount))
            && after.trigger == st.trigger + (if m < |st.files| then 1 else 0)
  {
    EvictionShrinks(st, nFiles, amount);
    LegalIsFits(st, nFiles, amount);
    if !Legal(st, nFiles, amount) {
      assert st.files[..|st.files|] == st.files;
      Int32Exact(|st.files| + nFiles - st.maxFiles);
      BytesExact(st, FilePhase(st, nFiles), nFiles, amount);
    }
  }

  /** The byte phase on the first `m` files, as many as the count allows. */
  lemma {:induction false} BytesExact(st: Store, m: nat, nFiles: nat, amount: nat)
    requires st.drift == 0 && m <= |st.files| && Total(st.files) < TWO_63
    requires amount < st.maxMemory < TWO_63 && amount < TWO_31
    requires m + nFiles <= st.maxFiles && (m < |st.files| ==> m + nFiles == st.maxFiles)
    requires BytesGuard(st.files[..m], 0, st.maxMemory, amount) <==> Total(st.files[..m]) + amount > st.maxMemory
    ensures var r := BytePhase(st.files[..m], 0, st.maxMemory, amount);
            Fits(st, r, nFiles, amount) && (forall k :: r < k <= |st.files| ==> !Fits(st, k, nFiles, amount))
            && (r < m <==> BytesGuard(st.files[..m], 0, st.maxMemory, amount))
  {
    var kept, limit := st.files[..m], st.maxMemory;
    assert kept[..m] == kept;
    assert m == 0 ==> Total(kept) == 0;
    if BytesGuard(kept, 0, limit, amount) {
      SearchExact(st, m, nFiles, amount);
    }
  }

  /** Where the first `m` files are too many bytes, the loop finds the longest prefix that fits. */
  lemma {:induction false} SearchExact(st: Store, m: nat, nFiles: nat, amount: nat)
    requires st.drift == 0 && 0 < m <= |st.files| && Total(st.files) < TWO_63
    requires amount < st.maxMemory < TWO_63 && amount < TWO_31
    requires m + nFiles <= st.maxFiles && (m < |st.files| ==> m + nFiles == st.maxFiles)
    requires Total(st.files[..m]) + amount > st.maxMemory
    ensures var r := Fitting(st.files[..m][..m - 1], 0, st.maxMemory, amount);
            Fits(st, r, nFiles, amount) && (forall k :: r < k <= |st.files| ==> !Fits(st, k, nFiles, amount)) && r < m
  {
    var front := st.files[..m][..m - 1];
    FittingIsLongest(front, 0, st.maxMemory, amount);
    forall k | 0 <= k < m ensures OverInLoop(st, front, k, amount) {
      PrefixOver(st, m, k, amount);
    }
    var r := Fitting(front, 0, st.maxMemory, amount);
    assert OverInLoop(st, front, r, amount);
    forall k | r < k <= |st.files| ensures !Fits(st, k, nFiles, amount) {
      if k < m { assert OverInLoop(st, front, k, amount); }
    }
  }

  /** The loop's guard on a part of the list says whether the list's prefix is over. */
  predicate OverInLoop(st: Store, front: seq<File>, k: nat, amount: nat)
    requires k <= |front| && k <= |st.files|
  {
    StillOver(front[..k], 0, st.maxMemory, amount) <==> Total(st.files[..k]) + amount > st.maxMemory
  }

  lemma PrefixOver(st: Store, m: nat, k: nat, amount: nat)
    requires st.drift == 0 && k < m <= |st.files| && Total(st.files) < TWO_63
    requires amount < st.maxMemory < TWO_63 && amount < TWO_31
    ensures OverInLoop(st, st.files[..m][..m - 1], k, amount)
  {
    assert st.files[..m][..m - 1][..k] == st.files[..k] && st.files[..|st.files|] == st.files;
    TotalPrefix(st.files, k, |st.files|);
    Int64Exact(Total(st.files[..k]) + amount - st.maxMemory);
  }

  /** In a store within its capacities, eviction never keeps too much; and it keeps what it should
      exactly when the request fits, or nothing could be kept, or the casts hold. */
  lemma EvictionExactIff(st: Store, nFiles: nat, amount: nat)
    requires Regular(st) && InCapacity(st) && |st.files| + nFiles < TWO_32
    requires nFiles < st.maxFiles && nFiles < TWO_31 && amount < st.maxMemory && amount < TWO_31
    ensures var r, best := |MakeRoom(st, nFiles, amount).files|, Keep(st, |st.files|, nFiles, amount);
            r <= best
            && (r == best <==> Fits(st, |st.files|, nFiles, amount) || best == 0 || CastsHold(st, nFiles, amount))
  {
    LegalIsFits(st, nFiles, amount);
    MakeRoomPrefix(st, nFiles, amount);
    assert st.files[..|st.files|] == st.files;
    if !Legal(st, nFiles, amount) {
      FilesOverReads(st, nFiles);
      if CastsHold(st, nFiles, amount) {
        ExactEviction(st, nFiles, amount);
      } else {
        CastsAstray(st, nFiles, amount);
      }
    }
  }

  /** Where a cast goes astray, a file goes that could have stayed, if there is one. */
  lemma CastsAstray(st: Store, nFiles: nat, amount: nat)
    requires Regular(st) && InCapacity(st) && |st.files| + nFiles < TWO_32
    requires nFiles < st.maxFiles && nFiles < TWO_31 && amount < st.maxMemory && amount < TWO_31
    requires !Legal(st, nFiles, amount) && !CastsHold(st, nFiles, amount)
    ensures var r, best := |MakeRoom(st, nFiles, amount).files|, Keep(st, |st.files|, nFiles, amount);
            r <= best && (r == best ==> best == 0)
  {
    FilesOverReads(st, nFiles);
    var m := FilePhase(st, nFiles);
    var kept := st.files[..m];
    if |st.files| + nFiles - st.maxFiles >= -TWO_31 {
      TotalPrefix(st.files, m, |st.files|);
      assert st.files[..|st.files|] == st.files;
      Int32Exact(Total(kept) + amount - st.maxMemory);
      assert Fits(st, m, nFiles, amount);
    }
  }

  // ---- one request ----

  /** When a request keeps a store within its capacities; a caller can tell beforehand. */
  predicate Safe(st: Store, req: Request) {
    match req
    case Open(name, flags) => flags == O_CREATE && !Has(st.files, name) ==> SafeCreate(st)
    case Write(name, data) => Has(st.files, name) ==> SafeWrite(st, |data|)
    case _ => true
  }

  /** A free place, or a capacity of at least two files: a store of capacity one does not evict for
      a new file, unless its byte limit is so far off that the difference, read as an `int`, looks
      like an excess. */
  predicate SafeCreate(st: Store) {
    || st.maxFiles >= 2
    || |st.files| < st.maxFiles
    || (st.maxFiles == 1 && BytesGuard(st.files, st.drift, st.maxMemory, 0))
  }

  /** The data fit; or their size, cut to an `int`, is not admitted, and then either the size is
      above the capacity and refused or one of the two phases evicts. A size of exactly the
      capacity passes both, and so does one whose low half looks small. */
  predicate SafeWrite(st: Store, size: nat) {
    || Total(st.files) + size <= st.maxMemory
    || (&& !Legal(st, 0, size)
        && (size > st.maxMemory || FilesGuard(st, 0) || BytesGuard(st.files, st.drift, st.maxMemory, size)))
  }

  lemma AppendedTotal(files: seq<File>, name: Name, data: seq<byte>)
    requires Has(files, name)
    ensures Total(AppendTo(files, name, data)) == Total(files) + |data|
  {
    var k := IndexOf(files, name);
    TotalUpdate(files, k, files[k].(content := files[k].content + data));
  }

  lemma OpenedTotal(files: seq<File>, name: Name)
    requires Has(files, name)
    ensures Total(SetOpen(files, name)) == Total(files)
  {
    var k := IndexOf(files, name);
    TotalUpdate(files, k, files[k].(isOpen := true));
  }

  lemma CreateCapacity(st: Store, name: Name)
    requires Regular(st) && InCapacity(st) && !Has(st.files, name)
    ensures InCapacity(Created(st, name)) <==> SafeCreate(st)
  {
    var room := MakeRoom(st, 1, 0);
    EvictionShrinks(st, 1, 0);
    TotalConcat([NewFile(name)], room.files);
    TotalOne(NewFile(name));
    LegalIsFits(st, 1, 0);
    assert st.files[..|st.files|] == st.files;
    if !Legal(st, 1, 0) && !TooBig(st, 1, 0) {
      FilesOverReads(st, 1);
      assert FilesOver(st, 1) == 1;
    }
  }

  /** A block below 2^32 bytes goes into the file once, and a larger one at least once. */
  lemma WrittenSize<T>(data: seq<T>)
    ensures |Written(data)| >= |data| && (|data| < TWO_32 ==> Written(data) == data)
    ensures DriftOf(|data|) == 0 <==> |data| < TWO_31
  {
    var n := |data|;
    TimesSize(data, Turns(n));
    CountedIs(n);
    if n < TWO_32 { OnceBelow(data); }
    AtLeastOnce(n);
  }

  lemma AtLeastOnce(n: nat)
    ensures Turns(n) * n >= n && (n >= TWO_31 ==> Counted(n) < n)
  {
    CountedIs(n);
    if n > 0 {
      TurnsPositive(n);
      Monotone(1, Turns(n), n);
    }
    if NeverEnds(n) { NothingCounted(n, Turns(n)); }
  }

  lemma WriteCapacity(st: Store, policy: Policy, name: Name, data: seq<byte>)
    requires |data| < TWO_32 || st.maxMemory < TWO_32
    requires Regular(st) && InCapacity(st) && Unique(st.files) && Has(st.files, name)
    ensures InCapacity(WriteReply(st, policy, name, data).store) <==> SafeWrite(st, |data|)
  {
    PromoteKeeps(st.files, policy, name);
    var found := Looked(st, policy, name);
    SameSafety(st, found, |data|);
    RoomForWrite(found, |data|);
    WrittenTotal(found, policy, st, name, data);
    WrittenSize(data);
    EvictionShrinks(found, 0, |data|);
  }

  /** Safety depends on the number of files and of bytes only. */
  lemma SameSafety(st: Store, found: Store, size: nat)
    requires Total(found.files) == Total(st.files) && |found.files| == |st.files|
    requires found.maxFiles == st.maxFiles && found.maxMemory == st.maxMemory && found.drift == st.drift
    ensures SafeWrite(found, size) <==> SafeWrite(st, size)
  {
  }

  lemma WrittenTotal(found: Store, policy: Policy, st: Store, name: Name, data: seq<byte>)
    requires Has(st.files, name) && found == Looked(st, policy, name)
    ensures var after, room := WriteReply(st, policy, name, data).store, MakeRoom(found, 0, |data|);
            var granted := Granted(st, policy, name, |data|);
            && after.maxFiles == room.maxFiles && after.maxMemory == room.maxMemory
            && |after.files| == |room.files|
            && Total(after.files) == Total(room.files) + (if granted then |Written(data)| else 0)
            && after.drift == room.drift + if granted then DriftOf(|data|) else 0
  {
    var room := MakeRoom(found, 0, |data|);
    if Has(room.files, name) { AppendedTotal(room.files, name, Written(data)); }
  }

  /** What eviction leaves of a store for a write that is not refused. */
  lemma RoomForWrite(st: Store, size: nat)
    requires Regular(st) && InCapacity(st)
    ensures var room := MakeRoom(st, 0, size).files;
            if CacheErrno(st, 0, size) == E2BIG then SafeWrite(st, size)
            else if SafeWrite(st, size) then Total(room) + size <= st.maxMemory
            else room == st.files && Total(st.files) + size > st.maxMemory
  {
    EvictionShrinks(st, 0, size);
    assert st.files[..|st.files|] == st.files;
    if !Legal(st, 0, size) && !TooBig(st, 0, size) {
      FilesOverReads(st, 0);
      if !FilesGuard(st, 0) && BytesGuard(st.files, st.drift, st.maxMemory, size) {
        FirstVictims(st.files, st.maxMemory, size);
      }
    }
  }

  lemma FirstVictims(files: seq<File>, limit: nat, size: nat)
    requires Total(files) <= limit < TWO_63 && BytesGuard(files, 0, limit, size)
    ensures Total(files[..BytePhase(files, 0, limit, size)]) + size <= limit
  {
    if files != [] {
      var front := files[..|files| - 1];
      var r := Fitting(front, 0, limit, size);
      FittingIsLongest(front, 0, limit, size);
      assert front[..r] == files[..r] && files[..|files|] == files;
      TotalPrefix(files, r, |files|);
      Int64Exact(Total(files[..r]) + size - limit);
    }
  }

  lemma RemoveIs(st: Store, policy: Policy, name: Name)
    requires Unique(st.files) && Has(st.files, name)
    ensures RemoveReply(st, policy, name).store
         == st.(files := RemoveAt(st.files, IndexOf(st.files, name)))
  {
    PromoteKeeps(st.files, policy, name);
    PromoteKeeps(Promote(st.files, policy, name), LRU, name);
    MoveThenPopIsDeletion(st.files, policy, name);
  }

  /** One request keeps a store within capacity exactly when it is safe. */
  lemma StepCapacity(st: Store, policy: Policy, req: Request)
    requires Regular(st) && InCapacity(st) && Unique(st.files)
    requires req.Write? ==> |req.data| < TWO_32 || st.maxMemory < TWO_32
    ensures InCapacity(Handle(st, policy, req).store) <==> Safe(st, req)
  {
    match req
    case Open(name, flags) =>
      if flags == O_CREATE {
        if !Has(st.files, name) { CreateCapacity(st, name); }
      } else if Has(st.files, name) {
        PromoteKeeps(st.files, policy, name);
        OpenedTotal(Promote(st.files, policy, name), name);
      }
    case Read(name) => PromoteKeeps(st.files, policy, name);
    case Write(name, data) =>
      if Has(st.files, name) { WriteCapacity(st, policy, name, data); }
    case Remove(name) =>
      if Has(st.files, name) {
        RemoveIs(st, policy, name);
        TotalRemoveAt(st.files, IndexOf(st.files, name));
      }
    case ReadN(_) =>
    case Close =>
  }

  lemma StepUnique(st: Store, policy: Policy, req: Request)
    requires Unique(st.files)
    ensures Unique(Handle(st, policy, req).store.files)
  {
    match req
    case Open(name, flags) =>
      if flags == O_CREATE {
        if !Has(st.files, name) {
          var room := MakeRoom(st, 1, 0);
          EvictionShrinks(st, 1, 0);
          UniquePart(st.files, 0, |room.files|);
          HasPrefix(st.files, |room.files|, name);
          UniquePrepended(room.files, NewFile(name));
        }
      } else if Has(st.files, name) {
        PromoteKeeps(st.files, policy, name);
        var p := Promote(st.files, policy, name);
        var k := IndexOf(p, name);
        UniqueUpdate(p, k, p[k].(isOpen := true));
      }
    case Read(name) => PromoteKeeps(st.files, policy, name);
    case Write(name, data) => WriteUnique(st, policy, name, data);
    case Remove(name) =>
      if Has(st.files, name) {
        RemoveIs(st, policy, name);
        UniqueRemoved(st.files, IndexOf(st.files, name));
      }
    case ReadN(_) =>
    case Close =>
  }

  lemma WriteUnique(st: Store, policy: Policy, name: Name, data: seq<byte>)
    requires Unique(st.files)
    ensures Unique(WriteReply(st, policy, name, data).store.files)
  {
    if Has(st.files, name) {
      PromoteKeeps(st.files, policy, name);
      var found := Looked(st, policy, name);
      var room := MakeRoom(found, 0, |data|);
      EvictionShrinks(found, 0, |data|);
      UniquePart(found.files, 0, |room.files|);
      if Has(room.files, name) {
        var k := IndexOf(room.files, name);
        UniqueUpdate(room.files, k, room.files[k].(content := room.files[k].content + Written(data)));
      }
    }
  }

  lemma UniqueRemoved(files: seq<File>, k: nat)
    requires Unique(files) && k < |files|
    ensures Unique(RemoveAt(files, k))
  {
    var p := RemoveAt(files, k);
    forall i, j | 0 <= i < |p| && 0 <= j < |p| && i != j ensures Differ(p, i, j) {
      assert Differ(files, if i < k then i else i + 1, if j < k then j else j + 1);
    }
  }

  lemma StepLimits(st: Store, policy: Policy, req: Request)
    ensures var after := Handle(st, policy, req).store;
            after.maxFiles == st.maxFiles && after.maxMemory == st.maxMemory
  {
  }

  // ---- runs ----

  lemma {:induction false} RunKeeps(st: Store, policy: Policy, reqs: seq<Request>)
    requires Unique(st.files)
    ensures var after := Run(st, policy, reqs);
            Unique(after.files) && after.maxFiles == st.maxFiles && after.maxMemory == st.maxMemory
  {
    if reqs != [] {
      var n := |reqs| - 1;
      RunKeeps(st, policy, reqs[..n]);
      StepUnique(Run(st, policy, reqs[..n]), policy, reqs[n]);
      StepLimits(Run(st, policy, reqs[..n]), policy, reqs[n]);
    }
  }

  predicate AllInCapacity(st: Store, policy: Policy, reqs: seq<Request>) {
    forall i :: 0 <= i <= |reqs| ==> InCapacity(Run(st, policy, reqs[..i]))
  }

  predicate AllSafe(st: Store, policy: Policy, reqs: seq<Request>) {
    forall i :: 0 <= i < |reqs| ==> Safe(Run(st, policy, reqs[..i]), reqs[i])
  }

  /** No write that is granted comes in a block of 2^31 bytes or more, whose length the counter of
      written bytes, an `int`, could not hold: the blocks are smaller, or the store is, so that a
      larger block does not fit. */
  predicate BlocksFit(maxMemory: nat, reqs: seq<Request>) {
    maxMemory < TWO_31 || forall r <- reqs :: r.Write? ==> |r.data| < TWO_31
  }

  /** From any store within its capacities a run never leaves them exactly when every request in it
      was safe when it came. */
  lemma {:induction false} CapacityIff(st: Store, policy: Policy, reqs: seq<Request>)
    requires Regular(st) && InCapacity(st) && Unique(st.files) && BlocksFit(st.maxMemory, reqs)
    ensures AllInCapacity(st, policy, reqs) <==> AllSafe(st, policy, reqs)
  {
    if AllInCapacity(st, policy, reqs) {
      forall i | 0 <= i < |reqs| ensures Safe(Run(st, policy, reqs[..i]), reqs[i]) {
        StaysExact(st, policy, reqs, i);
        OneMore(st, policy, reqs, i);
        assert InCapacity(Run(st, policy, reqs[..i])) && InCapacity(Run(st, policy, reqs[..i + 1]));
      }
    }
    if AllSafe(st, policy, reqs) {
      forall i | 0 <= i <= |reqs| ensures InCapacity(Run(st, policy, reqs[..i])) {
        SafePrefix(st, policy, reqs, i);
      }
    }
  }

  /** So it is from the start, whatever the limits. */
  lemma {:induction false} CapacityFromStart(maxFiles: nat, maxMemory: nat, policy: Policy, reqs: seq<Request>)
    requires maxFiles < TWO_32 - 1 && maxMemory < TWO_63 && BlocksFit(maxMemory, reqs)
    ensures var st := EmptyStore(maxFiles, maxMemory);
            AllInCapacity(st, policy, reqs) <==> AllSafe(st, policy, reqs)
  {
    CapacityIff(EmptyStore(maxFiles, maxMemory), policy, reqs);
  }

  /** What request `i` of a run does to the question. */
  lemma {:induction false} OneMore(st: Store, policy: Policy, reqs: seq<Request>, i: nat)
    requires Regular(st) && Unique(st.files) && BlocksFit(st.maxMemory, reqs) && i < |reqs|
    requires InCapacity(Run(st, policy, reqs[..i])) && Run(st, policy, reqs[..i]).drift == 0
    ensures InCapacity(Run(st, policy, reqs[..i + 1])) <==> Safe(Run(st, policy, reqs[..i]), reqs[i])
    ensures InCapacity(Run(st, policy, reqs[..i + 1])) ==> Run(st, policy, reqs[..i + 1]).drift == 0
  {
    RunKeeps(st, policy, reqs[..i]);
    assert reqs[i] in reqs && reqs[..i + 1][..i] == reqs[..i];
    StepWithin(Run(st, policy, reqs[..i]), policy, reqs[i], Run(st, policy, reqs[..i + 1]));
  }

  lemma StepWithin(st: Store, policy: Policy, req: Request, next: Store)
    requires Regular(st) && InCapacity(st) && Unique(st.files) && next == Handle(st, policy, req).store
    requires req.Write? ==> |req.data| < TWO_31 || st.maxMemory < TWO_31
    ensures InCapacity(next) <==> Safe(st, req)
    ensures InCapacity(next) ==> next.drift == 0
  {
    StepCapacity(st, policy, req);
    if InCapacity(next) { NoDriftWithin(st, policy, req); }
  }

  /** A granted block that the counter of written bytes could not hold would exceed the capacity. */
  lemma NoDriftWithin(st: Store, policy: Policy, req: Request)
    requires st.drift == 0 && (req.Write? ==> |req.data| < TWO_31 || st.maxMemory < TWO_31)
    requires InCapacity(Handle(st, policy, req).store)
    ensures Handle(st, policy, req).store.drift == 0
  {
    DriftIff(st, policy, req);
    if req.Write? && Granted(st, policy, req.name, |req.data|) {
      WrittenTotal(Looked(st, policy, req.name), policy, st, req.name, req.data);
      WrittenSize(req.data);
      MakeRoomPrefix(Looked(st, policy, req.name), 0, |req.data|);
    }
  }

  /** The counter of bytes stays as exact as it was exactly but for a granted block of 2^31 bytes or
      more. */
  lemma DriftIff(st: Store, policy: Policy, req: Request)
    ensures Handle(st, policy, req).store.drift == st.drift
       <==> !(req.Write? && Granted(st, policy, req.name, |req.data|) && |req.data| >= TWO_31)
  {
    if req.Write? {
      if Has(st.files, req.name) {
        WrittenTotal(Looked(st, policy, req.name), policy, st, req.name, req.data);
      }
      WrittenSize(req.data);
    }
  }

  lemma {:induction false} StaysExact(st: Store, policy: Policy, reqs: seq<Request>, i: nat)
    requires Regular(st) && Unique(st.files) && BlocksFit(st.maxMemory, reqs) && i <= |reqs|
    requires forall k :: 0 <= k <= i ==> InCapacity(Run(st, policy, reqs[..k]))
    ensures Run(st, policy, reqs[..i]).drift == 0
  {
    if i > 0 {
      StaysExact(st, policy, reqs, i - 1);
      OneMore(st, policy, reqs, i - 1);
    }
  }

  lemma {:induction false} SafePrefix(st: Store, policy: Policy, reqs: seq<Request>, i: nat)
    requires Regular(st) && Unique(st.files) && InCapacity(st) && BlocksFit(st.maxMemory, reqs)
    requires i <= |reqs| && AllSafe(st, policy, reqs)
    ensures InCapacity(Run(st, policy, reqs[..i])) && Run(st, policy, reqs[..i]).drift == 0
  {
    if i > 0 {
      SafePrefix(st, policy, reqs, i - 1);
      OneMore(st, policy, reqs, i - 1);
    }
  }

  /** The counter of bytes of a run: with blocks below 2^31 bytes only, it is what the files hold. */
  lemma {:induction false} RunAccounted(st: Store, policy: Policy, reqs: seq<Request>)
    requires st.drift == 0 && forall r <- reqs :: r.Write? ==> |r.data| < TWO_31
    ensures var now := Run(st, policy, reqs);
            now.drift == 0 && (Total(now.files) < TWO_64 ==> Used(now) == Total(now.files))
  {
    if reqs != [] {
      var n := |reqs| - 1;
      RunAccounted(st, policy, reqs[..n]);
      assert reqs[n] in reqs;
      DriftIff(Run(st, policy, reqs[..n]), policy, reqs[n]);
    }
    SmallUnsigned(Total(Run(st, policy, reqs).files));
  }

  /** With room for two files, and every write below 2^31 bytes and not exactly of the store's size,
      no run of any length under either policy ever exceeds a capacity. */
  lemma {:induction false} CapacitySafety(maxFiles: nat, maxMemory: nat, policy: Policy, reqs: seq<Request>)
    requires 2 <= maxFiles < TWO_32 - 1 && maxMemory < TWO_63
    requires forall r :: r in reqs && r.Write? ==> |r.data| < TWO_31 && |r.data| != maxMemory
    ensures AllInCapacity(EmptyStore(maxFiles, maxMemory), policy, reqs)
  {
    var st := EmptyStore(maxFiles, maxMemory);
    forall i | 0 <= i <= |reqs|
      ensures InCapacity(Run(st, policy, reqs[..i])) && (i < |reqs| ==> Safe(Run(st, policy, reqs[..i]), reqs[i]))
    {
      SafeSoFar(st, policy, reqs, i);
    }
  }

  lemma {:induction false} SafeSoFar(st: Store, policy: Policy, reqs: seq<Request>, i: nat)
    requires Regular(st) && InCapacity(st) && Unique(st.files) && st.maxFiles >= 2 && i <= |reqs|
    requires forall r :: r in reqs && r.Write? ==> |r.data| < TWO_31 && |r.data| != st.maxMemory
    ensures InCapacity(Run(st, policy, reqs[..i])) && Run(st, policy, reqs[..i]).drift == 0
    ensures i < |reqs| ==> Safe(Run(st, policy, reqs[..i]), reqs[i])
  {
    var now := Run(st, policy, reqs[..i]);
    if i > 0 {
      SafeSoFar(st, policy, reqs, i - 1);
      OneMore(st, policy, reqs, i - 1);
    }
    if i < |reqs| {
      RunKeeps(st, policy, reqs[..i]);
      assert reqs[i] in reqs;
      SmallRequestSafe(now, reqs[i]);
    }
  }

  lemma SmallRequestSafe(st: Store, req: Request)
    requires Regular(st) && InCapacity(st) && st.maxFiles >= 2
    requires req.Write? ==> |req.data| < TWO_31 && |req.data| != st.maxMemory
    ensures Safe(st, req)
  {
    if req.Write? { SmallWriteSafe(st, |req.data|); }
  }

  lemma SmallWriteSafe(st: Store, size: nat)
    requires Regular(st) && InCapacity(st) && size < TWO_31 && size != st.maxMemory
    ensures SafeWrite(st, size)
  {
    LegalIsFits(st, 0, size);
    assert st.files[..|st.files|] == st.files;
    Int32Exact(Total(st.files) + size - st.maxMemory);
  }

  /** The conditions are needed: a store of capacity one ends up with two files, a store of three
      bytes with five, and with more than four billion when they come in one write. */
  lemma {:induction false} CapacityExceeded(policy: Policy, a: Name, b: Name, data: seq<byte>)
    requires a != b && |data| == TWO_32
    ensures !InCapacity(Run(EmptyStore(1, 8), policy, [Open(a, O_CREATE), Open(b, O_CREATE)]))
    ensures !InCapacity(Run(EmptyStore(4, 3), policy, [Open(a, O_CREATE), Write(a, [0, 0]), Write(a, [0, 0, 0])]))
    ensures !InCapacity(Run(EmptyStore(4, 3), policy, [Open(a, O_CREATE), Write(a, data)]))
  {
    TwoFiles(policy, a, b);
    ThreeBytes(policy, a);
    FourGigabytes(policy, a, data);
  }

  lemma FirstCreated(st: Store, policy: Policy, a: Name, r: seq<Request>)
    requires st.files == [] && st.maxFiles > 0 && Regular(st) && |r| > 0 && r[0] == Open(a, O_CREATE)
    ensures var st1 := Run(st, policy, r[..1]);
            st1.files == [NewFile(a)] && st1.maxFiles == st.maxFiles && st1.maxMemory == st.maxMemory
            && Total(st1.files) == 0
  {
    assert Run(st, policy, r[..1][..0]) == st;
    LegalIsFits(st, 1, 0);
    TotalOne(NewFile(a));
  }

  lemma TwoFiles(policy: Policy, a: Name, b: Name)
    requires a != b
    ensures !InCapacity(Run(EmptyStore(1, 8), policy, [Open(a, O_CREATE), Open(b, O_CREATE)]))
  {
    var r := [Open(a, O_CREATE), Open(b, O_CREATE)];
    FirstCreated(EmptyStore(1, 8), policy, a, r);
    var st1 := Run(EmptyStore(1, 8), policy, r[..1]);
    Int32Exact(0 - 8);
    StepCapacity(st1, policy, r[1]);
  }

  lemma ThreeBytes(policy: Policy, a: Name)
    ensures !InCapacity(Run(EmptyStore(4, 3), policy, [Open(a, O_CREATE), Write(a, [0, 0]), Write(a, [0, 0, 0])]))
  {
    var r := [Open(a, O_CREATE), Write(a, [0, 0]), Write(a, [0, 0, 0])];
    var st := EmptyStore(4, 3);
    FirstCreated(st, policy, a, r);
    var st1, st2 := Run(st, policy, r[..1]), Run(st, policy, r[..2]);
    assert r[..2][..1] == r[..1];
    var f := File(a, [0, 0], true);
    LegalIsFits(st1, 0, 2);
    assert Promote(st1.files, policy, a) == st1.files && [] + [0, 0] == [0, 0];
    assert st2.files == AppendTo(st1.files, a, [0, 0]) == [f];
    TotalOne(f);
    LegalIsFits(st2, 0, 3);
    Int32Exact(1 - 4);
    StepCapacity(st2, policy, r[2]);
  }

  lemma FourGigabytes(policy: Policy, a: Name, data: seq<byte>)
    requires |data| == TWO_32
    ensures !InCapacity(Run(EmptyStore(4, 3), policy, [Open(a, O_CREATE), Write(a, data)]))
  {
    var r := [Open(a, O_CREATE), Write(a, data)];
    FirstCreated(EmptyStore(4, 3), policy, a, r);
    var st1 := Run(EmptyStore(4, 3), policy, r[..1]);
    assert Int32(TWO_32) == 0;
    StepCapacity(st1, policy, r[1]);
  }

  /** With a limit of 3 GB and places for two, a third empty file sends both others away. */
  lemma ThreeGigabyteLimit(policy: Policy, a: Name, b: Name, c: Name)
    requires a != b && a != c && b != c
    ensures var st := Store([NewFile(b), NewFile(a)], 2, 3_000_000_000, 0, 0, 0, 0);
            Created(st, c).files == [NewFile(c)] && Keep(st, 2, 1, 0) == 1
  {
    var st := Store([NewFile(b), NewFile(a)], 2, 3_000_000_000, 0, 0, 0, 0);
    var kept := st.files[..1];
    assert kept == [NewFile(b)] && st.files[..2] == st.files;
    TotalOne(NewFile(b));
    TotalConcat([NewFile(b)], [NewFile(a)]);
    TotalOne(NewFile(a));
    assert st.files == [NewFile(b)] + [NewFile(a)];
    LegalIsFits(st, 1, 0);
    assert Int32(1) == 1 && FilesOver(st, 1) == 1;
    assert Int32(-3_000_000_000) == 1_294_967_296;
    assert kept[..0] == [];
  }

  /** With a limit of 3 GB a write of 2 GiB is granted, and leaves the counter of bytes 2^32 too low. */
  lemma CounterOff(policy: Policy, a: Name, data: seq<byte>)
    requires |data| == TWO_31
    ensures var st := Store([NewFile(a)], 2, 3_000_000_000, 0, 0, 0, 0);
            var r := WriteReply(st, policy, a, data);
            r.status == OK && r.store.drift == -TWO_32 && Total(r.store.files) == TWO_31
  {
    var st := Store([NewFile(a)], 2, 3_000_000_000, 0, 0, 0, 0);
    TotalOne(NewFile(a));
    assert Looked(st, policy, a) == st;
    assert Int32(TWO_31) == -TWO_31 && !Legal(st, 0, TWO_31);
    assert Int32(-1) == -1 && !FilesGuard(st, 0) && st.files[..1] == st.files;
    assert Int32(TWO_31 - 3_000_000_000) < 0 && !BytesGuard(st.files, 0, st.maxMemory, TWO_31);
    assert MakeRoom(st, 0, TWO_31).files == st.files;
    CountedIs(TWO_31);
    WrittenSize(data);
    WrittenTotal(st, policy, st, a, data);
  }

  // ---- a write and its own target ----

  /** Which writes to a resident file are refused for their size: those above the capacity whose low
      half is not admitted. */
  lemma WriteRefusedIff(st: Store, policy: Policy, name: Name, data: seq<byte>)
    requires Regular(st) && InCapacity(st) && Unique(st.files) && Has(st.files, name)
    ensures WriteReply(st, policy, name, data).err == E2BIG
       <==> |data| > st.maxMemory && !(0 <= Total(st.files) + Int32(|data|) <= st.maxMemory)
  {
    PromoteKeeps(st.files, policy, name);
    var found := Looked(st, policy, name);
    SmallUnsigned(Total(st.files));
    SumOrWrapped(Total(st.files) + Int32(|data|));
    assert Used(found) == Total(st.files);
    assert Legal(found, 0, |data|) <==> 0 <= Total(st.files) + Int32(|data|) <= st.maxMemory;
  }

  /** So far from the limit that the difference of counts no longer is an `int`. */
  predicate CountCastAstray(st: Store) {
    st.maxFiles - |st.files| > TWO_31
  }

  /** A write of fewer than 2^31 bytes to a resident file, in a store within capacity: it is too big
      above the capacity; it loses its target where the files up to and including the target leave
      too little room, unless it is of exactly the capacity, or where it does not fit and the count
      is cast astray; and otherwise it succeeds. */
  lemma WriteSucceedsIff(st: Store, policy: Policy, name: Name, data: seq<byte>)
    requires Regular(st) && InCapacity(st) && Unique(st.files) && Has(st.files, name) && |data| < TWO_31
    ensures var looked := Promote(st.files, policy, name);
            var upTo := Total(looked[..IndexOf(looked, name) + 1]);
            var over := |data| <= st.maxMemory && Total(st.files) + |data| > st.maxMemory;
            var lost := over && (CountCastAstray(st) || (|data| < st.maxMemory && upTo + |data| > st.maxMemory));
            var r := WriteReply(st, policy, name, data);
            Has(looked, name)
            && (r.err == E2BIG <==> |data| > st.maxMemory)
            && (r.err == ENOENT <==> lost)
            && (r.status == OK <==> |data| <= st.maxMemory && !lost)
  {
    PromoteKeeps(st.files, policy, name);
    var found := Looked(st, policy, name);
    var k := IndexOf(found.files, name);
    assert found.files[..|found.files|] == found.files;
    LegalIsFits(found, 0, |data|);
    MakeRoomPrefix(found, 0, |data|);
    HasPrefix(found.files, |MakeRoom(found, 0, |data|).files|, name);
    if !Legal(found, 0, |data|) && |data| <= st.maxMemory {
      FilesOverReads(found, 0);
      if !CountCastAstray(st) {
        Int32Exact(Total(found.files) + |data| - st.maxMemory);
        if |data| < st.maxMemory { TargetSurvives(found, k, |data|); }
      }
    }
  }

  lemma TargetSurvives(st: Store, k: nat, size: nat)
    requires Regular(st) && InCapacity(st) && size < TWO_31 && size < st.maxMemory && k < |st.files|
    requires !Legal(st, 0, size) && !CountCastAstray(st)
    ensures k < |MakeRoom(st, 0, size).files| <==> Total(st.files[..k + 1]) + size <= st.maxMemory
  {
    LegalIsFits(st, 0, size);
    assert st.files[..|st.files|] == st.files;
    FilesOverReads(st, 0);
    Int32Exact(Total(st.files) + size - st.maxMemory);
    ExactEviction(st, 0, size);
    var m := |MakeRoom(st, 0, size).files|;
    if k < m {
      TotalPrefix(st.files, k + 1, m);
    } else {
      assert !Fits(st, k + 1, 0, size);
    }
  }

  /** Under LRU the lookup makes the target the last possible victim: a write below the capacity
      evicts its own target iff target and data together exceed the capacity, or the write does not
      fit and the count is cast astray. */
  lemma LruSelfEviction(st: Store, name: Name, data: seq<byte>)
    requires Regular(st) && InCapacity(st) && Unique(st.files) && Has(st.files, name)
    requires |data| < st.maxMemory && |data| < TWO_31
    ensures !Has(WriteReply(st, LRU, name, data).store.files, name)
       <==> || |Lookup(st.files, name).content| + |data| > st.maxMemory
            || (CountCastAstray(st) && Total(st.files) + |data| > st.maxMemory)
  {
    PromoteKeeps(st.files, LRU, name);
    var p := Promote(st.files, LRU, name);
    assert p[..1] == [Lookup(st.files, name)] && p[..|p|] == p;
    TotalOne(p[0]);
    TotalPrefix(p, 1, |p|);
    WriteSucceedsIff(st, LRU, name, data);
    var room := MakeRoom(Looked(st, LRU, name), 0, |data|);
    if Has(room.files, name) {
      var q := AppendTo(room.files, name, data);
      assert q[IndexOf(room.files, name)].name == name;
    }
  }
}
