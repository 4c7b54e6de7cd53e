/** What the cache algorithm reports, and the high-water marks that the server prints when it ends. */
module Marks {
  import opened CInt
  import opened Names
  import opened FileStore
  import opened Protocol
  import opened Requests
  import opened Capacity

  /** For a request below 2^31 bytes on a store within its capacities: ECANCELED means that it fits as
      things are, and then nothing goes; E2BIG that it is above a limit by itself, and then nothing
      changes at all; and otherwise room has been made. */
  lemma ErrnoMeans(st: Store, nFiles: nat, amount: nat)
    requires Regular(st) && InCapacity(st) && |st.files| + nFiles < TWO_32 && amount < TWO_31
    ensures var errno, after := CacheErrno(st, nFiles, amount), MakeRoom(st, nFiles, amount);
            && (errno == ECANCELED <==> Fits(st, |st.files|, nFiles, amount))
            && (errno == E2BIG <==> nFiles > st.maxFiles || amount > st.maxMemory)
            && (errno == 0 || errno == ECANCELED || errno == E2BIG)
            && (errno == ECANCELED ==> after.files == st.files && after.trigger == st.trigger)
            && (errno == E2BIG ==> after == st)
  {
    LegalIsFits(st, nFiles, amount);
    assert st.files[..|st.files|] == st.files;
  }

  /** The marks are raised to the new numbers exactly when the request is admitted, and never lowered. */
  lemma MarksRaised(st: Store, nFiles: nat, amount: nat)
    requires Regular(st) && InCapacity(st) && |st.files| + nFiles < TWO_32 && amount < TWO_31
    requires st.maxMemory < TWO_32
    ensures var after := MakeRoom(st, nFiles, amount);
            var files, bytes := |st.files| + nFiles, Total(st.files) + amount;
            if Fits(st, |st.files|, nFiles, amount) then
              && after.maxRecvFile >= files && after.maxRecvFile >= st.maxRecvFile
              && (after.maxRecvFile == files || after.maxRecvFile == st.maxRecvFile)
              && after.maxUsedMemory >= bytes && after.maxUsedMemory >= st.maxUsedMemory
              && (after.maxUsedMemory == bytes || after.maxUsedMemory == st.maxUsedMemory)
            else after.maxRecvFile == st.maxRecvFile && after.maxUsedMemory == st.maxUsedMemory
  {
    LegalIsFits(st, nFiles, amount);
    assert st.files[..|st.files|] == st.files;
    Int32Exact(amount);
  }

  /** The marks lie within the limits, and that of the files is not below the number of files. That of
      the bytes can be below the number of bytes, since eviction does not raise it. */
  predicate Marked(st: Store) {
    |st.files| <= st.maxRecvFile <= st.maxFiles && st.maxUsedMemory <= st.maxMemory
  }

  lemma RoomMarked(st: Store, nFiles: nat, amount: nat)
    requires Regular(st) && Marked(st) && |st.files| + nFiles < TWO_32
    ensures var after := MakeRoom(st, nFiles, amount);
            && Marked(after) && after.maxRecvFile >= st.maxRecvFile
            && (st.maxMemory < TWO_32 ==> after.maxUsedMemory >= st.maxUsedMemory)
            && (Legal(st, nFiles, amount) ==> |st.files| + nFiles <= after.maxRecvFile)
            && after.maxFiles == st.maxFiles && |after.files| <= |st.files|
  {
    EvictionShrinks(st, nFiles, amount);
  }

  /** The marks are in order after `after`, and no lower than before. */
  predicate MarkedSince(st: Store, after: Store) {
    && Marked(after) && after.maxRecvFile >= st.maxRecvFile
    && (st.maxMemory < TWO_32 ==> after.maxUsedMemory >= st.maxUsedMemory)
  }

  lemma CreateMarked(st: Store, policy: Policy, name: Name)
    requires Regular(st) && InCapacity(st) && Unique(st.files) && Marked(st) && st.maxFiles >= 2
    ensures MarkedSince(st, OpenReply(st, policy, name, O_CREATE).store)
  {
    if !Has(st.files, name) {
      RoomMarked(st, 1, 0);
      CreateCapacity(st, name);
      LegalIsFits(st, 1, 0);
      assert st.files[..|st.files|] == st.files;
    }
  }

  lemma WriteMarked(st: Store, policy: Policy, name: Name, data: seq<byte>)
    requires Regular(st) && Unique(st.files) && Marked(st)
    ensures MarkedSince(st, WriteReply(st, policy, name, data).store)
  {
    if Has(st.files, name) {
      PromoteKeeps(st.files, policy, name);
      var looked := Looked(st, policy, name);
      RoomMarked(looked, 0, |data|);
      assert MarkedSince(st, MakeRoom(looked, 0, |data|));
    }
  }

  /** One request keeps that, and lowers no mark, where a file limit of two or more leaves creation a
      place within the limit. The mark of the bytes is an `unsigned int`, and can only be lowered where
      the memory limit is no such number. */
  lemma StepMarked(st: Store, policy: Policy, req: Request)
    requires Regular(st) && InCapacity(st) && Unique(st.files) && Marked(st) && st.maxFiles >= 2
    ensures MarkedSince(st, Handle(st, policy, req).store)
  {
    match req
    case Open(name, flags) =>
      if flags == O_CREATE {
        CreateMarked(st, policy, name);
      } else if Has(st.files, name) {
        PromoteKeeps(st.files, policy, name);
      }
    case Read(name) => PromoteKeeps(st.files, policy, name);
    case Write(name, data) => WriteMarked(st, policy, name, data);
    case Remove(name) =>
      if Has(st.files, name) { RemoveIs(st, policy, name); }
    case ReadN(_) =>
    case Close =>
  }

  /** Over every safe run from the empty cache with room for two files. */
  lemma {:induction false} RunMarked(maxFiles: nat, maxMemory: nat, policy: Policy, reqs: seq<Request>, i: nat)
    requires 2 <= maxFiles < TWO_32 - 1 && maxMemory < TWO_63 && i <= |reqs| && BlocksFit(maxMemory, reqs)
    requires AllSafe(EmptyStore(maxFiles, maxMemory), policy, reqs)
    ensures Marked(Run(EmptyStore(maxFiles, maxMemory), policy, reqs[..i]))
  {
    if i > 0 {
      var st := EmptyStore(maxFiles, maxMemory);
      RunMarked(maxFiles, maxMemory, policy, reqs, i - 1);
      SafePrefix(st, policy, reqs, i - 1);
      RunKeeps(st, policy, reqs[..i - 1]);
      StepMarked(Run(st, policy, reqs[..i - 1]), policy, reqs[i - 1]);
      assert reqs[..i][..i - 1] == reqs[..i - 1];
    }
  }
}
