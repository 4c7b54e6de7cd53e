/** The cache as a value: the resident files from the head of the list to its tail, the two
    capacities and the counters. The heap structure in ServerMemory is proved against it. */
module FileStore {
  import opened CInt
  import opened WriteLoop
  import opened Names
  import opened Protocol

  datatype Policy = FIFO | LRU

  datatype File = File(name: Name, content: seq<byte>, isOpen: bool)

  /** `trigger` counts the runs of the cache algorithm that met a guard; the next two fields are the
      high-water marks that the server prints when it ends. `drift` is by how much the counter of
      bytes is off what the files hold, which it is from the first block on that the counter of
      written bytes could not hold. */
  datatype Store = Store(
    files: seq<File>,
    maxFiles: nat,
    maxMemory: nat,
    trigger: nat,
    maxRecvFile: nat,
    maxUsedMemory: nat,
    drift: int)

  /** Bytes held by a list of files; it recurs from the end, where eviction happens. */
  function Total(files: seq<File>): nat {
    if files == [] then 0
    else Total(files[..|files| - 1]) + |files[|files| - 1].content|
  }

  predicate Differ(files: seq<File>, i: nat, j: nat)
    requires i < |files| && j < |files|
  {
    files[i].name != files[j].name
  }

  /** No two files have the same name. */
  ghost predicate Unique(files: seq<File>) {
    forall i, j :: 0 <= i < |files| && 0 <= j < |files| && i != j ==> Differ(files, i, j)
  }

  /** The first position holding `name`, or the length of the list. */
  function IndexOf(files: seq<File>, name: Name): (r: nat)
    ensures r <= |files|
    ensures r < |files| ==> files[r].name == name
    ensures forall i :: 0 <= i < r ==> files[i].name != name
  {
    if files == [] then 0
    else if files[0].name == name then 0
    else 1 + IndexOf(files[1..], name)
  }

  predicate Has(files: seq<File>, name: Name) {
    IndexOf(files, name) < |files|
  }

  function Lookup(files: seq<File>, name: Name): File
    requires Has(files, name)
  {
    files[IndexOf(files, name)]
  }

  function MoveToFront(files: seq<File>, k: nat): seq<File>
    requires k < |files|
  {
    [files[k]] + files[..k] + files[k + 1..]
  }

  function RemoveAt(files: seq<File>, k: nat): seq<File>
    requires k < |files|
  {
    files[..k] + files[k + 1..]
  }

  /** What a lookup under the given policy does to the order. */
  function Promote(files: seq<File>, policy: Policy, name: Name): seq<File> {
    if policy == LRU && Has(files, name) then MoveToFront(files, IndexOf(files, name)) else files
  }

  function SetOpen(files: seq<File>, name: Name): seq<File>
    requires Has(files, name)
  {
    var k := IndexOf(files, name);
    files[k := files[k].(isOpen := true)]
  }

  function AppendTo(files: seq<File>, name: Name, data: seq<byte>): seq<File>
    requires Has(files, name)
  {
    var k := IndexOf(files, name);
    files[k := files[k].(content := files[k].content + data)]
  }

  /** By how much a block moves the counter away from the bytes held. */
  function DriftOf(size: nat): int {
    Counted(size) - Turns(size) * size
  }

  /** A block goes into a file as often as the loop has turns. */
  function Appended(st: Store, name: Name, data: seq<byte>): Store
    requires Has(st.files, name)
  {
    st.(files := AppendTo(st.files, name, Written(data)), drift := st.drift + DriftOf(|data|))
  }

  // ---- admission and eviction, with the C conversions ----

  /** The counter of bytes. */
  function Used(st: Store): nat {
    U64(Total(st.files) + st.drift)
  }

  /** The size is cut to an `int` on the way into the test, and the sums are unsigned. */
  predicate Legal(st: Store, nFiles: nat, amount: nat) {
    U64(Used(st) + Int32(amount)) <= st.maxMemory && U32(|st.files| + nFiles) <= st.maxFiles
  }

  predicate TooBig(st: Store, nFiles: nat, amount: nat) {
    nFiles > st.maxFiles || amount > st.maxMemory
  }

  /** How many files are over the limit, read as an `int`. */
  function FilesOver(st: Store, nFiles: nat): int {
    Int32(|st.files| + nFiles - st.maxFiles)
  }

  /** A request as large as the whole limit evicts nothing on its account. */
  predicate FilesGuard(st: Store, nFiles: nat) {
    FilesOver(st, nFiles) > 0 && st.maxFiles > nFiles
  }

  /** The excess of bytes is read as an `int`. */
  predicate BytesGuard(files: seq<File>, drift: int, limit: nat, amount: nat) {
    Int32(Total(files) + drift + amount - limit) > 0 && limit > amount
  }

  /** How many files the file phase keeps; popping from an empty list does nothing. */
  function FilePhase(st: Store, nFiles: nat): (m: nat)
    ensures m <= |st.files|
  {
    if !FilesGuard(st, nFiles) then |st.files|
    else if FilesOver(st, nFiles) < |st.files| then |st.files| - FilesOver(st, nFiles)
    else 0
  }

  /** There are bytes over the limit, in 64 bits. */
  predicate StillOver(files: seq<File>, drift: int, limit: nat, amount: nat) {
    Int64(Total(files) + drift + amount - limit) > 0
  }

  /** The longest prefix with which no bytes are over, or the empty one. */
  function Fitting(files: seq<File>, drift: int, limit: nat, amount: nat): (r: nat)
    ensures r <= |files|
  {
    if files == [] || !StillOver(files, drift, limit, amount) then |files|
    else Fitting(files[..|files| - 1], drift, limit, amount)
  }

  /** How many files the byte phase keeps. The last file goes on the word of the `int` difference,
      the others on that of the 64-bit one. */
  function BytePhase(files: seq<File>, drift: int, limit: nat, amount: nat): (r: nat)
    ensures r <= |files|
  {
    if !BytesGuard(files, drift, limit, amount) || files == [] then |files|
    else Fitting(files[..|files| - 1], drift, limit, amount)
  }

  /** The high-water marks after an admitted request; that of the bytes is an `unsigned int`. */
  function Marked(st: Store, nFiles: nat, amount: nat): Store {
    var files, bytes := U32(|st.files| + nFiles), U64(Used(st) + Int32(amount));
    st.(maxRecvFile := if st.maxRecvFile < files then files else st.maxRecvFile,
        maxUsedMemory := if st.maxUsedMemory < bytes then U32(bytes) else st.maxUsedMemory)
  }

  /** What the cache algorithm does to the store. */
  function MakeRoom(st: Store, nFiles: nat, amount: nat): Store {
    if Legal(st, nFiles, amount) then Marked(st, nFiles, amount)
    else if TooBig(st, nFiles, amount) then st
    else
      var kept := st.files[..FilePhase(st, nFiles)];
      var guarded := FilesGuard(st, nFiles) || BytesGuard(kept, st.drift, st.maxMemory, amount);
      st.(files := kept[..BytePhase(kept, st.drift, st.maxMemory, amount)],
          trigger := st.trigger + if guarded then 1 else 0)
  }

  /** What the cache algorithm leaves in `errno`. */
  function CacheErrno(st: Store, nFiles: nat, amount: nat): nat {
    if Legal(st, nFiles, amount) then ECANCELED else if TooBig(st, nFiles, amount) then E2BIG else 0
  }

  // ---- what eviction is meant to achieve ----

  /** With its first `m` files alone the store has room for the request. */
  predicate Fits(st: Store, m: nat, nFiles: nat, amount: nat)
    requires m <= |st.files|
  {
    m + nFiles <= st.maxFiles && Total(st.files[..m]) + amount <= st.maxMemory
  }

  /** The longest prefix, of at most `m` files, that leaves room for the request; empty if none does. */
  function Keep(st: Store, m: nat, nFiles: nat, amount: nat): (r: nat)
    requires m <= |st.files|
    ensures r <= m && (r > 0 ==> Fits(st, r, nFiles, amount))
    ensures forall k :: r < k <= m ==> !Fits(st, k, nFiles, amount)
  {
    if m == 0 || Fits(st, m, nFiles, amount) then m else Keep(st, m - 1, nFiles, amount)
  }

  predicate InCapacity(st: Store) {
    |st.files| <= st.maxFiles && Total(st.files) <= st.maxMemory
  }

  // ---- lemmas ----

  lemma {:induction false} FittingIsLongest(files: seq<File>, drift: int, limit: nat, amount: nat)
    ensures var r := Fitting(files, drift, limit, amount);
            && (r > 0 ==> !StillOver(files[..r], drift, limit, amount))
            && forall k :: r < k <= |files| ==> StillOver(files[..k], drift, limit, amount)
  {
    assert files[..|files|] == files;
    if files != [] && StillOver(files, drift, limit, amount) {
      var front := files[..|files| - 1];
      FittingIsLongest(front, drift, limit, amount);
      assert forall k :: 0 <= k <= |front| ==> front[..k] == files[..k];
    }
  }

  /** Eviction leaves a prefix of the list. */
  lemma MakeRoomPrefix(st: Store, nFiles: nat, amount: nat)
    ensures var room := MakeRoom(st, nFiles, amount).files;
            |room| <= |st.files| && room == st.files[..|room|]
  {
    assert st.files[..|st.files|] == st.files;
  }

  lemma {:induction false} TotalConcat(a: seq<File>, b: seq<File>)
    ensures Total(a + b) == Total(a) + Total(b)
  {
    if b == [] {
      assert a + b == a;
    } else {
      var n := |b| - 1;
      TotalConcat(a, b[..n]);
      assert (a + b)[..|a + b| - 1] == a + b[..n];
    }
  }

  lemma {:induction false} TotalSplit(files: seq<File>, m: nat)
    requires m <= |files|
    ensures Total(files) == Total(files[..m]) + Total(files[m..])
  {
    var a, b := files[..m], files[m..];
    assert files == a + b;
    TotalConcat(a, b);
  }

  lemma TotalPrefix(files: seq<File>, m: nat, n: nat)
    requires m <= n <= |files|
    ensures Total(files[..m]) <= Total(files[..n])
  {
    TotalSplit(files[..n], m);
    assert files[..n][..m] == files[..m];
  }

  lemma TotalOne(f: File)
    ensures Total([f]) == |f.content|
  {
    assert [f][..0] == [];
  }

  lemma TotalRemoveAt(files: seq<File>, k: nat)
    requires k < |files|
    ensures Total(files) == Total(RemoveAt(files, k)) + |files[k].content|
    ensures Total(files) == Total(files[..k]) + |files[k].content| + Total(files[k + 1..])
  {
    TotalSplit(files, k);
    TotalSplit(files[k..], 1);
    assert files[k..][..1] == [files[k]] && files[k..][1..] == files[k + 1..];
    TotalOne(files[k]);
    TotalConcat(files[..k], files[k + 1..]);
  }

  lemma TotalMoveToFront(files: seq<File>, k: nat)
    requires k < |files|
    ensures Total(MoveToFront(files, k)) == Total(files)
  {
    assert MoveToFront(files, k) == [files[k]] + RemoveAt(files, k);
    assert Total(MoveToFront(files, k)) == |files[k].content| + Total(RemoveAt(files, k)) by {
      TotalConcat([files[k]], RemoveAt(files, k));
      TotalOne(files[k]);
    }
    TotalRemoveAt(files, k);
  }

  /** Replacing one file changes the total by the difference of the two sizes. */
  lemma TotalUpdate(files: seq<File>, k: nat, f: File)
    requires k < |files|
    ensures Total(files[k := f]) + |files[k].content| == Total(files) + |f.content|
  {
    TotalRemoveAt(files, k);
    TotalRemoveAt(files[k := f], k);
    assert files[k := f][..k] == files[..k] && files[k := f][k + 1..] == files[k + 1..];
  }

  /** With unique names, a name sits at one position only. */
  lemma IndexUnique(files: seq<File>, k: nat, name: Name)
    requires Unique(files) && k < |files| && files[k].name == name
    ensures IndexOf(files, name) == k && Has(files, name)
  {
    var r := IndexOf(files, name);
    assert r <= k;
    assert r == k || Differ(files, r, k);
  }

  lemma UniqueMoved(files: seq<File>, k: nat)
    requires Unique(files) && k < |files|
    ensures Unique(MoveToFront(files, k))
  {
    var p := MoveToFront(files, k);
    forall i, j | 0 <= i < |p| && 0 <= j < |p| && i != j ensures Differ(p, i, j) {
      var i', j' := Origin(i, k), Origin(j, k);
      assert p[i] == files[i'] && p[j] == files[j'] && Differ(files, i', j');
    }
  }

  lemma UniquePart(files: seq<File>, a: nat, b: nat)
    requires Unique(files) && a <= b <= |files|
    ensures Unique(files[a..b])
  {
    var p := files[a..b];
    forall i, j | 0 <= i < |p| && 0 <= j < |p| && i != j ensures Differ(p, i, j) {
      assert Differ(files, a + i, a + j);
    }
  }

  lemma UniqueUpdate(files: seq<File>, k: nat, f: File)
    requires Unique(files) && k < |files| && f.name == files[k].name
    ensures Unique(files[k := f])
  {
    var p := files[k := f];
    forall i, j | 0 <= i < |p| && 0 <= j < |p| && i != j ensures Differ(p, i, j) {
      assert Differ(files, i, j);
    }
  }

  lemma UniquePrepended(files: seq<File>, f: File)
    requires Unique(files) && !Has(files, f.name)
    ensures Unique([f] + files)
  {
    var p := [f] + files;
    forall i, j | 0 <= i < |p| && 0 <= j < |p| && i != j ensures Differ(p, i, j) {
      if i > 0 && j > 0 { assert Differ(files, i - 1, j - 1); }
    }
  }

  /** The position that a file had before a move to the front. */
  function Origin(i: nat, k: nat): nat {
    if i == 0 then k else if i <= k then i - 1 else i
  }

  lemma PromoteKeeps(files: seq<File>, policy: Policy, name: Name)
    requires Unique(files)
    ensures var p := Promote(files, policy, name);
            Unique(p) && Total(p) == Total(files) && |p| == |files|
            && Has(p, name) == Has(files, name)
            && (policy == LRU && Has(files, name) ==> IndexOf(p, name) == 0)
            && (Has(files, name) ==> Lookup(p, name) == Lookup(files, name))
  {
    if policy == LRU && Has(files, name) {
      var k := IndexOf(files, name);
      TotalMoveToFront(files, k);
      UniqueMoved(files, k);
      IndexUnique(MoveToFront(files, k), 0, name);
    }
  }

  lemma PromoteTwice(files: seq<File>, policy: Policy, name: Name)
    requires Unique(files)
    ensures Promote(Promote(files, policy, name), LRU, name) == Promote(files, LRU, name)
  {
    if policy == LRU && Has(files, name) {
      PromoteKeeps(files, LRU, name);
      var p := Promote(files, LRU, name);
      assert MoveToFront(p, 0) == p;
    }
  }

  /** Removing a file through a policy lookup, a move to the front and a pop is plain deletion. */
  lemma MoveThenPopIsDeletion(files: seq<File>, policy: Policy, name: Name)
    requires Unique(files) && Has(files, name)
    ensures Promote(Promote(files, policy, name), LRU, name)[1..] == RemoveAt(files, IndexOf(files, name))
  {
    PromoteTwice(files, policy, name);
  }
}
