/** The cache on the heap: files linked through `next` from the most recent to the oldest, with
    running counters beside the list. `prev` is written but never read, and move-to-front leaves
    it stale, so nothing is claimed about it. Each operation runs as one atomic step. */
module ServerMemory {
  import opened CInt
  import opened WriteLoop
  import opened Names
  import opened FileStore
  import opened Protocol

  class FileMemory {
    const filename: Name
    var buffer: seq<byte>      // contents of the memory stream behind `file`
    var usedMemory: nat
    var isOpen: bool
    var next: FileMemory?
    var prev: FileMemory?

    constructor CreateFile(name: Name)
      ensures filename == name && buffer == [] && usedMemory == 0 && !isOpen
      ensures next == null && prev == null
    {
      filename := name;
      buffer, usedMemory, isOpen := [], 0, false;
      next, prev := null, null;
    }

    /** The loop that writes a block, and what it leaves in its counter. */
    method Fwrites(data: seq<byte>, size: nat) returns (wrote: int)
      requires size == |data| < TWO_63 && !NeverEnds(size) && usedMemory == |buffer|
      modifies this`buffer, this`usedMemory
      ensures buffer == old(buffer) + Written(data) && usedMemory == |buffer| && wrote == Counted(size)
    {
      EndsAfterTurns(size);
      wrote := 0;
      ghost var content, turns := buffer, 0;
      assert content + Times(data, 0) == content;
      while U64(wrote) < size
        invariant 0 <= turns <= Turns(size) && wrote == Wrote(size, turns)
        invariant buffer == content + Times(data, turns) && usedMemory == |buffer|
        decreases Turns(size) - turns
      {
        assert !Ends(size, turns);
        assert content + Times(data, turns) + data == content + Times(data, turns + 1);
        buffer := buffer + data;       // fwrite takes the whole block
        usedMemory := |buffer|;        // fflush
        wrote := Int32(wrote + size);
        turns := turns + 1;
      }
      assert Ends(size, turns);
    }
  }

  ghost function At(ns: seq<FileMemory>, i: nat): FileMemory? {
    if i < |ns| then ns[i] else null
  }

  ghost predicate Holds(n: FileMemory, f: File)
    reads n
  {
    n.filename == f.name && n.buffer == f.content && n.isOpen == f.isOpen && n.usedMemory == |f.content|
  }

  /** Node `i` holds file `i`, and its `next` is the node after it, or null at the end. */
  ghost predicate Slot(ns: seq<FileMemory>, fs: seq<File>, i: nat)
    requires i < |ns| == |fs|
    reads ns
  {
    Holds(ns[i], fs[i]) && ns[i].next == At(ns, i + 1)
  }

  /** The nodes form an acyclic list that ends in null and holds the files, whose names are distinct. */
  ghost predicate Listed(ns: seq<FileMemory>, fs: seq<File>, repr: set<FileMemory>)
    requires |ns| == |fs|
    reads repr
  {
    && (forall i :: 0 <= i < |ns| ==> ns[i] in repr)
    && (forall i :: 0 <= i < |ns| ==> Slot(ns, fs, i))
    && Unique(fs)
  }

  ghost function MoveNode(ns: seq<FileMemory>, k: nat): seq<FileMemory>
    requires k < |ns|
  {
    [ns[k]] + ns[..k] + ns[k + 1..]
  }

  lemma MovedSlot(ns: seq<FileMemory>, fs: seq<File>, k: nat, i: nat)
    requires 0 < k < |ns| == |fs| && i < |ns|
    requires var j := Origin(i, k);
             Holds(ns[j], fs[j])
             && ns[j].next == if i == 0 then ns[0] else if i == k then At(ns, k + 1) else At(ns, j + 1)
    ensures MoveNode(ns, k)[i] == ns[Origin(i, k)] && Slot(MoveNode(ns, k), MoveToFront(fs, k), i)
  {
    var j, p := Origin(i, k), MoveNode(ns, k);
    assert p[i] == ns[j] && MoveToFront(fs, k)[i] == fs[j];
    assert i == 0 ==> At(p, i + 1) == ns[0];
    assert 0 < i < k ==> At(p, i + 1) == ns[i];
    assert k <= i ==> At(p, i + 1) == At(ns, i + 1);
  }

  /** Node `i` of a list that is about to have node `k` moved. */
  ghost predicate Cut(ns: seq<FileMemory>, fs: seq<File>, repr: set<FileMemory>, k: nat, i: nat)
    requires i < |ns| == |fs|
    reads ns
  {
    ns[i] in repr && Holds(ns[i], fs[i]) && (i != k && i != k - 1 ==> Slot(ns, fs, i))
  }

  /** A list that is as it should be but for node `k`, which now precedes the head, and the node
      before it, which skips it: this is the list with node `k` moved to the front. */
  lemma Spliced(ns: seq<FileMemory>, fs: seq<File>, k: nat, repr: set<FileMemory>)
    requires 0 < k < |ns| == |fs|
    requires forall i :: 0 <= i < |ns| ==> Cut(ns, fs, repr, k, i)
    requires Unique(fs)
    requires ns[k].next == ns[0] && ns[k - 1].next == At(ns, k + 1)
    ensures Listed(MoveNode(ns, k), MoveToFront(fs, k), repr)
    ensures Total(MoveToFront(fs, k)) == Total(fs)
  {
    forall i | 0 <= i < |ns| ensures MoveNode(ns, k)[i] in repr && Slot(MoveNode(ns, k), MoveToFront(fs, k), i) {
      assert Cut(ns, fs, repr, k, Origin(i, k));
      MovedSlot(ns, fs, k, i);
    }
    TotalMoveToFront(fs, k);
    UniqueMoved(fs, k);
  }

  lemma Prepended(ns: seq<FileMemory>, fs: seq<File>, repr: set<FileMemory>, file: FileMemory, f: File)
    requires |ns| == |fs| && Listed(ns, fs, repr)
    requires Holds(file, f) && file.next == At(ns, 0)
    requires file !in repr && !Has(fs, f.name)
    ensures Listed([file] + ns, [f] + fs, repr + {file})
    ensures Total([f] + fs) == |f.content| + Total(fs)
  {
    forall i | 0 <= i <= |ns| ensures Slot([file] + ns, [f] + fs, i) {
      if 0 < i { assert Slot(ns, fs, i - 1); }
    }
    TotalPrepended(fs, f);
    UniquePrepended(fs, f);
  }

  ghost predicate Other(ns: seq<FileMemory>, i: nat, k: nat)
    requires i < |ns| && k < |ns|
  {
    ns[i] != ns[k]
  }

  /** Distinct names make distinct nodes. */
  lemma Others(ns: seq<FileMemory>, fs: seq<File>, repr: set<FileMemory>, k: nat)
    requires k < |ns| == |fs| && Listed(ns, fs, repr)
    ensures forall i :: 0 <= i < |ns| && i != k ==> Other(ns, i, k)
  {
    forall i | 0 <= i < |ns| && i != k ensures Other(ns, i, k) {
      assert Slot(ns, fs, i) && Slot(ns, fs, k) && Differ(fs, i, k);
    }
  }

  class ServerMetadata {
    var nCurrentMemoryUsed: nat
    var MaxMemory: nat
    var nCurrentFile: nat
    var MaxFiles: nat
    var memory: FileMemory?
    var alg_trigger: nat
    var MaxRecvFile: nat
    var MaxUsedMemory: nat

    ghost var nodes: seq<FileMemory>   // the nodes reachable from `memory`, in order
    ghost var files: seq<File>         // what they hold
    ghost var repr: set<FileMemory>    // every node ever linked in
    ghost var drift: int               // by how much the counter of bytes is off

    /** The list is acyclic and ends in null, names are distinct, the count is exact, and the counter
        of bytes is off by the drift. */
    ghost predicate Valid()
      reads this, repr
    {
      && memory == At(nodes, 0)
      && |files| == |nodes| == nCurrentFile
      && Listed(nodes, files, repr)
      && nCurrentMemoryUsed == U64(Total(files) + drift)
    }

    /** The abstract store that the heap represents. */
    ghost function Abs(): Store
      reads this
    {
      Store(files, MaxFiles, MaxMemory, alg_trigger, MaxRecvFile, MaxUsedMemory, drift)
    }

    /** Takes `ns`, holding `fs`, for what the fields now represent. */
    ghost method Represent(ns: seq<FileMemory>, fs: seq<File>, all: set<FileMemory>)
      requires |ns| == |fs| == nCurrentFile && memory == At(ns, 0)
      requires nCurrentMemoryUsed == U64(Total(fs) + drift)
      requires Listed(ns, fs, all)
      modifies this`nodes, this`files, this`repr
      ensures Valid() && nodes == ns && files == fs && repr == all
    {
      nodes, files, repr := ns, fs, all;
    }

    constructor InitMemory(maxFiles: nat, maxMemory: nat)
      ensures Valid() && nodes == [] && repr == {}
      ensures Abs() == Store([], maxFiles, maxMemory, 0, 0, 0, 0)
    {
      MaxFiles, MaxMemory := maxFiles, maxMemory;
      alg_trigger, nCurrentFile, nCurrentMemoryUsed := 0, 0, 0;
      MaxRecvFile, MaxUsedMemory := 0, 0;
      memory := null;
      nodes, files, repr, drift := [], [], {}, 0;
    }

    method GetActualFiles() returns (n: nat)
      requires Valid()
      ensures n == |files|
    {
      n := nCurrentFile;
    }

    method GetHead() returns (head: FileMemory?)
      requires Valid()
      ensures head == At(nodes, 0)
    {
      head := memory;
    }

    /** The count-bounded search is complete: it says yes exactly for the resident names. */
    method InMem(filename: Name) returns (found: bool)
      requires Valid()
      ensures found <==> Has(files, filename)
    {
      var cursor := memory;
      var i := 0;
      while i < nCurrentFile
        invariant 0 <= i <= |nodes|
        invariant cursor == At(nodes, i)
        invariant forall j :: 0 <= j < i ==> files[j].name != filename
      {
        assert Slot(nodes, files, i);
        if EqualNames(cursor.filename, filename) {
          return true;
        }
        cursor := cursor.next;
        i := i + 1;
        if cursor == null { break; }
      }
      return false;
    }

    /** Under LRU the given resident file becomes the head; all others keep their order. */
    method PolicyRoutine(policy: Policy, file: FileMemory)
      requires Valid() && file in nodes
      modifies this, repr
      ensures Valid() && repr == old(repr) && file in nodes && nCurrentMemoryUsed == old(nCurrentMemoryUsed)
      ensures Abs() == old(Abs()).(files := Promote(old(files), policy, file.filename))
    {
      ghost var k := Position(file);
      if policy == FIFO { return; }
      assert Slot(nodes, files, 0);
      if EqualNames(memory.filename, file.filename) {
        assert k == 0;
        assert MoveToFront(files, 0) == files;
        return;
      }
      var cursor := memory;
      var previous: FileMemory? := null;
      ghost var i := 0;
      while cursor != null
        invariant 0 <= i <= k && cursor == nodes[i]
        invariant i > 0 ==> previous == nodes[i - 1]
        decreases k - i
      {
        assert Slot(nodes, files, i);
        if EqualNames(cursor.filename, file.filename) { break; }
        previous := cursor;
        cursor := cursor.next;
        i := i + 1;
      }
      Relink(previous, cursor, k);
      assert nodes[0] == file;
    }

    /** The relinking itself: `cursor` leaves its place after `previous` and becomes the head. */
    method Relink(previous: FileMemory, cursor: FileMemory, ghost k: nat)
      requires Valid() && 0 < k < |nodes| && cursor == nodes[k] && previous == nodes[k - 1]
      modifies this, repr
      ensures Valid() && repr == old(repr) && nodes == MoveNode(old(nodes), k)
      ensures nCurrentMemoryUsed == old(nCurrentMemoryUsed)
      ensures Abs() == old(Abs()).(files := MoveToFront(old(files), k))
    {
      ghost var ns, fs := nodes, files;
      assert Slot(ns, fs, k) && Slot(ns, fs, k - 1);
      Others(ns, fs, repr, k);
      Others(ns, fs, repr, k - 1);
      assert Other(ns, k - 1, k);
      var following: FileMemory? := null;
      if cursor.next != null { following := cursor.next; }
      previous.next := following;
      cursor.next := memory;
      memory := cursor;
      forall i | 0 <= i < |ns| ensures Cut(ns, fs, repr, k, i) {
        assert old(Slot(ns, fs, i)) && (i != k ==> Other(ns, i, k)) && (i != k - 1 ==> Other(ns, i, k - 1));
      }
      Spliced(ns, fs, k, repr);
      Represent(MoveNode(ns, k), MoveToFront(fs, k), repr);
    }

    /** Finds a file by name and applies the policy to it; null, with ENOENT, for an absent name. */
    method FindFile(filename: Name, policy: Policy) returns (file: FileMemory?, errno: nat)
      requires Valid()
      modifies this, repr
      ensures Valid() && repr == old(repr) && nCurrentMemoryUsed == old(nCurrentMemoryUsed)
      ensures Abs() == old(Abs()).(files := Promote(old(files), policy, filename))
      ensures file == null <==> !Has(old(files), filename)
      ensures file == null ==> errno == ENOENT
      ensures file != null ==> errno == 0 && file in nodes && file.filename == filename
    {
      errno := 0;
      var resident := InMem(filename);
      if !resident {
        return null, ENOENT;
      }
      ghost var k := IndexOf(files, filename);
      var cursor := memory;
      ghost var i := 0;
      while cursor != null
        invariant 0 <= i <= k && cursor == nodes[i]
        decreases k - i
      {
        assert Slot(nodes, files, i);
        if EqualNames(cursor.filename, filename) { break; }
        cursor := cursor.next;
        i := i + 1;
      }
      if cursor != null {
        PolicyRoutine(policy, cursor);
      }
      return cursor, errno;
    }

    /** Head insertion of a new, empty file; a name that is already resident is refused. */
    method AddFileToMemory(file: FileMemory) returns (added: FileMemory?, errno: nat)
      requires Valid() && file !in repr
      requires file.buffer == [] && file.usedMemory == 0 && file.next == null
      modifies this, repr, file
      ensures Valid() && repr <= old(repr) + {file}
      ensures Has(old(files), file.filename) ==>
                added == null && errno == EEXIST && Abs() == old(Abs()) && nodes == old(nodes)
      ensures !Has(old(files), file.filename) ==>
                added == file && errno == 0 && repr == old(repr) + {file} && nodes == [file] + old(nodes)
                && Abs() == old(Abs()).(files := [File(file.filename, [], old(file.isOpen))] + old(files))
    {
      errno := 0;
      var resident := InMem(file.filename);
      if resident {
        return null, EEXIST;
      }
      HeadInsert(file);
      return file, errno;
    }

    method HeadInsert(file: FileMemory)
      requires Valid() && file !in repr && !Has(files, file.filename)
      requires file.buffer == [] && file.usedMemory == 0 && file.next == null
      modifies this, repr, file
      ensures Valid() && repr == old(repr) + {file} && nodes == [file] + old(nodes)
      ensures Abs() == old(Abs()).(files := [File(file.filename, [], old(file.isOpen))] + old(files))
    {
      ghost var ns, fs := nodes, files;
      ghost var f := File(file.filename, [], file.isOpen);
      var n := GetActualFiles();
      if n != 0 {
        LinkBefore(file);
      }
      Prepended(ns, fs, repr, file, f);
      memory := file;
      nCurrentFile := nCurrentFile + 1;
      Represent([file] + ns, [f] + fs, repr + {file});
    }

    /** Points the new head at the old one. The list itself is untouched: only its stale `prev` changes. */
    method LinkBefore(file: FileMemory)
      requires Valid() && file !in repr && nodes != []
      modifies memory`prev, file`prev, file`next
      ensures Valid() && file.next == memory
    {
      var tmp := memory;
      file.prev := null;
      file.next := tmp;
      tmp.prev := file;
      forall i | 0 <= i < |nodes| ensures Slot(nodes, files, i) {
        assert old(Slot(nodes, files, i));
      }
    }

    /** Unlinks the last file; null on an empty list. */
    method PopFromTail() returns (popped: FileMemory?)
      requires Valid()
      modifies this, repr
      ensures Valid() && repr == old(repr)
      ensures old(nodes) == [] ==> popped == null && Abs() == old(Abs()) && nodes == []
      ensures old(nodes) != [] ==>
                var n := |old(nodes)| - 1;
                popped == old(nodes)[n] && nodes == old(nodes)[..n]
                && popped.usedMemory == |old(files)[n].content|
                && nCurrentMemoryUsed == U64(old(nCurrentMemoryUsed) - popped.usedMemory)
                && Abs() == old(Abs()).(files := old(files)[..n])
    {
      var cursor := memory;
      if cursor == null {
        return null;
      }
      ghost var n := |nodes| - 1;
      assert Slot(nodes, files, 0);
      assert Slot(nodes, files, n);
      LessLast(files, drift);
      if cursor.next == null {
        memory := null;
        nCurrentFile := nCurrentFile - 1;
        nCurrentMemoryUsed := U64(nCurrentMemoryUsed - cursor.usedMemory);
        nodes, files := nodes[..n], files[..n];
        return cursor;
      }
      var previous := cursor;
      ghost var i := 0;
      while cursor != null && cursor.next != null
        invariant 0 <= i <= n && cursor == nodes[i]
        invariant previous == nodes[if i == 0 then 0 else i - 1]
        decreases n - i
      {
        assert Slot(nodes, files, i);
        previous := cursor;
        cursor := cursor.next;
        i := i + 1;
      }
      assert Slot(nodes, files, i);
      Unlink(previous, cursor);
      return cursor;
    }

    /** The relinking itself: the last node goes, and the one before it becomes the last. */
    method Unlink(previous: FileMemory, cursor: FileMemory)
      requires Valid() && |nodes| >= 2 && cursor == nodes[|nodes| - 1] && previous == nodes[|nodes| - 2]
      modifies this, repr
      ensures Valid() && repr == old(repr) && nodes == old(nodes)[..|old(nodes)| - 1]
      ensures cursor.usedMemory == old(cursor.usedMemory)
      ensures nCurrentMemoryUsed == U64(old(nCurrentMemoryUsed) - cursor.usedMemory)
      ensures Abs() == old(Abs()).(files := old(files)[..|old(nodes)| - 1])
    {
      ghost var ns, fs, n := nodes, files, |nodes| - 1;
      assert Slot(ns, fs, n);
      LessLast(fs, drift);
      Others(ns, fs, repr, n);
      Others(ns, fs, repr, n - 1);
      UniquePart(fs, 0, n);
      previous.next := null;
      cursor.prev := null;
      cursor.next := null;
      nCurrentFile := nCurrentFile - 1;
      nCurrentMemoryUsed := U64(nCurrentMemoryUsed - cursor.usedMemory);
      forall i | 0 <= i < n ensures Slot(ns[..n], fs[..n], i) {
        assert old(Slot(ns, fs, i)) && Other(ns, i, n);
        assert i < n - 1 ==> Other(ns, i, n - 1);
      }
      Represent(ns[..n], fs[..n], repr);
    }

    /** Unlinks the first file; null on an empty list. */
    method PopFromHead() returns (popped: FileMemory?)
      requires Valid()
      modifies this, repr
      ensures Valid() && repr == old(repr)
      ensures old(nodes) == [] ==> popped == null && Abs() == old(Abs()) && nodes == []
      ensures old(nodes) != [] ==>
                popped == old(nodes)[0] && nodes == old(nodes)[1..]
                && Abs() == old(Abs()).(files := old(files)[1..])
                && nCurrentMemoryUsed == U64(old(nCurrentMemoryUsed) - |old(files)[0].content|)
    {
      if memory == null {
        return null;
      }
      var toRet := memory;
      assert Slot(nodes, files, 0);
      if toRet.next == null {
        LessFirst(files, drift);
        memory := null;
        nCurrentFile := nCurrentFile - 1;
        nCurrentMemoryUsed := U64(nCurrentMemoryUsed - toRet.usedMemory);
        toRet.next := null;
        toRet.prev := null;
        Represent(nodes[1..], files[1..], repr);
        return toRet;
      }
      UnlinkFirst(toRet);
      return toRet;
    }

    /** The relinking itself: the second node becomes the first. */
    method UnlinkFirst(toRet: FileMemory)
      requires Valid() && |nodes| >= 2 && toRet == nodes[0]
      modifies this, repr
      ensures Valid() && repr == old(repr) && nodes == old(nodes)[1..]
      ensures Abs() == old(Abs()).(files := old(files)[1..])
      ensures nCurrentMemoryUsed == U64(old(nCurrentMemoryUsed) - |old(files)[0].content|)
    {
      ghost var ns, fs := nodes, files;
      assert Slot(ns, fs, 0);
      LessFirst(fs, drift);
      Others(ns, fs, repr, 0);
      UniquePart(fs, 1, |fs|);
      assert fs[1..] == fs[1..|fs|];
      memory := toRet.next;
      toRet.next := null;
      toRet.prev := null;
      nCurrentFile := nCurrentFile - 1;
      nCurrentMemoryUsed := U64(nCurrentMemoryUsed - toRet.usedMemory);
      forall i | 0 <= i < |ns| - 1 ensures Slot(ns[1..], fs[1..], i) {
        assert old(Slot(ns, fs, i + 1)) && Other(ns, i + 1, 0);
      }
      Represent(ns[1..], fs[1..], repr);
    }

    /** Deletes a file under any policy by a move to the front and a pop: exactly that file goes,
        the others keep their order, and the counters drop by 1 and by its size. */
    method RemoveGenericFile(file: FileMemory) returns (r: int)
      requires Valid() && file in nodes
      modifies this, repr
      ensures Valid() && repr == old(repr) && r == 1
      ensures var k := IndexOf(old(files), file.filename);
              Has(old(files), file.filename)
              && Abs() == old(Abs()).(files := RemoveAt(old(files), k))
              && nCurrentFile == old(nCurrentFile) - 1
              && nCurrentMemoryUsed == U64(old(nCurrentMemoryUsed) - |old(files)[k].content|)
    {
      ghost var k := Position(file);
      MoveThenPopIsDeletion(files, FIFO, file.filename);
      var resident := InMem(file.filename);
      if !resident {
        return -1;
      }
      var found, errno := FindFile(file.filename, LRU);
      var lol := PopFromHead();
      return 1;
    }

    /** Whether a request is admitted as things are; if it is, the high-water marks are raised. */
    method IsActionLegal(nFiles: nat, amount: int, ghost size: nat) returns (legal: bool)
      requires Valid() && amount == Int32(size)
      modifies this`MaxUsedMemory, this`MaxRecvFile
      ensures Valid()
      ensures legal <==> Legal(old(Abs()), nFiles, size)
      ensures Abs() == if legal then Marked(old(Abs()), nFiles, size) else old(Abs())
    {
      var currentMemory := nCurrentMemoryUsed;
      var currentFiles := nCurrentFile;
      LegalTestIs(currentMemory, currentFiles, MaxMemory, MaxFiles, nFiles, amount);
      if !LegalTest(currentMemory, currentFiles, MaxMemory, MaxFiles, nFiles, amount) {
        return false;
      }
      RaiseMarks(nFiles, amount);
      return true;
    }

    method RaiseMarks(nFiles: nat, amount: int)
      requires Valid()
      modifies this`MaxUsedMemory, this`MaxRecvFile
      ensures Valid()
      ensures var bytes, count := U64(nCurrentMemoryUsed + amount), U32(nCurrentFile + nFiles);
              && MaxUsedMemory == (if old(MaxUsedMemory) < bytes then U32(bytes) else old(MaxUsedMemory))
              && MaxRecvFile == if old(MaxRecvFile) < count then count else old(MaxRecvFile)
    {
      Reduced64(amount, nCurrentMemoryUsed);
      Reduced32(nFiles, nCurrentFile);
      if MaxUsedMemory < U64(nCurrentMemoryUsed + U64(amount)) {
        MaxUsedMemory := U32(U64(nCurrentMemoryUsed + U64(amount)));
      }
      if MaxRecvFile < U32(nCurrentFile + U32(nFiles)) {
        MaxRecvFile := U32(nCurrentFile + U32(nFiles));
      }
    }

    /** The file phase of the cache algorithm: drops a number of files from the tail, or all of them. */
    method EvictFiles(n: nat)
      requires Valid()
      modifies this, repr
      ensures Valid() && repr == old(repr)
      ensures var m := if n < |old(nodes)| then |old(nodes)| - n else 0;
              nodes == old(nodes)[..m] && Abs() == old(Abs()).(files := old(files)[..m])
    {
      ghost var ns, fs := nodes, files;
      for i := 0 to n
        invariant Valid() && repr == old(repr)
        invariant |nodes| == if i < |ns| then |ns| - i else 0
        invariant nodes == ns[..|nodes|] && files == fs[..|nodes|]
        invariant Abs() == old(Abs()).(files := files)
      {
        var toRemove := PopFromTail();
      }
    }

    /** Drops files from the tail until no bytes are over. It stops at the longest prefix for which
        that is so, and never pops from an empty list. */
    method EvictBytes(amount: nat, excess: int)
      requires Valid() && excess > 0 && BytesGuard(files, drift, MaxMemory, amount)
      modifies this, repr
      ensures Valid() && repr == old(repr)
      ensures var m := BytePhase(old(files), old(drift), old(MaxMemory), amount);
              nodes == old(nodes)[..m] && Abs() == old(Abs()).(files := old(files)[..m])
    {
      ghost var ns, st := nodes, Abs();
      ghost var all, limit := st.files, st.maxMemory;
      assert all[..|ns|] == all;
      var currentMemory := nCurrentMemoryUsed;
      var toRemove := excess;
      while toRemove > 0 && nCurrentFile != 0
        invariant Valid() && repr == old(repr) && |nodes| <= |ns|
        invariant nodes == ns[..|nodes|] && Abs() == st.(files := all[..|nodes|])
        invariant currentMemory == nCurrentMemoryUsed
        invariant |nodes| == |ns| ==> toRemove > 0
        invariant |nodes| < |ns| ==>
                    (toRemove > 0 <==> StillOver(files, st.drift, limit, amount))
                    && Fitting(files, st.drift, limit, amount) == BytePhase(all, st.drift, limit, amount)
        decreases |nodes|
      {
        ghost var k := |nodes| - 1;
        FittingLess(all, k + 1, st.drift, limit, amount);
        var victim := PopFromTail();
        currentMemory := U64(currentMemory - victim.usedMemory);
        toRemove := MemoryStillToRemove(currentMemory, amount, MaxMemory);
        LoopGuard(all[..k], st.drift, amount, limit);
      }
    }

    /** The byte phase, with its guard. */
    method EvictForBytes(amount: nat, triggered: bool)
      requires Valid()
      modifies this, repr
      ensures Valid() && repr == old(repr)
      ensures var st := old(Abs());
              var first := BytesGuard(st.files, st.drift, st.maxMemory, amount) && !triggered;
              Abs() == st.(files := st.files[..BytePhase(st.files, st.drift, st.maxMemory, amount)],
                           trigger := st.trigger + if first then 1 else 0)
    {
      assert files[..|files|] == files;
      MemoryToRemoveIs(nCurrentMemoryUsed, amount, MaxMemory);
      ReducedInSum(Total(files) + drift, amount - MaxMemory);
      var toRemove := MemoryToRemove(nCurrentMemoryUsed, amount, MaxMemory);
      if toRemove > 0 && MaxMemory > amount {
        if !triggered {
          alg_trigger := alg_trigger + 1;
        }
        EvictBytes(amount, toRemove);
      }
    }

    /** The whole of the cache algorithm, for a request of any size on a cache in any state. */
    method CacheAlgorithm(nFiles: nat, amount: nat) returns (errno: nat)
      requires Valid()
      modifies this, repr
      ensures Valid() && repr == old(repr) && Abs() == MakeRoom(old(Abs()), nFiles, amount)
      ensures errno == CacheErrno(old(Abs()), nFiles, amount)
    {
      errno := 0;
      var legal := IsActionLegal(nFiles, Int32(amount), amount);
      if legal {
        return ECANCELED;
      }
      FilesToRemoveIs(nCurrentFile, nFiles, MaxFiles);
      var nFilesToRemove := FilesToRemove(nCurrentFile, nFiles, MaxFiles);
      if nFiles > MaxFiles || amount > MaxMemory {
        return E2BIG;
      }
      Evict(nFiles, amount, nFilesToRemove);
    }

    /** The two phases of eviction, for a request that is neither legal as it stands nor too big. */
    method Evict(nFiles: nat, amount: nat, nFilesToRemove: int)
      requires Valid()
      requires !Legal(Abs(), nFiles, amount) && !TooBig(Abs(), nFiles, amount)
      requires nFilesToRemove == FilesOver(Abs(), nFiles)
      modifies this, repr
      ensures Valid() && repr == old(repr)
      ensures Abs() == MakeRoom(old(Abs()), nFiles, amount)
    {
      ghost var st := Abs();
      var triggered := false;
      if nFilesToRemove > 0 && MaxFiles > nFiles {
        if !triggered {
          alg_trigger := alg_trigger + 1;
          triggered := true;
        }
        EvictFiles(nFilesToRemove);
      }
      assert st.files[..|st.files|] == st.files;
      assert files == st.files[..FilePhase(st, nFiles)];
      EvictForBytes(amount, triggered);
    }

    /** Appends to the file's stream and to the running total, for a block for which the loop ends. */
    method WriteToFile(file: FileMemory, data: seq<byte>, size: nat) returns (wrote: int)
      requires Valid() && file in nodes && size == |data| < TWO_63 && !NeverEnds(size)
      modifies this, file
      ensures Valid() && repr == old(repr) && nodes == old(nodes) && wrote == Counted(size)
      ensures Has(old(files), file.filename) && Abs() == Appended(old(Abs()), file.filename, data)
      ensures nCurrentMemoryUsed == U64(old(nCurrentMemoryUsed) + Counted(size))
    {
      ghost var k := Position(file);
      ghost var fs := files[k := files[k].(content := files[k].content + Written(data))];
      ghost var off := drift + DriftOf(size);
      MoreWritten(files, k, drift, data);
      UniqueUpdate(files, k, fs[k]);
      Others(nodes, files, repr, k);
      wrote := file.Fwrites(data, size);
      nCurrentMemoryUsed := U64(nCurrentMemoryUsed + wrote);
      drift := off;
      forall i | 0 <= i < |nodes| ensures Slot(nodes, fs, i) {
        assert i != k ==> Other(nodes, i, k) && old(Slot(nodes, files, i));
      }
      Represent(nodes, fs, repr);
    }

    method SetFileOpen(file: FileMemory)
      requires Valid() && file in nodes
      modifies this`files, file
      ensures Valid() && Has(old(files), file.filename)
      ensures Abs() == old(Abs()).(files := SetOpen(old(files), file.filename))
    {
      ghost var k := Position(file);
      ghost var f := files[k].(isOpen := true);
      TotalUpdate(files, k, f);
      UniqueUpdate(files, k, f);
      Others(nodes, files, repr, k);
      file.isOpen := true;
      files := files[k := f];
      forall i | 0 <= i < |nodes| ensures Slot(nodes, files, i) {
        assert old(Slot(nodes, files, i)) && (i != k ==> Other(nodes, i, k));
      }
    }

    /** Empties the cache, for the server's end. */
    method CleanCache()
      requires Valid()
      modifies this, repr
      ensures Valid() && repr == old(repr) && nodes == [] && nCurrentMemoryUsed == U64(old(drift))
    {
      ghost var ns := nodes;
      while nCurrentFile != 0
        invariant Valid() && repr == old(repr) && drift == old(drift)
        invariant |nodes| <= |ns| && nodes == ns[|ns| - |nodes|..]
        decreases |nodes|
      {
        var tmp := PopFromHead();
      }
    }

    /** Where a resident file stands; its name finds it there. */
    ghost function Position(file: FileMemory): (k: nat)
      requires Valid() && file in nodes
      reads this, repr
      ensures k < |nodes| && nodes[k] == file && Slot(nodes, files, k)
      ensures IndexOf(files, file.filename) == k && Has(files, file.filename)
    {
      var k :| 0 <= k < |nodes| && nodes[k] == file;
      assert Slot(nodes, files, k);
      IndexUnique(files, k, file.filename);
      k
    }
  }

  lemma TotalHead(files: seq<File>)
    requires files != []
    ensures Total(files) == |files[0].content| + Total(files[1..])
  {
    TotalSplit(files, 1);
    assert files[..1] == [files[0]];
    TotalOne(files[0]);
  }

  lemma TotalPrepended(files: seq<File>, f: File)
    ensures Total([f] + files) == |f.content| + Total(files)
  {
    TotalConcat([f], files);
    TotalOne(f);
  }

  // ---- the counter of bytes when a file goes ----

  lemma Less(total: nat, rest: nat, size: nat, drift: int)
    requires total == rest + size
    ensures U64(U64(total + drift) - size) == U64(rest + drift)
  {
    var off: int := size;
    Reduced64(total + drift, -off);
  }

  lemma {:induction false} LessLast(files: seq<File>, drift: int)
    requires files != []
    ensures var n := |files| - 1;
            U64(U64(Total(files) + drift) - |files[n].content|) == U64(Total(files[..n]) + drift)
  {
    var n := |files| - 1;
    Less(Total(files), Total(files[..n]), |files[n].content|, drift);
  }

  lemma {:induction false} LessFirst(files: seq<File>, drift: int)
    requires files != []
    ensures U64(U64(Total(files) + drift) - |files[0].content|) == U64(Total(files[1..]) + drift)
  {
    TotalHead(files);
    Less(Total(files), Total(files[1..]), |files[0].content|, drift);
  }

  lemma {:induction false} LessOne(files: seq<File>, k: nat, drift: int)
    requires k < |files|
    ensures U64(U64(Total(files) + drift) - |files[k].content|) == U64(Total(RemoveAt(files, k)) + drift)
  {
    TotalRemoveAt(files, k);
    Less(Total(files), Total(RemoveAt(files, k)), |files[k].content|, drift);
  }

  /** And when a block comes in. */
  lemma {:induction false} MoreWritten(files: seq<File>, k: nat, drift: int, data: seq<byte>)
    requires k < |files|
    ensures var f := files[k].(content := files[k].content + Written(data));
            U64(U64(Total(files) + drift) + Counted(|data|)) == U64(Total(files[k := f]) + (drift + DriftOf(|data|)))
  {
    TotalUpdate(files, k, files[k].(content := files[k].content + Written(data)));
    TimesSize(data, Turns(|data|));
    Reduced64(Total(files) + drift, Counted(|data|));
  }

  lemma {:induction false} LoopGuard(files: seq<File>, drift: int, amount: nat, limit: nat)
    ensures MemoryStillToRemove(U64(Total(files) + drift), amount, limit) > 0
       <==> StillOver(files, drift, limit, amount)
  {
    MemoryStillToRemoveIs(U64(Total(files) + drift), amount, limit);
    ReducedInSum(Total(files) + drift, amount - limit);
  }

  lemma {:induction false} FittingLess(files: seq<File>, k: nat, drift: int, limit: nat, amount: nat)
    requires 0 < k <= |files|
    ensures files[..k][..k - 1] == files[..k - 1]
    ensures StillOver(files[..k], drift, limit, amount) ==>
              Fitting(files[..k], drift, limit, amount) == Fitting(files[..k - 1], drift, limit, amount)
    ensures BytesGuard(files, drift, limit, amount) && k == |files| ==>
              Fitting(files[..k - 1], drift, limit, amount) == BytePhase(files, drift, limit, amount)
  {
    assert files[..k][..k - 1] == files[..k - 1];
  }
}
