/** The mutexes of the server and the fields they cover. Any number of threads, each running the
    server's routines one after another in any order: none ever takes a mutex that it holds, and no
    set of threads is ever blocked on mutexes held within that set. */
module Locks {
  // ---- what the routines lock and touch ----

  /** The two of the store, one for each file and each list, the worker counter's and the log's. */
  datatype Mutex = Metadata | Memory | FileLock(file: nat) | ListLock(list: nat) | Counter | Log

  /** What the threads share. `Links` are the head of the list of files and the links of its nodes;
      names and limits are left out, since they never change. */
  datatype Field =
    | Links
    | FileCount
    | Bytes
    | Marks
    | TriggerCount
    | Flag(file: nat)
    | Size(file: nat)
    | Stream(file: nat)
    | Nodes(list: nat)
    | WorkerCount
    | LogFile

  /** A step of a thread as far as mutexes and shared fields go. `Touch` is a use of a field that may
      write it if `writes`; `Peek` is a reading that takes no mutex. `Sleep` is the part of a wait on
      a condition between giving up its mutex and asking for it again. */
  datatype Action =
    | Acquire(m: Mutex)
    | Release(m: Mutex)
    | Touch(field: Field, writes: bool)
    | Peek(field: Field)
    | Sleep

  /** A call of a routine, with the outcomes that decide which mutexes it takes. */
  datatype Routine =
    | WriteLog
    | GetActualFiles
    | GetHead
    | SetFileOpen(file: nat)
    | SendContent(file: nat)                                  // what a read sends of an open file
    | SendNext(file: nat)                                     // one turn of the loop of READN
    | LogSize(file: nat)                                      // the line that a write logs in the end
    | InMem
    | PolicyRoutine(lru: bool)
    | FindFile(found: bool, lru: bool)
    | AddFileToMemory(duplicate: bool)
    | FreeFile(file: nat)
    | PopFile(found: bool, file: nat)                         // from the head or from the tail
    | RemoveGenericFile(found: bool, file: nat)
    | IsActionLegal(legal: bool)
    | AlgCounter
    | CacheAlgorithm(legal: bool, fits: bool, making: Making)
    | CleanCache(files: seq<nat>)
    | WriteToFile(file: nat)
    | PushNode(list: nat)
    | PopElement(list: nat, sleeps: nat)
    | WakeUpAllReaders(list: nat)
    | WorkerAddOrSub
    | WaitOnWorkers(sleeps: nat)

  /** How the cache algorithm goes once it has to make room: whether it meets each guard, the files that
      go in each phase, the pops from an empty list, and whether the last test finds the list empty. */
  datatype Making = Making(
    filesGuard: bool,
    forCount: seq<nat>,
    emptyPops: nat,
    bytesGuard: bool,
    forBytes: seq<nat>,
    emptied: bool)

  /** Why a file is popped: for the count, for the bytes or in the final clearing. The loops of the last
      two test the count before every pop, and that for the bytes reads the size of the popped file. */
  datatype Cause = ForCount | ForBytes | Clearing

  function Reads(field: Field): Action {
    Touch(field, false)
  }

  function Writes(field: Field): Action {
    Touch(field, true)
  }

  function Section(m: Mutex, uses: seq<Action>): seq<Action> {
    [Acquire(m)] + (uses + [Release(m)])
  }

  /** The lock macro of the store and its counterpart, which releases in the order of locking. */
  function Both(uses: seq<Action>): seq<Action> {
    [Acquire(Metadata), Acquire(Memory)] + (uses + [Release(Metadata), Release(Memory)])
  }

  /** A wait on a condition: the test comes before every sleep and after the last. */
  function Sleeps(m: Mutex, field: Field, n: nat): seq<Action> {
    if n == 0 then [Reads(field)] else [Reads(field), Release(m), Sleep, Acquire(m)] + Sleeps(m, field, n - 1)
  }

  function Waiting(m: Mutex, field: Field, n: nat, uses: seq<Action>): seq<Action> {
    [Acquire(m)] + (Sleeps(m, field, n) + (uses + [Release(m)]))
  }

  const COUNTED := Section(Metadata, [Reads(FileCount)])
  const SEARCHED := Section(Memory, [Reads(Links), Reads(FileCount)])
  const FOUND := Section(Memory, [Reads(Links)])
  const MOVED := Section(Memory, [Writes(Links)])
  const LOGGED := Section(Log, [Writes(LogFile)])
  const ADDED := Both([Writes(Links), Writes(FileCount)])
  const POPPED_NONE := Both([Reads(Links)])
  const WEIGHED := Section(Metadata, [Reads(Bytes)])

  function Popped(f: nat): seq<Action> {
    Both([Writes(Links), Writes(FileCount), Reads(Size(f)), Writes(Bytes)])
  }

  function Freed(f: nat): seq<Action> {
    Section(FileLock(f), [Writes(Stream(f))])
  }

  function Legality(legal: bool): seq<Action> {
    var uses := [Reads(Bytes), Reads(FileCount)];
    Section(Metadata, if legal then uses + [Writes(Marks)] else uses)
  }

  function Eviction(f: nat, cause: Cause): seq<Action> {
    (if cause == ForCount then [] else COUNTED)
    + (Popped(f) + ((if cause == ForBytes then [Peek(Size(f))] else []) + Freed(f)))
  }

  function Evictions(files: seq<nat>, cause: Cause): seq<Action> {
    if files == [] then [] else Eviction(files[0], cause) + Evictions(files[1..], cause)
  }

  /** Pops that find nothing take the two mutexes and no file's. */
  function EmptyPops(n: nat): seq<Action> {
    if n == 0 then [] else POPPED_NONE + EmptyPops(n - 1)
  }

  function FilesPhase(m: Making): seq<Action> {
    if m.filesGuard then Trigger() + (Evictions(m.forCount, ForCount) + EmptyPops(m.emptyPops)) else []
  }

  /** The trigger counts once. */
  function BytesPhase(m: Making): seq<Action> {
    if m.bytesGuard then
      (if m.filesGuard then [] else Trigger())
      + (Evictions(m.forBytes, ForBytes) + (if m.emptied then COUNTED else []))
    else []
  }

  /** What `cache_algorithm` does once it has found that it has to make room. */
  function MakingTrace(m: Making): seq<Action> {
    FilesPhase(m) + (WEIGHED + BytesPhase(m))
  }

  /** `alg_counter` */
  function Trigger(): seq<Action> {
    Section(Metadata, [Writes(TriggerCount)]) + LOGGED
  }

  /** The file is looked at before its mutex is taken and again, for the log, after it is released. */
  function Sent(f: nat): seq<Action> {
    [Peek(Flag(f)), Peek(Size(f))]
    + (Section(FileLock(f), [Reads(Size(f)), Reads(Stream(f))]) + ([Peek(Size(f))] + LOGGED))
  }

  function SentNext(f: nat): seq<Action> {
    [Peek(Stream(f)), Peek(Size(f))] + (LOGGED + [Peek(Links)])
  }

  /** What a call locks and touches. */
  function Trace(r: Routine): seq<Action> {
    match r
    case WriteLog => LOGGED
    case GetActualFiles => COUNTED
    case GetHead => FOUND
    case SetFileOpen(f) => Section(FileLock(f), [Writes(Flag(f))])
    case SendContent(f) => Sent(f)
    case SendNext(f) => SentNext(f)
    case LogSize(f) => [Peek(Size(f))] + LOGGED
    case InMem => SEARCHED
    case PolicyRoutine(lru) => if lru then MOVED else []
    case FindFile(found, lru) => SEARCHED + (if found then FOUND + (if lru then MOVED else []) else LOGGED)
    case AddFileToMemory(duplicate) => SEARCHED + (if duplicate then [] else COUNTED + ADDED)
    case FreeFile(f) => Freed(f)
    case PopFile(found, f) => if found then Popped(f) else POPPED_NONE
    case RemoveGenericFile(found, f) =>
      SEARCHED + (if found then (SEARCHED + (FOUND + MOVED)) + (Popped(f) + Freed(f)) else [])
    case IsActionLegal(legal) => Legality(legal)
    case AlgCounter => Trigger()
    case CacheAlgorithm(legal, fits, making) =>
      Legality(legal) + (if legal then [] else COUNTED + (if fits then MakingTrace(making) else []))
    case CleanCache(files) => Evictions(files, Clearing) + COUNTED
    case WriteToFile(f) => Written(f)
    case PushNode(l) => Section(ListLock(l), [Writes(Nodes(l))])
    case PopElement(l, n) => Waiting(ListLock(l), Nodes(l), n, [Writes(Nodes(l))])
    case WakeUpAllReaders(l) => Section(ListLock(l), [])
    case WorkerAddOrSub => Section(Counter, [Writes(WorkerCount)])
    case WaitOnWorkers(n) => Waiting(Counter, WorkerCount, n, [])
  }

  /** `write_to_file`; the flush of the stream stores its size. */
  function Written(f: nat): seq<Action> {
    [Acquire(Metadata), Acquire(FileLock(f))]
    + ([Writes(Stream(f)), Writes(Size(f)), Writes(Bytes)] + [Release(FileLock(f)), Release(Metadata)])
  }

  // ---- the order of locking, and what each mutex covers ----

  function Rank(m: Mutex): (r: nat) {
    if m == Metadata then 0 else 1
  }

  /** Which mutexes a touch needs. The count of files and the sizes are written under two mutexes, and
      read under either. */
  predicate Covered(held: set<Mutex>, field: Field, writes: bool) {
    match field
    case Links => Memory in held
    case FileCount => if writes then Metadata in held && Memory in held else Metadata in held || Memory in held
    case Bytes => Metadata in held
    case Marks => Metadata in held
    case TriggerCount => Metadata in held
    case Flag(f) => FileLock(f) in held
    case Size(f) =>
      if writes then Metadata in held && FileLock(f) in held else Metadata in held || FileLock(f) in held
    case Stream(f) => FileLock(f) in held
    case Nodes(l) => ListLock(l) in held
    case WorkerCount => Counter in held
    case LogFile => Log in held
  }

  /** From holding `held`, the actions take mutexes only in rising rank, release only what is held,
      touch a field only under what covers it, sleep and peek holding nothing and end holding nothing. */
  ghost predicate Disciplined(held: set<Mutex>, actions: seq<Action>)
    decreases |actions|
  {
    if actions == [] then held == {}
    else
      match actions[0]
      case Acquire(m) => (forall h <- held :: Rank(h) < Rank(m)) && Disciplined(held + {m}, actions[1..])
      case Release(m) => m in held && Disciplined(held - {m}, actions[1..])
      case Touch(field, writes) => Covered(held, field, writes) && Disciplined(held, actions[1..])
      case Peek(_) => held == {} && Disciplined(held, actions[1..])
      case Sleep => held == {} && Disciplined(held, actions[1..])
  }

  lemma {:induction false} DisciplinedConcat(held: set<Mutex>, a: seq<Action>, b: seq<Action>)
    requires Disciplined(held, a) && Disciplined({}, b)
    ensures Disciplined(held, a + b)
    decreases |a|
  {
    if a == [] {
      assert a + b == b;
    } else {
      assert (a + b)[1..] == a[1..] + b;
      DisciplinedConcat(Holding(held, a[0]), a[1..], b);
    }
  }

  /** What is held after an action. */
  function Holding(held: set<Mutex>, a: Action): set<Mutex> {
    match a
    case Acquire(m) => held + {m}
    case Release(m) => held - {m}
    case _ => held
  }

  predicate AllCovered(held: set<Mutex>, uses: seq<Action>) {
    forall i :: 0 <= i < |uses| ==> uses[i].Touch? && Covered(held, uses[i].field, uses[i].writes)
  }

  lemma {:induction false} UsesDisciplined(held: set<Mutex>, uses: seq<Action>, rest: seq<Action>)
    requires AllCovered(held, uses) && Disciplined(held, rest)
    ensures Disciplined(held, uses + rest)
    decreases |uses|
  {
    if uses == [] {
      assert uses + rest == rest;
    } else {
      assert (uses + rest)[1..] == uses[1..] + rest;
      UsesDisciplined(held, uses[1..], rest);
    }
  }

  lemma SectionDisciplined(m: Mutex, uses: seq<Action>)
    requires AllCovered({m}, uses)
    ensures Disciplined({}, Section(m, uses))
  {
    assert Disciplined({m}, [Release(m)]) by { assert {m} - {m} == {}; }
    UsesDisciplined({m}, uses, [Release(m)]);
    assert Section(m, uses)[1..] == uses + [Release(m)] && {} + {m} == {m};
  }

  lemma NestedDisciplined(m: Mutex, n: Mutex, first: Mutex, second: Mutex, uses: seq<Action>)
    requires Rank(m) < Rank(n) && {first, second} == {m, n} && AllCovered({m, n}, uses)
    ensures Disciplined({}, [Acquire(m), Acquire(n)] + (uses + [Release(first), Release(second)]))
  {
    var releases := [Release(first), Release(second)];
    var a := [Acquire(m), Acquire(n)] + (uses + releases);
    assert first != second by { assert m in {first, second} && n in {first, second}; }
    assert Disciplined({second}, [Release(second)]) by { assert {second} - {second} == {}; }
    assert releases[1..] == [Release(second)] && {m, n} - {first} == {second};
    UsesDisciplined({m, n}, uses, releases);
    assert {} + {m} == {m} && {m} + {n} == {m, n};
    assert a[1..] == [Acquire(n)] + (uses + releases) && a[1..][1..] == uses + releases;
    assert Disciplined({m}, a[1..]);
  }

  lemma SleepDisciplined(m: Mutex, rest: seq<Action>)
    requires Disciplined({m}, rest)
    ensures Disciplined({m}, [Release(m), Sleep, Acquire(m)] + rest)
  {
    var a := [Release(m), Sleep, Acquire(m)] + rest;
    assert a[1..] == [Sleep, Acquire(m)] + rest && a[1..][1..] == [Acquire(m)] + rest && a[1..][1..][1..] == rest;
    assert {m} - {m} == {} && {} + {m} == {m};
    assert Disciplined({}, a[1..][1..]);
  }

  lemma {:induction false} SleepsDisciplined(m: Mutex, field: Field, n: nat, end: seq<Action>)
    requires Covered({m}, field, false) && Disciplined({m}, end)
    ensures Disciplined({m}, Sleeps(m, field, n) + end)
  {
    if n == 0 {
      UsesDisciplined({m}, [Reads(field)], end);
    } else {
      var rest := Sleeps(m, field, n - 1) + end;
      SleepsDisciplined(m, field, n - 1, end);
      SleepDisciplined(m, rest);
      UsesDisciplined({m}, [Reads(field)], [Release(m), Sleep, Acquire(m)] + rest);
      assert Sleeps(m, field, n) + end == [Reads(field)] + ([Release(m), Sleep, Acquire(m)] + rest);
    }
  }

  lemma WaitDisciplined(m: Mutex, field: Field, n: nat, uses: seq<Action>)
    requires Covered({m}, field, false) && AllCovered({m}, uses)
    ensures Disciplined({}, Waiting(m, field, n, uses))
  {
    assert Disciplined({m}, [Release(m)]) by { assert {m} - {m} == {}; }
    UsesDisciplined({m}, uses, [Release(m)]);
    SleepsDisciplined(m, field, n, uses + [Release(m)]);
    var rest := Sleeps(m, field, n) + (uses + [Release(m)]);
    assert ([Acquire(m)] + rest)[1..] == rest && {} + {m} == {m};
  }

  /** Traces that start and end holding nothing. */
  ghost predicate Clean(actions: seq<Action>) {
    Disciplined({}, actions)
  }

  lemma CleanConcat(a: seq<Action>, b: seq<Action>)
    requires Clean(a) && Clean(b)
    ensures Clean(a + b)
  {
    DisciplinedConcat({}, a, b);
  }

  lemma PeeksClean(a: seq<Action>)
    requires |a| <= 2 && forall i :: 0 <= i < |a| ==> a[i].Peek?
    ensures Clean(a)
  {
    if |a| > 0 { PeeksClean(a[1..]); }
  }

  lemma MetadataClean()
    ensures Clean(COUNTED) && Clean(WEIGHED)
  {
    SectionDisciplined(Metadata, [Reads(FileCount)]);
    SectionDisciplined(Metadata, [Reads(Bytes)]);
  }

  lemma MemoryClean()
    ensures Clean(SEARCHED) && Clean(FOUND) && Clean(MOVED)
  {
    SectionDisciplined(Memory, [Reads(Links), Reads(FileCount)]);
    SectionDisciplined(Memory, [Reads(Links)]);
    SectionDisciplined(Memory, [Writes(Links)]);
  }

  lemma LoggedClean()
    ensures Clean(LOGGED)
  {
    SectionDisciplined(Log, [Writes(LogFile)]);
  }

  lemma FreedClean(f: nat)
    ensures Clean(Freed(f))
  {
    SectionDisciplined(FileLock(f), [Writes(Stream(f))]);
  }

  lemma SectionsClean()
    ensures Clean([]) && Clean(COUNTED) && Clean(SEARCHED) && Clean(FOUND) && Clean(MOVED) && Clean(LOGGED)
    ensures Clean(WEIGHED) && forall f :: Clean(Freed(f))
  {
    MetadataClean();
    MemoryClean();
    LoggedClean();
    forall f ensures Clean(Freed(f)) {
      FreedClean(f);
    }
  }

  lemma NestedClean()
    ensures Clean(ADDED) && Clean(POPPED_NONE) && forall f :: Clean(Popped(f))
  {
    NestedDisciplined(Metadata, Memory, Metadata, Memory, [Writes(Links), Writes(FileCount)]);
    NestedDisciplined(Metadata, Memory, Metadata, Memory, [Reads(Links)]);
    forall f ensures Clean(Popped(f)) {
      var uses := [Writes(Links), Writes(FileCount), Reads(Size(f)), Writes(Bytes)];
      NestedDisciplined(Metadata, Memory, Metadata, Memory, uses);
    }
  }

  lemma LegalityClean(legal: bool)
    ensures Clean(Legality(legal))
  {
    var uses := [Reads(Bytes), Reads(FileCount)];
    SectionDisciplined(Metadata, if legal then uses + [Writes(Marks)] else uses);
  }

  lemma EvictionClean(f: nat, cause: Cause)
    ensures Clean(Eviction(f, cause))
  {
    SectionsClean();
    NestedClean();
    var peek := if cause == ForBytes then [Peek(Size(f))] else [];
    PeeksClean(peek);
    CleanConcat(peek, Freed(f));
    CleanConcat(Popped(f), peek + Freed(f));
    CleanConcat(if cause == ForCount then [] else COUNTED, Popped(f) + (peek + Freed(f)));
  }

  lemma {:induction false} EvictionsClean(files: seq<nat>, cause: Cause)
    ensures Clean(Evictions(files, cause))
  {
    if files == [] {
      SectionsClean();
    } else {
      EvictionClean(files[0], cause);
      EvictionsClean(files[1..], cause);
      CleanConcat(Eviction(files[0], cause), Evictions(files[1..], cause));
    }
  }

  lemma {:induction false} EmptyPopsClean(n: nat)
    ensures Clean(EmptyPops(n))
  {
    if n > 0 {
      NestedClean();
      EmptyPopsClean(n - 1);
      CleanConcat(POPPED_NONE, EmptyPops(n - 1));
    }
  }

  lemma FilesPhaseClean(m: Making)
    ensures Clean(FilesPhase(m))
  {
    SectionsClean();
    TriggerClean();
    EvictionsClean(m.forCount, ForCount);
    EmptyPopsClean(m.emptyPops);
    CleanConcat(Evictions(m.forCount, ForCount), EmptyPops(m.emptyPops));
    CleanConcat(Trigger(), Evictions(m.forCount, ForCount) + EmptyPops(m.emptyPops));
  }

  lemma BytesPhaseClean(m: Making)
    ensures Clean(BytesPhase(m))
  {
    SectionsClean();
    TriggerClean();
    EvictionsClean(m.forBytes, ForBytes);
    var last := if m.emptied then COUNTED else [];
    CleanConcat(Evictions(m.forBytes, ForBytes), last);
    CleanConcat(if m.filesGuard then [] else Trigger(), Evictions(m.forBytes, ForBytes) + last);
  }

  lemma MakingClean(m: Making)
    ensures Clean(MakingTrace(m))
  {
    SectionsClean();
    FilesPhaseClean(m);
    BytesPhaseClean(m);
    CleanConcat(WEIGHED, BytesPhase(m));
    CleanConcat(FilesPhase(m), WEIGHED + BytesPhase(m));
  }

  lemma TriggerClean()
    ensures Clean(Trigger())
  {
    LoggedClean();
    SectionDisciplined(Metadata, [Writes(TriggerCount)]);
    CleanConcat(Section(Metadata, [Writes(TriggerCount)]), LOGGED);
  }

  lemma SentClean(f: nat)
    ensures Clean(Sent(f))
  {
    var section := Section(FileLock(f), [Reads(Size(f)), Reads(Stream(f))]);
    SectionDisciplined(FileLock(f), [Reads(Size(f)), Reads(Stream(f))]);
    LoggedClean();
    PeeksClean([Peek(Size(f))]);
    PeeksClean([Peek(Flag(f)), Peek(Size(f))]);
    CleanConcat([Peek(Size(f))], LOGGED);
    CleanConcat(section, [Peek(Size(f))] + LOGGED);
    CleanConcat([Peek(Flag(f)), Peek(Size(f))], section + ([Peek(Size(f))] + LOGGED));
  }

  lemma SentNextClean(f: nat)
    ensures Clean(SentNext(f))
  {
    LoggedClean();
    PeeksClean([Peek(Links)]);
    PeeksClean([Peek(Stream(f)), Peek(Size(f))]);
    CleanConcat(LOGGED, [Peek(Links)]);
    CleanConcat([Peek(Stream(f)), Peek(Size(f))], LOGGED + [Peek(Links)]);
  }

  lemma LogSizeClean(f: nat)
    ensures Clean([Peek(Size(f))] + LOGGED)
  {
    LoggedClean();
    PeeksClean([Peek(Size(f))]);
    CleanConcat([Peek(Size(f))], LOGGED);
  }

  lemma RemoveClean(r: Routine)
    requires r.RemoveGenericFile?
    ensures Clean(Trace(r))
  {
    MemoryClean();
    FreedClean(r.file);
    NestedClean();
    var find, pop := SEARCHED + (FOUND + MOVED), Popped(r.file) + Freed(r.file);
    CleanConcat(FOUND, MOVED);
    CleanConcat(SEARCHED, FOUND + MOVED);
    CleanConcat(Popped(r.file), Freed(r.file));
    CleanConcat(find, pop);
    CleanConcat(SEARCHED, if r.found then find + pop else []);
  }

  lemma CacheAlgorithmClean(r: Routine)
    requires r.CacheAlgorithm?
    ensures Clean(Trace(r))
  {
    SectionsClean();
    LegalityClean(r.legal);
    MakingClean(r.making);
    var body := if r.fits then MakingTrace(r.making) else [];
    CleanConcat(COUNTED, body);
    CleanConcat(Legality(r.legal), if r.legal then [] else COUNTED + body);
  }

  lemma FindFileClean(r: Routine)
    requires r.FindFile?
    ensures Clean(Trace(r))
  {
    SectionsClean();
    var policy := if r.lru then MOVED else [];
    CleanConcat(FOUND, policy);
    CleanConcat(SEARCHED, if r.found then FOUND + policy else LOGGED);
  }

  lemma AddFileClean(r: Routine)
    requires r.AddFileToMemory?
    ensures Clean(Trace(r))
  {
    SectionsClean();
    NestedClean();
    CleanConcat(COUNTED, ADDED);
    CleanConcat(SEARCHED, if r.duplicate then [] else COUNTED + ADDED);
  }

  lemma CleanCacheClean(files: seq<nat>)
    ensures Clean(Evictions(files, Clearing) + COUNTED)
  {
    MetadataClean();
    EvictionsClean(files, Clearing);
    CleanConcat(Evictions(files, Clearing), COUNTED);
  }

  lemma WrittenClean(f: nat)
    ensures Clean(Written(f))
  {
    var uses := [Writes(Stream(f)), Writes(Size(f)), Writes(Bytes)];
    NestedDisciplined(Metadata, FileLock(f), FileLock(f), Metadata, uses);
  }

  /** The routines that are one section, or none. */
  lemma SimpleClean(r: Routine)
    requires !r.FindFile? && !r.AddFileToMemory? && !r.RemoveGenericFile? && !r.AlgCounter? && !r.SendContent?
    requires !r.CacheAlgorithm? && !r.CleanCache? && !r.WriteToFile? && !r.SendNext? && !r.LogSize?
    ensures Clean(Trace(r))
  {
    match r
    case SetFileOpen(f) => SectionDisciplined(FileLock(f), [Writes(Flag(f))]);
    case PopFile(_, _) => NestedClean();
    case IsActionLegal(legal) => LegalityClean(legal);
    case PushNode(l) => SectionDisciplined(ListLock(l), [Writes(Nodes(l))]);
    case PopElement(l, n) => WaitDisciplined(ListLock(l), Nodes(l), n, [Writes(Nodes(l))]);
    case WakeUpAllReaders(l) => SectionDisciplined(ListLock(l), []);
    case WorkerAddOrSub => SectionDisciplined(Counter, [Writes(WorkerCount)]);
    case WaitOnWorkers(n) => WaitDisciplined(Counter, WorkerCount, n, []);
    case _ => SectionsClean();
  }

  /** Every routine keeps to the order of locking and touches nothing that is not covered, whatever it
      meets. */
  lemma RoutinesAreDisciplined(r: Routine)
    ensures Clean(Trace(r))
  {
    match r
    case SendContent(f) => SentClean(f);
    case SendNext(f) => SentNextClean(f);
    case LogSize(f) => LogSizeClean(f);
    case FindFile(_, _) => FindFileClean(r);
    case AddFileToMemory(_) => AddFileClean(r);
    case RemoveGenericFile(_, _) => RemoveClean(r);
    case AlgCounter => TriggerClean();
    case CacheAlgorithm(_, _, _) => CacheAlgorithmClean(r);
    case CleanCache(files) => CleanCacheClean(files);
    case WriteToFile(f) => WrittenClean(f);
    case _ => SimpleClean(r);
  }

  // ---- threads ----

  /** What a thread holds, and what is left of the routine it is in. */
  datatype Thread = Thread(held: set<Mutex>, rest: seq<Action>)

  /** The threads of the server; there may be more of them later. */
  type State = seq<Thread>

  datatype Label = Spawn | Call(t: nat, r: Routine) | Go(t: nat)

  predicate Held(s: State, m: Mutex) {
    exists t :: 0 <= t < |s| && m in s[t].held
  }

  /** The thread asks for a mutex that some thread, perhaps itself, holds. */
  predicate Blocked(s: State, t: nat) {
    t < |s| && s[t].rest != [] && s[t].rest[0].Acquire? && Held(s, s[t].rest[0].m)
  }

  function Did(th: Thread): (r: Thread)
    requires th.rest != []
  {
    Thread(Holding(th.held, th.rest[0]), th.rest[1..])
  }

  predicate Step(s: State, l: Label, s': State) {
    match l
    case Spawn => s' == s + [Thread({}, [])]
    case Call(t, r) => t < |s| && s[t].rest == [] && s' == s[t := s[t].(rest := Trace(r))]
    case Go(t) => t < |s| && s[t].rest != [] && !Blocked(s, t) && s' == s[t := Did(s[t])]
  }

  ghost predicate Apart(s: State, i: int, j: int) {
    0 <= i < j < |s| ==> s[i].held !! s[j].held
  }

  /** No mutex has two holders, and every thread keeps to the order in what it has left to do. */
  ghost predicate Inv(s: State) {
    && (forall i, j :: Apart(s, i, j))
    && (forall t :: 0 <= t < |s| ==> Disciplined(s[t].held, s[t].rest))
  }

  lemma StepInv(s: State, l: Label, s': State)
    requires Inv(s) && Step(s, l, s')
    ensures Inv(s')
  {
    if l.Call? {
      RoutinesAreDisciplined(l.r);
    }
    forall i, j ensures Apart(s', i, j) {
      assert Apart(s, i, j);
    }
  }

  ghost predicate IsRun(states: seq<State>, labels: seq<Label>) {
    && |states| == |labels| + 1
    && states[0] == []
    && forall i :: 0 <= i < |labels| ==> Step(states[i], labels[i], states[i + 1])
  }

  lemma {:induction false} RunInv(states: seq<State>, labels: seq<Label>)
    requires IsRun(states, labels)
    ensures Inv(states[|labels|])
    decreases |labels|
  {
    if labels != [] {
      var n := |labels| - 1;
      RunInv(states[..n + 1], labels[..n]);
      StepInv(states[n], labels[n], states[n + 1]);
    }
  }

  predicate WaitsFor(s: State, t: nat, u: nat) {
    Blocked(s, t) && u < |s| && s[t].rest[0].m in s[u].held
  }

  predicate WaitsWithin(s: State, t: nat, threads: set<nat>) {
    exists u <- threads :: WaitsFor(s, t, u)
  }

  /** A set of threads each of which is blocked on a mutex held in the set: a thread that waits for
      itself, two that wait for each other, or a longer circle. */
  ghost predicate Deadlocked(s: State, threads: set<nat>) {
    threads != {} && forall t {:trigger WaitsWithin(s, t, threads)} :: t in threads ==> WaitsWithin(s, t, threads)
  }

  lemma HigherRank(s: State, t: nat, u: nat)
    requires Inv(s) && WaitsFor(s, t, u) && Blocked(s, u)
    ensures Rank(s[t].rest[0].m) < Rank(s[u].rest[0].m)
  {
    assert Disciplined(s[u].held, s[u].rest);
  }

  lemma NoneDeadlocked(s: State, threads: set<nat>)
    requires Inv(s)
    ensures !Deadlocked(s, threads)
  {
    if Deadlocked(s, threads) {
      var t :| t in threads;
      assert WaitsWithin(s, t, threads);
      var u :| u in threads && WaitsFor(s, t, u);
      assert WaitsWithin(s, u, threads);
      var v :| v in threads && WaitsFor(s, u, v);
      assert WaitsWithin(s, v, threads);
      HigherRank(s, t, u);
      HigherRank(s, u, v);
      assert false;
    }
  }

  /** In every state that any number of threads can reach, no thread asks for a mutex that it holds,
      no set of threads is deadlocked, none sleeps holding a mutex, and none is between routines
      holding one. */
  lemma DeadlockFreedom(states: seq<State>, labels: seq<Label>)
    requires IsRun(states, labels)
    ensures var s := states[|labels|];
            && (forall threads :: !Deadlocked(s, threads))
            && (forall t :: 0 <= t < |s| && (s[t].rest == [] || s[t].rest[0].Sleep?) ==> s[t].held == {})
            && (forall t :: 0 <= t < |s| && s[t].rest != [] && s[t].rest[0].Acquire? ==> s[t].rest[0].m !in s[t].held)
  {
    var s := states[|labels|];
    RunInv(states, labels);
    forall threads ensures !Deadlocked(s, threads) {
      NoneDeadlocked(s, threads);
    }
    forall t | 0 <= t < |s|
      ensures s[t].rest == [] || s[t].rest[0].Sleep? ==> s[t].held == {}
      ensures s[t].rest != [] && s[t].rest[0].Acquire? ==> s[t].rest[0].m !in s[t].held
    {
      assert Disciplined(s[t].held, s[t].rest);
    }
  }

  lemma Holder(s: State, t: nat) returns (u: nat)
    requires Inv(s) && Blocked(s, t)
    ensures WaitsFor(s, t, u) && s[u].rest != [] && !s[u].rest[0].Sleep?
  {
    u :| u < |s| && s[t].rest[0].m in s[u].held;
    assert Disciplined(s[u].held, s[u].rest);
  }

  /** Whoever is blocked, some holder of a mutex can go on at once, and what it does next is not to sleep. */
  lemma SomeHolderGoes(s: State, t: nat) returns (u: nat)
    requires Inv(s) && Blocked(s, t)
    ensures u < |s| && s[u].held != {} && s[u].rest != [] && !s[u].rest[0].Sleep? && Step(s, Go(u), s[u := Did(s[u])])
  {
    u := Holder(s, t);
    if Blocked(s, u) {
      HigherRank(s, t, u);
      var v := Holder(s, u);
      if Blocked(s, v) {
        HigherRank(s, u, v);
        assert false;
      }
      u := v;
    }
  }
}
