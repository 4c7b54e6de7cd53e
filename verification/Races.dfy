/** Which uses of the shared fields can meet. No two covered uses of a field ever do, one of them
    writing. Four routines also read fields without a mutex, and each of them can meet a writer. */
module Races {
  import opened Locks

  predicate Uses(a: Action) {
    a.Touch? || a.Peek?
  }

  predicate MayWrite(a: Action) {
    a.Touch? && a.writes
  }

  predicate AboutTo(s: State, t: nat) {
    t < |s| && s[t].rest != [] && Uses(s[t].rest[0])
  }

  /** Two threads are about to use one field, and one of them may write it. */
  predicate Race(s: State, t: nat, u: nat) {
    && t != u && AboutTo(s, t) && AboutTo(s, u)
    && s[t].rest[0].field == s[u].rest[0].field && (MayWrite(s[t].rest[0]) || MayWrite(s[u].rest[0]))
  }

  // ---- covered uses ----

  /** Two covers of one field, one of them for writing, have a mutex in common. */
  lemma CoversMeet(a: set<Mutex>, b: set<Mutex>, field: Field, writes: bool)
    requires Covered(a, field, true) && Covered(b, field, writes)
    ensures !(a !! b)
  {
  }

  /** In every reachable state a race is between a writer and a reader that takes no mutex. */
  lemma RacesArePeeks(states: seq<State>, labels: seq<Label>, t: nat, u: nat)
    requires IsRun(states, labels) && Race(states[|labels|], t, u)
    ensures var a, b := states[|labels|][t].rest[0], states[|labels|][u].rest[0];
            (a.Peek? && MayWrite(b)) || (MayWrite(a) && b.Peek?)
  {
    var s := states[|labels|];
    RunInv(states, labels);
    assert Disciplined(s[t].held, s[t].rest) && Disciplined(s[u].held, s[u].rest);
    var a, b := s[t].rest[0], s[u].rest[0];
    if a.Touch? && b.Touch? {
      if t < u { assert Apart(s, t, u); } else { assert Apart(s, u, t); }
      if a.writes {
        CoversMeet(s[t].held, s[u].held, a.field, b.writes);
      } else {
        CoversMeet(s[u].held, s[t].held, a.field, a.writes);
      }
      assert false;
    }
  }

  // ---- the routines that peek ----

  predicate HasPeek(actions: seq<Action>) {
    exists a <- actions :: a.Peek?
  }

  lemma PeekConcat(a: seq<Action>, b: seq<Action>)
    ensures HasPeek(a + b) <==> HasPeek(a) || HasPeek(b)
  {
    if HasPeek(a) || HasPeek(b) {
      var x :| (x in a || x in b) && x.Peek?;
      assert x in a + b;
    }
  }

  /** Sending a file, logging its size, and evicting for bytes as soon as one file goes. */
  predicate Peeks(r: Routine) {
    || r.SendContent?
    || r.SendNext?
    || r.LogSize?
    || (r.CacheAlgorithm? && !r.legal && r.fits && r.making.bytesGuard && r.making.forBytes != [])
  }

  lemma EvictionPeeks(f: nat, cause: Cause)
    ensures HasPeek(Eviction(f, cause)) <==> cause == ForBytes
  {
    var peek := if cause == ForBytes then [Peek(Size(f))] else [];
    assert cause == ForBytes ==> peek[0].Peek?;
    PeekConcat(peek, Freed(f));
    PeekConcat(Popped(f), peek + Freed(f));
    PeekConcat(if cause == ForCount then [] else COUNTED, Popped(f) + (peek + Freed(f)));
  }

  lemma {:induction false} EvictionsPeek(files: seq<nat>, cause: Cause)
    ensures HasPeek(Evictions(files, cause)) <==> files != [] && cause == ForBytes
  {
    if files != [] {
      EvictionPeeks(files[0], cause);
      EvictionsPeek(files[1..], cause);
      PeekConcat(Eviction(files[0], cause), Evictions(files[1..], cause));
    }
  }

  lemma {:induction false} EmptyPopsPeekNot(n: nat)
    ensures !HasPeek(EmptyPops(n))
  {
    if n > 0 {
      EmptyPopsPeekNot(n - 1);
      PeekConcat(POPPED_NONE, EmptyPops(n - 1));
    }
  }

  lemma MakingPeeks(m: Making)
    ensures HasPeek(MakingTrace(m)) <==> m.bytesGuard && m.forBytes != []
  {
    EvictionsPeek(m.forCount, ForCount);
    EvictionsPeek(m.forBytes, ForBytes);
    EmptyPopsPeekNot(m.emptyPops);
    PeekConcat(Evictions(m.forCount, ForCount), EmptyPops(m.emptyPops));
    PeekConcat(Trigger(), Evictions(m.forCount, ForCount) + EmptyPops(m.emptyPops));
    var last := if m.emptied then COUNTED else [];
    PeekConcat(Evictions(m.forBytes, ForBytes), last);
    PeekConcat(if m.filesGuard then [] else Trigger(), Evictions(m.forBytes, ForBytes) + last);
    PeekConcat(WEIGHED, BytesPhase(m));
    PeekConcat(FilesPhase(m), WEIGHED + BytesPhase(m));
  }

  lemma {:induction false} SleepsPeekNot(m: Mutex, field: Field, n: nat)
    ensures !HasPeek(Sleeps(m, field, n))
  {
    if n > 0 {
      SleepsPeekNot(m, field, n - 1);
      PeekConcat([Reads(field), Release(m), Sleep, Acquire(m)], Sleeps(m, field, n - 1));
    }
  }

  lemma WaitingPeeksNot(m: Mutex, field: Field, n: nat, uses: seq<Action>)
    requires !HasPeek(uses)
    ensures !HasPeek(Waiting(m, field, n, uses))
  {
    SleepsPeekNot(m, field, n);
    PeekConcat(uses, [Release(m)]);
    PeekConcat(Sleeps(m, field, n), uses + [Release(m)]);
    PeekConcat([Acquire(m)], Sleeps(m, field, n) + (uses + [Release(m)]));
  }

  lemma SendersPeek(f: nat)
    ensures HasPeek(Sent(f)) && HasPeek(SentNext(f)) && HasPeek([Peek(Size(f))] + LOGGED)
  {
    assert Sent(f)[0].Peek? && SentNext(f)[0].Peek? && ([Peek(Size(f))] + LOGGED)[0].Peek?;
  }

  lemma CachePeeks(r: Routine)
    requires r.CacheAlgorithm?
    ensures HasPeek(Trace(r)) <==> Peeks(r)
  {
    MakingPeeks(r.making);
    var body := if r.fits then MakingTrace(r.making) else [];
    PeekConcat(COUNTED, body);
    PeekConcat(Legality(r.legal), if r.legal then [] else COUNTED + body);
  }

  /** Searching, adding and removing, in sections one after another. */
  lemma SearchesPeekNot(r: Routine)
    requires r.FindFile? || r.AddFileToMemory? || r.RemoveGenericFile? || r.AlgCounter?
    ensures !HasPeek(Trace(r))
  {
  }

  lemma WaitsPeekNot(r: Routine)
    requires r.PopElement? || r.WaitOnWorkers?
    ensures !HasPeek(Trace(r))
  {
    match r
    case PopElement(l, n) => WaitingPeeksNot(ListLock(l), Nodes(l), n, [Writes(Nodes(l))]);
    case WaitOnWorkers(n) => WaitingPeeksNot(Counter, WorkerCount, n, []);
  }

  lemma ClearingPeeksNot(files: seq<nat>)
    ensures !HasPeek(Evictions(files, Clearing) + COUNTED)
  {
    EvictionsPeek(files, Clearing);
    PeekConcat(Evictions(files, Clearing), COUNTED);
  }

  lemma PeeksIff(r: Routine)
    ensures HasPeek(Trace(r)) <==> Peeks(r)
  {
    if r.FindFile? || r.AddFileToMemory? || r.RemoveGenericFile? || r.AlgCounter? {
      SearchesPeekNot(r);
    } else if r.PopElement? || r.WaitOnWorkers? {
      WaitsPeekNot(r);
    } else {
      match r
      case SendContent(f) => SendersPeek(f);
      case SendNext(f) => SendersPeek(f);
      case LogSize(f) => SendersPeek(f);
      case CacheAlgorithm(_, _, _) => CachePeeks(r);
      case CleanCache(files) => ClearingPeeksNot(files);
      case _ =>
    }
  }

  // ---- what each routine writes ----

  /** Popping a file, and freeing it. */
  predicate ByEviction(f: Field, file: nat) {
    f == Links || f == FileCount || f == Bytes || f == Stream(file)
  }

  predicate ByEvictions(f: Field, files: seq<nat>) {
    exists i :: 0 <= i < |files| && ByEviction(f, files[i])
  }

  predicate ByTrigger(f: Field) {
    f == TriggerCount || f == LogFile
  }

  predicate ByMaking(f: Field, m: Making) {
    || ((m.filesGuard || m.bytesGuard) && ByTrigger(f))
    || (m.filesGuard && ByEvictions(f, m.forCount))
    || (m.bytesGuard && ByEvictions(f, m.forBytes))
  }

  predicate Changes(r: Routine, f: Field) {
    match r
    case WriteLog => f == LogFile
    case SetFileOpen(file) => f == Flag(file)
    case SendContent(_) => f == LogFile
    case SendNext(_) => f == LogFile
    case LogSize(_) => f == LogFile
    case PolicyRoutine(lru) => lru && f == Links
    case FindFile(found, lru) => if found then lru && f == Links else f == LogFile
    case AddFileToMemory(duplicate) => !duplicate && (f == Links || f == FileCount)
    case FreeFile(file) => f == Stream(file)
    case PopFile(found, _) => found && (f == Links || f == FileCount || f == Bytes)
    case RemoveGenericFile(found, file) => found && ByEviction(f, file)
    case IsActionLegal(legal) => legal && f == Marks
    case AlgCounter => ByTrigger(f)
    case CacheAlgorithm(legal, fits, making) => if legal then f == Marks else fits && ByMaking(f, making)
    case CleanCache(files) => ByEvictions(f, files)
    case WriteToFile(file) => f == Stream(file) || f == Size(file) || f == Bytes
    case PushNode(list) => f == Nodes(list)
    case PopElement(list, _) => f == Nodes(list)
    case WorkerAddOrSub => f == WorkerCount
    case _ => false
  }

  predicate HasWrite(actions: seq<Action>, f: Field) {
    Writes(f) in actions
  }

  lemma WriteConcat(a: seq<Action>, b: seq<Action>, f: Field)
    ensures HasWrite(a + b, f) <==> HasWrite(a, f) || HasWrite(b, f)
  {
  }

  lemma EvictionWrites(file: nat, cause: Cause, f: Field)
    ensures HasWrite(Eviction(file, cause), f) <==> ByEviction(f, file)
  {
    var peek := if cause == ForBytes then [Peek(Size(file))] else [];
    WriteConcat(peek, Freed(file), f);
    WriteConcat(Popped(file), peek + Freed(file), f);
    WriteConcat(if cause == ForCount then [] else COUNTED, Popped(file) + (peek + Freed(file)), f);
    PoppedWrites(file, f);
    assert Freed(file)[1] == Writes(Stream(file));
  }

  lemma PoppedWrites(file: nat, f: Field)
    ensures HasWrite(Popped(file), f) <==> f == Links || f == FileCount || f == Bytes
  {
    PoppedAt(file);
    assert Popped(file)[5] == Writes(Bytes);
  }

  lemma {:induction false} EvictionsWrite(files: seq<nat>, cause: Cause, f: Field)
    ensures HasWrite(Evictions(files, cause), f) <==> ByEvictions(f, files)
  {
    if files != [] {
      EvictionWrites(files[0], cause, f);
      EvictionsWrite(files[1..], cause, f);
      WriteConcat(Eviction(files[0], cause), Evictions(files[1..], cause), f);
      if ByEvictions(f, files[1..]) {
        var i :| 0 <= i < |files[1..]| && ByEviction(f, files[1..][i]);
        assert ByEviction(f, files[i + 1]);
      }
      if ByEvictions(f, files) && !ByEviction(f, files[0]) {
        var i :| 0 <= i < |files| && ByEviction(f, files[i]);
        assert ByEviction(f, files[1..][i - 1]);
      }
    }
  }

  lemma {:induction false} EmptyPopsWriteNot(n: nat, f: Field)
    ensures !HasWrite(EmptyPops(n), f)
  {
    if n > 0 {
      EmptyPopsWriteNot(n - 1, f);
      WriteConcat(POPPED_NONE, EmptyPops(n - 1), f);
    }
  }

  lemma TriggerWrites(f: Field)
    ensures HasWrite(Trigger(), f) <==> ByTrigger(f)
  {
    WriteConcat(Section(Metadata, [Writes(TriggerCount)]), LOGGED, f);
    assert Section(Metadata, [Writes(TriggerCount)])[1] == Writes(TriggerCount) && LOGGED[1] == Writes(LogFile);
  }

  lemma MakingWrites(m: Making, f: Field)
    ensures HasWrite(MakingTrace(m), f) <==> ByMaking(f, m)
  {
    TriggerWrites(f);
    EvictionsWrite(m.forCount, ForCount, f);
    EvictionsWrite(m.forBytes, ForBytes, f);
    EmptyPopsWriteNot(m.emptyPops, f);
    WriteConcat(Evictions(m.forCount, ForCount), EmptyPops(m.emptyPops), f);
    WriteConcat(Trigger(), Evictions(m.forCount, ForCount) + EmptyPops(m.emptyPops), f);
    var last := if m.emptied then COUNTED else [];
    WriteConcat(Evictions(m.forBytes, ForBytes), last, f);
    WriteConcat(if m.filesGuard then [] else Trigger(), Evictions(m.forBytes, ForBytes) + last, f);
    WriteConcat(WEIGHED, BytesPhase(m), f);
    WriteConcat(FilesPhase(m), WEIGHED + BytesPhase(m), f);
  }

  lemma CacheWrites(r: Routine, f: Field)
    requires r.CacheAlgorithm?
    ensures HasWrite(Trace(r), f) <==> Changes(r, f)
  {
    MakingWrites(r.making, f);
    LegalityWrites(r.legal, f);
    var body := if r.fits then MakingTrace(r.making) else [];
    WriteConcat(COUNTED, body, f);
    WriteConcat(Legality(r.legal), if r.legal then [] else COUNTED + body, f);
  }

  lemma LegalityWrites(legal: bool, f: Field)
    ensures HasWrite(Legality(legal), f) <==> legal && f == Marks
  {
    if legal { assert Legality(legal)[3] == Writes(Marks); }
  }

  lemma {:induction false} SleepsWriteNot(m: Mutex, field: Field, n: nat, f: Field)
    ensures !HasWrite(Sleeps(m, field, n), f)
  {
    if n > 0 {
      SleepsWriteNot(m, field, n - 1, f);
      WriteConcat([Reads(field), Release(m), Sleep, Acquire(m)], Sleeps(m, field, n - 1), f);
    }
  }

  lemma WaitingWrites(m: Mutex, field: Field, n: nat, uses: seq<Action>, f: Field)
    ensures HasWrite(Waiting(m, field, n, uses), f) <==> HasWrite(uses, f)
  {
    SleepsWriteNot(m, field, n, f);
    WriteConcat(uses, [Release(m)], f);
    WriteConcat(Sleeps(m, field, n), uses + [Release(m)], f);
    WriteConcat([Acquire(m)], Sleeps(m, field, n) + (uses + [Release(m)]), f);
  }

  lemma SectionWrites(m: Mutex, uses: seq<Action>, f: Field)
    ensures HasWrite(Section(m, uses), f) <==> HasWrite(uses, f)
  {
    WriteConcat(uses, [Release(m)], f);
    WriteConcat([Acquire(m)], uses + [Release(m)], f);
  }

  lemma FindWrites(r: Routine, f: Field)
    requires r.FindFile?
    ensures HasWrite(Trace(r), f) <==> Changes(r, f)
  {
    SectionWrites(Memory, [Writes(Links)], f);
    SectionWrites(Memory, [Reads(Links)], f);
    SectionWrites(Memory, [Reads(Links), Reads(FileCount)], f);
    SectionWrites(Log, [Writes(LogFile)], f);
    var policy := if r.lru then MOVED else [];
    WriteConcat(FOUND, policy, f);
    WriteConcat(SEARCHED, if r.found then FOUND + policy else LOGGED, f);
  }

  lemma AddWrites(r: Routine, f: Field)
    requires r.AddFileToMemory?
    ensures HasWrite(Trace(r), f) <==> Changes(r, f)
  {
    assert ADDED[2] == Writes(Links) && ADDED[3] == Writes(FileCount);
    WriteConcat(COUNTED, ADDED, f);
    WriteConcat(SEARCHED, if r.duplicate then [] else COUNTED + ADDED, f);
  }

  lemma PolicyWrites(r: Routine, f: Field)
    requires r.PolicyRoutine?
    ensures HasWrite(Trace(r), f) <==> Changes(r, f)
  {
    assert MOVED[1] == Writes(Links);
  }

  lemma RemovalWrites(r: Routine, f: Field)
    requires r.RemoveGenericFile?
    ensures HasWrite(Trace(r), f) <==> Changes(r, f)
  {
    assert MOVED[1] == Writes(Links);
    var find, pop := SEARCHED + (FOUND + MOVED), Popped(r.file) + Freed(r.file);
    PoppedWrites(r.file, f);
    SectionWrites(FileLock(r.file), [Writes(Stream(r.file))], f);
    WriteConcat(FOUND, MOVED, f);
    WriteConcat(SEARCHED, FOUND + MOVED, f);
    WriteConcat(Popped(r.file), Freed(r.file), f);
    WriteConcat(find, pop, f);
    WriteConcat(SEARCHED, if r.found then find + pop else [], f);
  }

  lemma SendersWrite(r: Routine, f: Field)
    requires r.SendContent? || r.SendNext? || r.LogSize? || r.WriteLog?
    ensures HasWrite(Trace(r), f) <==> f == LogFile
  {
    SectionWrites(Log, [Writes(LogFile)], f);
    if !r.WriteLog? { WriteConcat([Peek(Size(r.file))], LOGGED, f); }
  }

  /** The routines that are one section. */
  lemma SectionsWrite(r: Routine, f: Field)
    requires r.SetFileOpen? || r.FreeFile? || r.PushNode? || r.WakeUpAllReaders? || r.WorkerAddOrSub?
    ensures HasWrite(Trace(r), f) <==> Changes(r, f)
  {
    match r
    case SetFileOpen(file) => SectionWrites(FileLock(file), [Writes(Flag(file))], f);
    case FreeFile(file) => SectionWrites(FileLock(file), [Writes(Stream(file))], f);
    case PushNode(l) => SectionWrites(ListLock(l), [Writes(Nodes(l))], f);
    case WakeUpAllReaders(l) => SectionWrites(ListLock(l), [], f);
    case WorkerAddOrSub => SectionWrites(Counter, [Writes(WorkerCount)], f);
  }

  lemma ClearingWrites(files: seq<nat>, f: Field)
    ensures HasWrite(Evictions(files, Clearing) + COUNTED, f) <==> ByEvictions(f, files)
  {
    EvictionsWrite(files, Clearing, f);
    WriteConcat(Evictions(files, Clearing), COUNTED, f);
  }

  /** A routine writes these fields and no others. */
  lemma WritesIff(r: Routine, f: Field)
    ensures HasWrite(Trace(r), f) <==> Changes(r, f)
  {
    match r
    case FindFile(_, _) => FindWrites(r, f);
    case PolicyRoutine(_) => PolicyWrites(r, f);
    case AddFileToMemory(_) => AddWrites(r, f);
    case PopFile(_, file) => PoppedWrites(file, f);
    case RemoveGenericFile(_, _) => RemovalWrites(r, f);
    case CacheAlgorithm(_, _, _) => CacheWrites(r, f);
    case IsActionLegal(legal) => LegalityWrites(legal, f);
    case AlgCounter => TriggerWrites(f);
    case CleanCache(files) => ClearingWrites(files, f);
    case WriteToFile(file) => WrittenAt(file);
    case SendContent(_) => SendersWrite(r, f);
    case SendNext(_) => SendersWrite(r, f);
    case LogSize(_) => SendersWrite(r, f);
    case WriteLog => SendersWrite(r, f);
    case PopElement(l, n) => WaitingWrites(ListLock(l), Nodes(l), n, [Writes(Nodes(l))], f);
    case WaitOnWorkers(n) => WaitingWrites(Counter, WorkerCount, n, [], f);
    case GetActualFiles =>
    case GetHead =>
    case InMem =>
    case _ => SectionsWrite(r, f);
  }

  // ---- runs without them ----

  lemma {:induction false} NoPeekIsLeft(states: seq<State>, labels: seq<Label>, t: nat)
    requires IsRun(states, labels) && t < |states[|labels|]|
    requires forall l <- labels :: l.Call? ==> !Peeks(l.r)
    ensures !HasPeek(states[|labels|][t].rest)
    decreases |labels|
  {
    if labels != [] {
      var n := |labels| - 1;
      var before, l := states[n], labels[n];
      assert Step(before, l, states[n + 1]) && l in labels;
      if t < |before| { NoPeekIsLeft(states[..n + 1], labels[..n], t); }
      if l.Call? { PeeksIff(l.r); }
    }
  }

  /** Whatever the threads do, as long as they call none of the routines that peek, no two are ever
      about to use one field with one of them writing. */
  lemma RaceFreedom(states: seq<State>, labels: seq<Label>, t: nat, u: nat)
    requires IsRun(states, labels) && forall l <- labels :: l.Call? ==> !Peeks(l.r)
    ensures !Race(states[|labels|], t, u)
  {
    var s := states[|labels|];
    if Race(s, t, u) {
      RacesArePeeks(states, labels, t, u);
      var v := if s[t].rest[0].Peek? then t else u;
      assert s[v].rest[0] in s[v].rest;
      NoPeekIsLeft(states, labels, v);
      assert false;
    }
  }

  // ---- and each of them can race ----

  /** The others hold nothing. */
  predicate Alone(s: State, t: nat) {
    t < |s| && forall u :: 0 <= u < |s| && u != t ==> s[u].held == {}
  }

  /** A thread can do the next `n` of its actions while the others hold nothing. */
  lemma {:induction false} RunsOn(states: seq<State>, labels: seq<Label>, t: nat, n: nat)
    returns (states': seq<State>, labels': seq<Label>)
    requires IsRun(states, labels) && Alone(states[|labels|], t) && n <= |states[|labels|][t].rest|
    ensures IsRun(states', labels') && labels <= labels'
    ensures var s, s' := states[|labels|], states'[|labels'|];
            && Alone(s', t) && |s'| == |s| && s'[t].rest == s[t].rest[n..]
            && forall u :: 0 <= u < |s| && u != t ==> s'[u] == s[u]
    decreases n
  {
    states', labels' := states, labels;
    if n > 0 {
      var s := states[|labels|];
      RunInv(states, labels);
      assert Disciplined(s[t].held, s[t].rest);
      assert !Blocked(s, t);
      var s1 := s[t := Did(s[t])];
      states', labels' := RunsOn(states + [s1], labels + [Go(t)], t, n - 1);
    }
  }

  /** A call that writes the field, and the place of that in its trace. */
  function Writer(f: Field): (Routine, nat) {
    match f
    case Links => (PopFile(true, 0), 2)
    case FileCount => (PopFile(true, 0), 3)
    case Bytes => (WriteToFile(0), 4)
    case Marks => (IsActionLegal(true), 3)
    case TriggerCount => (AlgCounter, 1)
    case Flag(file) => (SetFileOpen(file), 1)
    case Size(file) => (WriteToFile(file), 3)
    case Stream(file) => (WriteToFile(file), 2)
    case Nodes(list) => (PushNode(list), 1)
    case WorkerCount => (WorkerAddOrSub, 1)
    case LogFile => (WriteLog, 1)
  }

  lemma SectionAt(m: Mutex, uses: seq<Action>, k: nat)
    requires k < |uses|
    ensures 1 + k < |Section(m, uses)| && Section(m, uses)[1 + k] == uses[k]
  {
  }

  lemma WrittenAt(f: nat)
    ensures |Written(f)| > 4
    ensures Written(f)[2] == Writes(Stream(f)) && Written(f)[3] == Writes(Size(f)) && Written(f)[4] == Writes(Bytes)
  {
  }

  lemma PoppedAt(f: nat)
    ensures |Popped(f)| > 3 && Popped(f)[2] == Writes(Links) && Popped(f)[3] == Writes(FileCount)
  {
  }

  lemma NestedWriter(f: Field)
    requires f.Links? || f.FileCount? || f.Bytes? || f.Size? || f.Stream?
    ensures var (w, j) := Writer(f); j < |Trace(w)| && Trace(w)[j] == Writes(f)
  {
    match f
    case Links => PoppedAt(0);
    case FileCount => PoppedAt(0);
    case Bytes => WrittenAt(0);
    case Size(file) => WrittenAt(file);
    case Stream(file) => WrittenAt(file);
  }

  lemma SectionWriter(f: Field)
    requires !f.Links? && !f.FileCount? && !f.Bytes? && !f.Size? && !f.Stream?
    ensures var (w, j) := Writer(f); j < |Trace(w)| && Trace(w)[j] == Writes(f)
  {
    if f.Marks? {
      SectionAt(Metadata, [Reads(Bytes), Reads(FileCount), Writes(Marks)], 2);
    } else if f.TriggerCount? {
      SectionAt(Metadata, [Writes(TriggerCount)], 0);
    } else {
      forall m ensures Section(m, [Writes(f)])[1] == Writes(f) {
        SectionAt(m, [Writes(f)], 0);
      }
    }
  }

  lemma WriterWrites(f: Field)
    ensures var (w, j) := Writer(f); j < |Trace(w)| && Trace(w)[j] == Writes(f)
  {
    if f.Links? || f.FileCount? || f.Bytes? || f.Size? || f.Stream? {
      NestedWriter(f);
    } else {
      SectionWriter(f);
    }
  }

  /** Two threads, the first of which has called `r`. */
  lemma Called(r: Routine) returns (states: seq<State>, labels: seq<Label>)
    ensures IsRun(states, labels) && labels == [Spawn, Spawn, Call(0, r)]
    ensures states[|labels|] == [Thread({}, Trace(r)), Thread({}, [])]
  {
    var two := [Thread({}, []), Thread({}, [])];
    states, labels := [[], [two[0]], two, [Thread({}, Trace(r)), two[1]]], [Spawn, Spawn, Call(0, r)];
  }

  /** The first thread goes on to its peek, and the second calls a routine and goes on to its write. */
  lemma PeekMeetsWrite(before: seq<State>, calls: seq<Label>, i: nat, w: Routine, j: nat)
    returns (states: seq<State>, labels: seq<Label>)
    requires IsRun(before, calls) && |before[|calls|]| == 2 && before[|calls|][1] == Thread({}, [])
    requires i < |before[|calls|][0].rest| && before[|calls|][0].rest[i].Peek?
    requires j < |Trace(w)| && Trace(w)[j] == Writes(before[|calls|][0].rest[i].field)
    ensures IsRun(states, labels) && calls <= labels && Race(states[|labels|], 0, 1)
  {
    states, labels := RunsOn(before, calls, 0, i);
    var s := states[|labels|];
    RunInv(states, labels);
    assert Disciplined(s[0].held, s[0].rest) && s[0].held == {};
    states, labels := states + [s[1 := s[1].(rest := Trace(w))]], labels + [Call(1, w)];
    states, labels := RunsOn(states, labels, 1, j);
  }

  /** Every routine that peeks does race with another in some run of two threads. */
  lemma PeeksRace(r: Routine) returns (states: seq<State>, labels: seq<Label>)
    requires Peeks(r)
    ensures IsRun(states, labels) && Call(0, r) in labels && Race(states[|labels|], 0, 1)
  {
    PeeksIff(r);
    states, labels := Called(r);
    var calls, actions := labels, Trace(r);
    var i :| 0 <= i < |actions| && actions[i].Peek?;
    var (w, j) := Writer(actions[i].field);
    WriterWrites(actions[i].field);
    states, labels := PeekMeetsWrite(states, labels, i, w, j);
    assert calls[2] == Call(0, r);
  }
}
