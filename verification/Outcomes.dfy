/** What each request does and answers, on the store seen as a map from names to files. */
module Outcomes {
  import opened Names
  import opened FileStore
  import opened Protocol
  import opened WriteLoop
  import opened Requests
  import opened Capacity
  import opened Wire

  /** The file of a name, if there is one. */
  function FileAt(files: seq<File>, name: Name): Option<File> {
    if Has(files, name) then Some(Lookup(files, name)) else None
  }

  // ---- the operations on the list, as operations on the map ----

  /** With unique names, whatever sits somewhere is what its name finds, and nothing else is found. */
  lemma FoundAt(files: seq<File>, k: nat)
    requires Unique(files) && k < |files|
    ensures FileAt(files, files[k].name) == Some(files[k])
  {
    IndexUnique(files, k, files[k].name);
  }

  lemma MovedAt(files: seq<File>, k: nat, n: Name)
    requires Unique(files) && k < |files|
    ensures FileAt(MoveToFront(files, k), n) == FileAt(files, n)
  {
    var p := MoveToFront(files, k);
    UniqueMoved(files, k);
    if Has(p, n) {
      var j := IndexOf(p, n);
      assert p[j] == files[Origin(j, k)];
      FoundAt(files, Origin(j, k));
    }
    if Has(files, n) {
      var i := IndexOf(files, n);
      var j := if i == k then 0 else if i < k then i + 1 else i;
      assert p[j] == files[i];
      FoundAt(p, j);
    }
  }

  lemma PromotedAt(files: seq<File>, policy: Policy, name: Name, n: Name)
    requires Unique(files)
    ensures FileAt(Promote(files, policy, name), n) == FileAt(files, n)
  {
    if policy == LRU && Has(files, name) { MovedAt(files, IndexOf(files, name), n); }
  }

  lemma UpdatedAt(files: seq<File>, k: nat, f: File, n: Name)
    requires Unique(files) && k < |files| && f.name == files[k].name
    ensures FileAt(files[k := f], n) == if n == f.name then Some(f) else FileAt(files, n)
  {
    var p := files[k := f];
    UniqueUpdate(files, k, f);
    FoundAt(p, k);
    if n != f.name {
      if Has(p, n) { FoundAt(files, IndexOf(p, n)); }
      if Has(files, n) { FoundAt(p, IndexOf(files, n)); }
    }
  }

  lemma RemovedAt(files: seq<File>, k: nat, n: Name)
    requires Unique(files) && k < |files|
    ensures FileAt(RemoveAt(files, k), n) == if n == files[k].name then None else FileAt(files, n)
  {
    var p := RemoveAt(files, k);
    UniqueRemoved(files, k);
    if Has(p, n) {
      var j := IndexOf(p, n);
      var i := if j < k then j else j + 1;
      assert p[j] == files[i] && Differ(files, i, k);
      FoundAt(files, i);
    }
    if Has(files, n) && n != files[k].name {
      var i := IndexOf(files, n);
      FoundAt(p, if i < k then i else i - 1);
    }
  }

  lemma PrependedAt(files: seq<File>, f: File, n: Name)
    ensures FileAt([f] + files, n) == if n == f.name then Some(f) else FileAt(files, n)
  {
    var p := [f] + files;
    assert p[1..] == files;
  }

  lemma PrefixAt(files: seq<File>, m: nat, n: Name)
    requires m <= |files|
    ensures FileAt(files[..m], n) == if IndexOf(files, n) < m then FileAt(files, n) else None
  {
    HasPrefix(files, m, n);
    if IndexOf(files, n) < m { IndexPrefix(files, m, n); }
  }

  lemma {:induction false} IndexPrefix(files: seq<File>, m: nat, n: Name)
    requires m <= |files| && IndexOf(files, n) < m
    ensures IndexOf(files[..m], n) == IndexOf(files, n)
  {
    if files[0].name != n {
      assert files[..m][1..] == files[1..][..m - 1];
      IndexPrefix(files[1..], m - 1, n);
    }
  }

  // ---- the outcome of each request ----

  /** Creating: granted iff the name is free, and then there is an empty open file of that name, and
      of the others those that eviction keeps; refused, nothing changes. */
  lemma CreateOutcome(st: Store, p: Policy, name: Name, n: Name)
    requires Unique(st.files)
    ensures var r := Handle(st, p, Open(name, O_CREATE));
            var kept := IndexOf(st.files, n) < |MakeRoom(st, 1, 0).files|;
            && r.sent == []
            && (r.status == OK <==> !Has(st.files, name)) && (r.status == NOT_OK <==> Has(st.files, name))
            && (Has(st.files, name) ==> r.err == EEXIST && r.store == st)
            && (!Has(st.files, name) ==>
                  r.err == 0
                  && FileAt(r.store.files, n) == if n == name then Some(File(name, [], true))
                                                 else if kept then FileAt(st.files, n) else None)
  {
    if !Has(st.files, name) {
      var room := MakeRoom(st, 1, 0);
      MakeRoomPrefix(st, 1, 0);
      PrependedAt(room.files, NewFile(name), n);
      PrefixAt(st.files, |room.files|, n);
    }
  }

  /** Opening: granted iff the name is resident, and then its file is open and all else as it was. */
  lemma OpenOutcome(st: Store, p: Policy, name: Name, flags: int, n: Name)
    requires Unique(st.files) && flags != O_CREATE
    ensures var r := Handle(st, p, Open(name, flags));
            && r.sent == []
            && (r.status == OK <==> Has(st.files, name)) && (r.status == NOT_OK <==> !Has(st.files, name))
            && (!Has(st.files, name) ==> r.err == ENOENT && r.store == st)
            && (Has(st.files, name) ==>
                  r.err == 0
                  && FileAt(r.store.files, n) == if n == name then Some(Lookup(st.files, name).(isOpen := true))
                                                 else FileAt(st.files, n))
  {
    if Has(st.files, name) {
      var q := Promote(st.files, p, name);
      PromoteKeeps(st.files, p, name);
      var k := IndexOf(q, name);
      UpdatedAt(q, k, q[k].(isOpen := true), n);
      PromotedAt(st.files, p, name, n);
    }
  }

  /** Reading: granted iff the name is resident and its file open; the client is sent its size and
      content. No file changes. */
  lemma ReadOutcome(st: Store, p: Policy, name: Name, n: Name)
    requires Unique(st.files)
    ensures var r := Handle(st, p, Read(name));
            && FileAt(r.store.files, n) == FileAt(st.files, n)
            && match FileAt(st.files, name)
               case None => r.status == NOT_OK && r.err == ENOENT && r.sent == [Num(NO_CONTINUE)]
               case Some(f) =>
                 if f.isOpen then
                   && r.status == OK && r.err == 0
                   && r.sent == [Num(CONTINUE), Num(CONTINUE), Num(|f.content|), Msg(f.content)]
                 else r.status == NOT_OK && r.err == EACCES && r.sent == [Num(CONTINUE), Num(NO_CONTINUE)]
  {
    PromotedAt(st.files, p, name, n);
  }

  /** Writing: granted iff the target is found, the size not refused and the target not evicted; then
      its file is longer by the block, and of the others those are left that eviction keeps. */
  lemma WriteOutcome(st: Store, p: Policy, name: Name, data: seq<byte>, n: Name)
    requires Unique(st.files)
    ensures var r := Handle(st, p, Write(name, data));
            && (r.status == OK <==> Granted(st, p, name, |data|)) && (r.status != OK ==> r.status == NOT_OK)
            && (r.status == OK ==>
                  && r.err == 0 && r.sent == [Num(CONTINUE), Num(CONTINUE), Num(CONTINUE)]
                  && var f := Lookup(st.files, name);
                     FileAt(r.store.files, name) == Some(f.(content := f.content + Written(data))))
            && (!Has(st.files, name) ==> r.err == ENONET && r.sent == [Num(NOT_OK)] && r.store == st)
            && (SelfEvicting(st, p, name, |data|) ==>
                  r.err == ENOENT && r.sent == [Num(CONTINUE), Num(CONTINUE), Num(NOT_OK)])
            && (Has(st.files, name) && CacheErrno(Looked(st, p, name), 0, |data|) == E2BIG ==>
                  r.err == E2BIG && r.sent == [Num(CONTINUE), Num(NO_CONTINUE)]
                  && FileAt(r.store.files, n) == FileAt(st.files, n))
            && (Has(st.files, name) && n != name ==>
                  var kept := IndexOf(Looked(st, p, name).files, n) < |MakeRoom(Looked(st, p, name), 0, |data|).files|;
                  FileAt(r.store.files, n) == if kept then FileAt(st.files, n) else None)
  {
    if Has(st.files, name) {
      var found := Looked(st, p, name);
      var room := MakeRoom(found, 0, |data|);
      PromoteKeeps(st.files, p, name);
      PromotedAt(st.files, p, name, n);
      MakeRoomPrefix(found, 0, |data|);
      PrefixAt(found.files, |room.files|, n);
      PrefixAt(found.files, |room.files|, name);
      UniquePart(found.files, 0, |room.files|);
      if Has(room.files, name) {
        var k := IndexOf(room.files, name);
        var f := room.files[k].(content := room.files[k].content + Written(data));
        UpdatedAt(room.files, k, f, n);
        UpdatedAt(room.files, k, f, name);
        PromotedAt(st.files, p, name, name);
      }
    }
  }

  /** Removing: granted iff the name is resident, and then it is gone and all else as it was. */
  lemma RemoveOutcome(st: Store, p: Policy, name: Name, n: Name)
    requires Unique(st.files)
    ensures var r := Handle(st, p, Remove(name));
            && r.sent == []
            && (r.status == OK <==> Has(st.files, name)) && (r.status == NOT_OK <==> !Has(st.files, name))
            && (Has(st.files, name) ==> r.err == 0)
            && (!Has(st.files, name) ==> r.err == ENOENT && r.store == st)
            && FileAt(r.store.files, n) == if n == name then None else FileAt(st.files, n)
  {
    if Has(st.files, name) {
      RemoveIs(st, p, name);
      RemovedAt(st.files, IndexOf(st.files, name), n);
    }
  }

  /** Reading several: granted iff there is a file; nothing changes. What is sent is the subject of
      ReadNDelivers. */
  lemma ReadNOutcome(st: Store, p: Policy, n: int)
    ensures var r := Handle(st, p, ReadN(n));
            && r.store == st
            && (r.status == OK <==> st.files != []) && (r.status == NOT_OK <==> st.files == [])
            && (st.files != [] ==> r.err == 0)
            && (st.files == [] ==> r.err == ENODATA && r.sent == [Num(NO_CONTINUE)])
  {
  }

  /** Closing the connection is always granted and does nothing to the store. */
  lemma CloseOutcome(st: Store, p: Policy)
    ensures var r := Handle(st, p, Close);
            r.status == OK && r.err == 0 && r.sent == [] && r.store == st
  {
  }
}
