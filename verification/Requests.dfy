/** What a worker does with one request, as a function of the store: the new store, what it sends
    on the client's connection itself, and the error and status that the client thread sends after. */
module Requests {
  import opened CInt
  import opened Names
  import opened FileStore
  import opened Protocol

  datatype Request =
    | Open(name: Name, flags: int)
    | Read(name: Name)
    | Write(name: Name, data: seq<byte>)
    | Remove(name: Name)
    | ReadN(n: int)
    | Close

  datatype Reply = Reply(store: Store, sent: seq<Token>, err: nat, status: nat)

  function Refused(st: Store, sent: seq<Token>, err: nat): Reply {
    Reply(st, sent, err, NOT_OK)
  }

  function Done(st: Store, sent: seq<Token>): Reply {
    Reply(st, sent, 0, OK)
  }

  function NewFile(name: Name): File {
    File(name, [], true)
  }

  /** A lookup under the policy. */
  function Looked(st: Store, policy: Policy, name: Name): Store {
    st.(files := Promote(st.files, policy, name))
  }

  /** Creation goes ahead whatever the cache algorithm reports. */
  function Created(st: Store, name: Name): Store {
    var room := MakeRoom(st, 1, 0);
    room.(files := [NewFile(name)] + room.files)
  }

  function OpenReply(st: Store, policy: Policy, name: Name, flags: int): Reply {
    if flags == O_CREATE then
      if Has(st.files, name) then Refused(st, [], EEXIST) else Done(Created(st, name), [])
    else if !Has(st.files, name) then Refused(st, [], ENOENT)
    else
      PromotedHas(st.files, policy, name);
      Done(st.(files := SetOpen(Promote(st.files, policy, name), name)), [])
  }

  function ReadReply(st: Store, policy: Policy, name: Name): Reply {
    if !Has(st.files, name) then Refused(st, [Num(NO_CONTINUE)], ENOENT)
    else
      var f := Lookup(st.files, name);
      if f.isOpen then
        Done(Looked(st, policy, name), [Num(CONTINUE), Num(CONTINUE), Num(|f.content|), Msg(f.content)])
      else
        Refused(Looked(st, policy, name), [Num(CONTINUE), Num(NO_CONTINUE)], EACCES)
  }

  /** The target is looked up before room is made, under the policy, and again afterwards,
      without it: it may have been evicted. A missing target is reported as ENONET. */
  function WriteReply(st: Store, policy: Policy, name: Name, data: seq<byte>): Reply {
    if !Has(st.files, name) then Refused(st, [Num(NOT_OK)], ENONET)
    else
      var found := Looked(st, policy, name);
      var room := MakeRoom(found, 0, |data|);
      if CacheErrno(found, 0, |data|) == E2BIG then
        Refused(room, [Num(CONTINUE), Num(NO_CONTINUE)], E2BIG)
      else if !Has(room.files, name) then
        Refused(room, [Num(CONTINUE), Num(CONTINUE), Num(NOT_OK)], ENOENT)
      else
        Done(Appended(room, name, data), [Num(CONTINUE), Num(CONTINUE), Num(CONTINUE)])
  }

  /** The target is found, the size is not refused, and the target outlives the eviction. */
  predicate Granted(st: Store, policy: Policy, name: Name, size: nat) {
    var found := Looked(st, policy, name);
    Has(st.files, name) && CacheErrno(found, 0, size) != E2BIG && Has(MakeRoom(found, 0, size).files, name)
  }

  /** The size is not refused, and the eviction takes the target. */
  predicate SelfEvicting(st: Store, policy: Policy, name: Name, size: nat) {
    var found := Looked(st, policy, name);
    Has(st.files, name) && CacheErrno(found, 0, size) != E2BIG && !Has(MakeRoom(found, 0, size).files, name)
  }

  /** What goes over the connection while a write is handled, in order: the worker takes in the size
      only after its first go-ahead, and the content only after the second. */
  function WriteExchange(st: Store, policy: Policy, name: Name, data: seq<byte>): seq<Io> {
    var goAhead, size, content := Out(Num(CONTINUE)), In(Num(|data|)), In(Msg(data));
    if !Has(st.files, name) then [Out(Num(NOT_OK))]
    else if CacheErrno(Looked(st, policy, name), 0, |data|) == E2BIG then [goAhead, size, Out(Num(NO_CONTINUE))]
    else if SelfEvicting(st, policy, name, |data|) then [goAhead, size, goAhead, content, Out(Num(NOT_OK))]
    else [goAhead, size, goAhead, content, goAhead]
  }

  function RemoveReply(st: Store, policy: Policy, name: Name): Reply {
    if !Has(st.files, name) then Refused(st, [], ENOENT)
    else
      var files := Promote(Promote(st.files, policy, name), LRU, name);
      Done(st.(files := if files == [] then [] else files[1..]), [])
  }

  /** How many files READN delivers; the comparison with the store's size is unsigned. */
  function ReadCount(n: int, resident: nat): (k: nat)
    ensures k <= resident
    ensures -TWO_31 <= n < TWO_31 && resident < TWO_31 ==> k == if n <= 0 || n > resident then resident else n
  {
    if n == 0 || U32(n) > resident then resident else U32(n)
  }

  function SentFiles(files: seq<File>): seq<Token> {
    if files == [] then []
    else
      var f := files[|files| - 1];
      SentFiles(files[..|files| - 1]) + [Msg(f.content), Num(|f.content|)]
  }

  function ReadNReply(st: Store, n: int): Reply {
    if st.files == [] then Refused(st, [Num(NO_CONTINUE)], ENODATA)
    else
      var k := ReadCount(n, |st.files|);
      Done(st, [Num(k), Num(CONTINUE)] + SentFiles(st.files[..k]))
  }

  function Handle(st: Store, policy: Policy, req: Request): Reply {
    match req
    case Open(name, flags) => OpenReply(st, policy, name, flags)
    case Read(name) => ReadReply(st, policy, name)
    case Write(name, data) => WriteReply(st, policy, name, data)
    case Remove(name) => RemoveReply(st, policy, name)
    case ReadN(n) => ReadNReply(st, n)
    case Close => Done(st, [])
  }

  /** How much of the size and the content the worker takes in. */
  function WriteConsumes(st: Store, policy: Policy, name: Name, data: seq<byte>): (n: nat)
    ensures n <= 2
  {
    if !Has(st.files, name) then 0
    else if CacheErrno(Looked(st, policy, name), 0, |data|) == E2BIG then 1
    else 2
  }

  /** Of that, what goes out is what the reply says, and what comes in is the size and the content:
      neither for a missing target, and the size alone for one refused. */
  lemma WriteUnits(st: Store, policy: Policy, name: Name, data: seq<byte>)
    ensures var ios := WriteExchange(st, policy, name, data);
            && SentIn(ios) == WriteReply(st, policy, name, data).sent
            && ReceivedIn(ios) == [Num(|data|), Msg(data)][..WriteConsumes(st, policy, name, data)]
  {
    var ios := WriteExchange(st, policy, name, data);
    if |ios| == 1 {
      OneUnit(ios[0]);
    } else if |ios| == 3 {
      ThreeUnits(ios[0], ios[1], ios[2]);
    } else {
      FiveUnits(ios[0], ios[1], ios[2], ios[3], ios[4]);
    }
  }

  lemma {:induction false} FrontUnit(io: Io, rest: seq<Io>)
    ensures SentIn([io] + rest) == (if io.Out? then [io.token] else []) + SentIn(rest)
    ensures ReceivedIn([io] + rest) == (if io.In? then [io.token] else []) + ReceivedIn(rest)
  {
    assert ([io] + rest)[1..] == rest;
  }

  lemma {:induction false} UnitsConcat(a: seq<Io>, b: seq<Io>)
    ensures SentIn(a + b) == SentIn(a) + SentIn(b) && ReceivedIn(a + b) == ReceivedIn(a) + ReceivedIn(b)
  {
    if a == [] {
      assert a + b == b;
    } else {
      UnitsConcat(a[1..], b);
      UnitsOnward(a[0], a[1..], b);
      assert [a[0]] + a[1..] == a;
    }
  }

  lemma {:induction false} UnitsOnward(io: Io, a: seq<Io>, b: seq<Io>)
    requires SentIn(a + b) == SentIn(a) + SentIn(b) && ReceivedIn(a + b) == ReceivedIn(a) + ReceivedIn(b)
    ensures SentIn([io] + a + b) == SentIn([io] + a) + SentIn(b)
    ensures ReceivedIn([io] + a + b) == ReceivedIn([io] + a) + ReceivedIn(b)
  {
    FrontUnit(io, a);
    FrontUnit(io, a + b);
    Regrouped([io], a, b);
    Regrouped(if io.Out? then [io.token] else [], SentIn(a), SentIn(b));
    Regrouped(if io.In? then [io.token] else [], ReceivedIn(a), ReceivedIn(b));
  }

  lemma Regrouped<T>(a: seq<T>, b: seq<T>, c: seq<T>)
    ensures a + b + c == a + (b + c)
  {
  }

  lemma OneUnit(a: Io)
    ensures SentIn([a]) == (if a.Out? then [a.token] else []) && ReceivedIn([a]) == if a.In? then [a.token] else []
  {
    FrontUnit(a, []);
    assert [a] + [] == [a];
  }

  lemma ThreeUnits(a: Io, b: Io, c: Io)
    requires a.Out? && b.In? && c.Out?
    ensures SentIn([a, b, c]) == [a.token, c.token] && ReceivedIn([a, b, c]) == [b.token]
  {
    OneUnit(c);
    FrontUnit(b, [c]);
    FrontUnit(a, [b, c]);
    assert [b] + [c] == [b, c] && [a] + [b, c] == [a, b, c];
  }

  lemma FiveUnits(a: Io, b: Io, c: Io, d: Io, e: Io)
    requires a.Out? && b.In? && c.Out? && d.In? && e.Out?
    ensures SentIn([a, b, c, d, e]) == [a.token, c.token, e.token]
    ensures ReceivedIn([a, b, c, d, e]) == [b.token, d.token]
  {
    ThreeUnits(c, d, e);
    FrontUnit(b, [c, d, e]);
    FrontUnit(a, [b, c, d, e]);
    assert [b] + [c, d, e] == [b, c, d, e] && [a] + [b, c, d, e] == [a, b, c, d, e];
  }

  /** What goes over the connection while a request is handled. */
  function Exchange(st: Store, policy: Policy, req: Request): seq<Io> {
    match req
    case Write(name, data) => WriteExchange(st, policy, name, data)
    case _ => Outs(Handle(st, policy, req).sent)
  }

  lemma {:induction false} OutsUnits(ts: seq<Token>)
    ensures SentIn(Outs(ts)) == ts && ReceivedIn(Outs(ts)) == []
  {
    if ts != [] {
      OutsUnits(ts[1..]);
      FrontUnit(Out(ts[0]), Outs(ts[1..]));
      assert Outs(ts) == [Out(ts[0])] + Outs(ts[1..]);
    }
  }

  /** What goes out while a request is handled is what the reply says; what comes in is, of a write's
      size and content, as much as the worker takes in, and nothing for any other request. */
  lemma ExchangeUnits(st: Store, policy: Policy, req: Request)
    ensures var ios := Exchange(st, policy, req);
            && SentIn(ios) == Handle(st, policy, req).sent
            && ReceivedIn(ios) == if req.Write? then
                                    [Num(|req.data|), Msg(req.data)][..WriteConsumes(st, policy, req.name, req.data)]
                                  else []
  {
    if req.Write? {
      WriteUnits(st, policy, req.name, req.data);
    } else {
      OutsUnits(Handle(st, policy, req).sent);
    }
  }

  /** Two units a file, in the order of the list. */
  lemma {:induction false} SentFileAt(files: seq<File>, i: nat)
    requires i < |files|
    ensures |SentFiles(files)| == 2 * |files|
    ensures SentFiles(files)[2 * i..2 * i + 2] == [Msg(files[i].content), Num(|files[i].content|)]
  {
    var n := |files| - 1;
    if n == 0 {
      assert files[..0] == [];
    } else {
      SentFileAt(files[..n], if i < n then i else 0);
    }
  }

  /** READN leaves the store as it is. It announces as many files as were asked for, or all of them
      if that is not positive or more than there are, and sends the first that many of the list,
      each once. */
  lemma ReadNDelivers(st: Store, n: int, i: nat)
    requires st.files != [] && -TWO_31 <= n < TWO_31 && |st.files| < TWO_31
    requires i < if n <= 0 || n > |st.files| then |st.files| else n
    ensures var r := ReadNReply(st, n);
            var k := if n <= 0 || n > |st.files| then |st.files| else n;
            r.store == st && r.status == OK && r.err == 0
            && |r.sent| == 2 + 2 * k && r.sent[..2] == [Num(k), Num(CONTINUE)]
            && r.sent[2 + 2 * i..4 + 2 * i] == [Msg(st.files[i].content), Num(|st.files[i].content|)]
  {
    var k := ReadCount(n, |st.files|);
    SentFileAt(st.files[..k], i);
    Shifted([Num(k), Num(CONTINUE)], SentFiles(st.files[..k]), 2 * i, 2 * i + 2);
  }

  lemma Shifted<T>(a: seq<T>, b: seq<T>, i: nat, j: nat)
    requires i <= j <= |b|
    ensures (a + b)[..|a|] == a && (a + b)[|a| + i..|a| + j] == b[i..j]
  {
  }

  /** A write's target that is missing from the start is reported as ENONET, and one that the write
      itself evicts as ENOENT, the error of every other request for a missing file. */
  lemma MissingTarget(st: Store, policy: Policy, name: Name, data: seq<byte>, flags: int)
    ensures var r := WriteReply(st, policy, name, data);
            && (r.err == ENONET <==> !Has(st.files, name))
            && (r.err == ENOENT <==> SelfEvicting(st, policy, name, |data|))
            && (r.status == OK <==> Granted(st, policy, name, |data|))
    ensures !Has(st.files, name) ==>
              && ReadReply(st, policy, name).err == ENOENT == RemoveReply(st, policy, name).err
              && (flags != O_CREATE ==> OpenReply(st, policy, name, flags).err == ENOENT)
  {
  }

  /** An empty store and the name "a". */
  lemma MissingTargetReported(policy: Policy, limit: nat)
    ensures WriteReply(Store([], 1, limit, 0, 0, 0, 0), policy, Name([97]), [0]).err == ENONET
  {
    MissingTarget(Store([], 1, limit, 0, 0, 0, 0), policy, Name([97]), [0], 0);
  }

  lemma PromotedHas(files: seq<File>, policy: Policy, name: Name)
    requires Has(files, name)
    ensures Has(Promote(files, policy, name), name)
  {
    if policy == LRU {
      var p := MoveToFront(files, IndexOf(files, name));
      assert p[0].name == name;
    }
  }

  /** A prefix holds no name that the list does not. */
  lemma HasPrefix(files: seq<File>, m: nat, name: Name)
    requires m <= |files|
    ensures Has(files[..m], name) <==> IndexOf(files, name) < m
  {
    var r, k := IndexOf(files[..m], name), IndexOf(files, name);
    if r < m { assert files[r].name == name; }
    if k < m { assert files[..m][k].name == name; }
  }
}
