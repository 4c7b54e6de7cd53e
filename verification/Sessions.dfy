/** Two processes over a pair of first-in-first-out channels. If they agree when every send is
    taken at once, they agree under every interleaving of their steps. */
module Sessions {
  import opened Protocol
  import opened Wire

  /** `Spin` is a process that goes on for ever without sending or receiving. */
  datatype Act = Snd(token: Token) | Rcv(kind: Kind) | Stop | Spin

  /** A process: what it does next in a state, and where sending or receiving takes it. */
  datatype Process<!S> = Process(act: S -> Act, sent: S -> S, got: (S, Token) -> S)

  /** The two ends of a dialogue. */
  datatype Pair<!C, !S> = Pair(client: Process<C>, server: Process<S>)

  /** A connection in use: both sides and what is on the way in each direction. */
  datatype System<C, S> = System(client: C, server: S, c2s: seq<Token>, s2c: seq<Token>)

  datatype Move = ClientSends | ClientReceives | ServerSends | ServerReceives

  /** A side can receive only the kind of unit it waits for. */
  predicate Fits(act: Act, queue: seq<Token>) {
    act.Rcv? && queue != [] && KindOf(queue[0]) == act.kind
  }

  predicate Enabled<C, S>(p: Pair<C, S>, y: System<C, S>, m: Move) {
    match m
    case ClientSends => p.client.act(y.client).Snd?
    case ClientReceives => Fits(p.client.act(y.client), y.s2c)
    case ServerSends => p.server.act(y.server).Snd?
    case ServerReceives => Fits(p.server.act(y.server), y.c2s)
  }

  function Next<C, S>(p: Pair<C, S>, y: System<C, S>, m: Move): System<C, S>
    requires Enabled(p, y, m)
  {
    match m
    case ClientSends => y.(client := p.client.sent(y.client), c2s := y.c2s + [p.client.act(y.client).token])
    case ClientReceives => y.(client := p.client.got(y.client, y.s2c[0]), s2c := y.s2c[1..])
    case ServerSends => y.(server := p.server.sent(y.server), s2c := y.s2c + [p.server.act(y.server).token])
    case ServerReceives => y.(server := p.server.got(y.server, y.c2s[0]), c2s := y.c2s[1..])
  }

  predicate IsRun<C, S>(p: Pair<C, S>, y: System<C, S>, moves: seq<Move>)
    decreases |moves|
  {
    moves == [] || (Enabled(p, y, moves[0]) && IsRun(p, Next(p, y, moves[0]), moves[1..]))
  }

  function After<C, S>(p: Pair<C, S>, y: System<C, S>, moves: seq<Move>): System<C, S>
    requires IsRun(p, y, moves)
    decreases |moves|
  {
    if moves == [] then y else After(p, Next(p, y, moves[0]), moves[1..])
  }

  /** Both sides are in the given states and nothing is on the way. */
  ghost predicate Closed<C, S>(y: System<C, S>, c: C, s: S) {
    y == System(c, s, [], [])
  }

  predicate SomeMove<C, S>(p: Pair<C, S>, y: System<C, S>) {
    || Enabled(p, y, ClientSends) || Enabled(p, y, ClientReceives)
    || Enabled(p, y, ServerSends) || Enabled(p, y, ServerReceives)
  }

  /** When each unit is taken as soon as it is sent, the two sides exchange exactly `n` units and
      come to rest in `ce` and `se`, where neither has anything to send. */
  ghost predicate Agree<C, S>(p: Pair<C, S>, c: C, s: S, n: nat, ce: C, se: S)
    decreases n
  {
    match (p.client.act(c), p.server.act(s))
    case (Snd(t), Rcv(k)) => n > 0 && KindOf(t) == k && Agree(p, p.client.sent(c), p.server.got(s, t), n - 1, ce, se)
    case (Rcv(k), Snd(t)) => n > 0 && KindOf(t) == k && Agree(p, p.client.got(c, t), p.server.sent(s), n - 1, ce, se)
    case (a, b) => n == 0 && c == ce && s == se && !a.Snd? && !b.Snd?
  }

  /** The client at `c` comes from `c0` by sending exactly `q`. */
  ghost predicate ClientAhead<C, S>(p: Pair<C, S>, c0: C, c: C, q: seq<Token>)
    decreases |q|
  {
    if q == [] then c0 == c
    else p.client.act(c0) == Snd(q[0]) && ClientAhead(p, p.client.sent(c0), c, q[1..])
  }

  ghost predicate ServerAhead<C, S>(p: Pair<C, S>, s0: S, s: S, q: seq<Token>)
    decreases |q|
  {
    if q == [] then s0 == s
    else p.server.act(s0) == Snd(q[0]) && ServerAhead(p, p.server.sent(s0), s, q[1..])
  }

  lemma {:induction false} ClientFurther<C, S>(p: Pair<C, S>, c0: C, c: C, q: seq<Token>)
    requires ClientAhead(p, c0, c, q) && p.client.act(c).Snd?
    ensures ClientAhead(p, c0, p.client.sent(c), q + [p.client.act(c).token])
    decreases |q|
  {
    var q' := q + [p.client.act(c).token];
    if q != [] {
      ClientFurther(p, p.client.sent(c0), c, q[1..]);
      assert q'[1..] == q[1..] + [p.client.act(c).token];
    }
  }

  lemma {:induction false} ServerFurther<C, S>(p: Pair<C, S>, s0: S, s: S, q: seq<Token>)
    requires ServerAhead(p, s0, s, q) && p.server.act(s).Snd?
    ensures ServerAhead(p, s0, p.server.sent(s), q + [p.server.act(s).token])
    decreases |q|
  {
    var q' := q + [p.server.act(s).token];
    if q != [] {
      ServerFurther(p, p.server.sent(s0), s, q[1..]);
      assert q'[1..] == q[1..] + [p.server.act(s).token];
    }
  }

  /** The system is `n` exchanges before the end, but for one side that has sent ahead. */
  ghost predicate From<C(!new), S(!new)>(p: Pair<C, S>, y: System<C, S>, c0: C, s0: S, n: nat, ce: C, se: S) {
    Agree(p, c0, s0, n, ce, se)
    && (|| (s0 == y.server && y.s2c == [] && ClientAhead(p, c0, y.client, y.c2s))
        || (c0 == y.client && y.c2s == [] && ServerAhead(p, s0, y.server, y.s2c)))
  }

  /** On the way to that end, with `left` moves to make. */
  ghost predicate OnCourse<C(!new), S(!new)>(p: Pair<C, S>, y: System<C, S>, left: nat, ce: C, se: S) {
    exists c0, s0, n: nat :: From(p, y, c0, s0, n, ce, se) && left == 2 * n - |y.c2s| - |y.s2c|
  }

  /** No side can be further ahead than there are exchanges left. */
  lemma {:induction false} ClientBound<C, S>(p: Pair<C, S>, c0: C, s0: S, n: nat, ce: C, se: S, c: C, q: seq<Token>)
    requires Agree(p, c0, s0, n, ce, se) && ClientAhead(p, c0, c, q)
    ensures |q| <= n && (p.client.act(c).Snd? ==> |q| < n)
    decreases |q|
  {
    if q != [] {
      ClientBound(p, p.client.sent(c0), p.server.got(s0, q[0]), n - 1, ce, se, c, q[1..]);
    }
  }

  lemma {:induction false} ServerBound<C, S>(p: Pair<C, S>, c0: C, s0: S, n: nat, ce: C, se: S, s: S, q: seq<Token>)
    requires Agree(p, c0, s0, n, ce, se) && ServerAhead(p, s0, s, q)
    ensures |q| <= n && (p.server.act(s).Snd? ==> |q| < n)
    decreases |q|
  {
    if q != [] {
      ServerBound(p, p.client.got(c0, q[0]), p.server.sent(s0), n - 1, ce, se, s, q[1..]);
    }
  }

  lemma SendStep<C(!new), S(!new)>(p: Pair<C, S>, y: System<C, S>, m: Move, c0: C, s0: S, n: nat, ce: C, se: S)
    requires From(p, y, c0, s0, n, ce, se) && Enabled(p, y, m) && (m.ClientSends? || m.ServerSends?)
    ensures |y.c2s| + |y.s2c| < n && From(p, Next(p, y, m), c0, s0, n, ce, se)
  {
    if m.ClientSends? && y.s2c == [] {
      ClientBound(p, c0, s0, n, ce, se, y.client, y.c2s);
      ClientFurther(p, c0, y.client, y.c2s);
    } else if m.ServerSends? && y.c2s == [] {
      ServerBound(p, c0, s0, n, ce, se, y.server, y.s2c);
      ServerFurther(p, s0, y.server, y.s2c);
    }
  }

  lemma ReceiveStep<C(!new), S(!new)>(p: Pair<C, S>, y: System<C, S>, m: Move, c0: C, s0: S, n: nat, ce: C, se: S)
    requires From(p, y, c0, s0, n, ce, se) && Enabled(p, y, m) && (m.ClientReceives? || m.ServerReceives?)
    ensures |y.c2s| + |y.s2c| <= n && n > 0
    ensures var y' := Next(p, y, m);
            if m.ClientReceives? then From(p, y', y'.client, p.server.sent(s0), n - 1, ce, se)
            else From(p, y', p.client.sent(c0), y'.server, n - 1, ce, se)
  {
    if m.ClientReceives? {
      ServerBound(p, c0, s0, n, ce, se, y.server, y.s2c);
    } else {
      ClientBound(p, c0, s0, n, ce, se, y.client, y.c2s);
    }
  }

  lemma CourseStep<C(!new), S(!new)>(p: Pair<C, S>, y: System<C, S>, m: Move, left: nat, ce: C, se: S)
    requires OnCourse(p, y, left, ce, se) && Enabled(p, y, m)
    ensures left > 0 && OnCourse(p, Next(p, y, m), left - 1, ce, se)
  {
    var c0, s0, n: nat :| From(p, y, c0, s0, n, ce, se) && left == 2 * n - |y.c2s| - |y.s2c|;
    if m.ClientSends? || m.ServerSends? {
      SendStep(p, y, m, c0, s0, n, ce, se);
    } else {
      ReceiveStep(p, y, m, c0, s0, n, ce, se);
    }
  }

  lemma CourseStuck<C(!new), S(!new)>(p: Pair<C, S>, y: System<C, S>, left: nat, ce: C, se: S)
    requires OnCourse(p, y, left, ce, se)
    ensures SomeMove(p, y) || (left == 0 && Closed(y, ce, se))
  {
    var c0, s0, n: nat :| From(p, y, c0, s0, n, ce, se) && left == 2 * n - |y.c2s| - |y.s2c|;
  }

  lemma {:induction false} CourseRun<C(!new), S(!new)>(p: Pair<C, S>, y: System<C, S>, left: nat, ce: C, se: S,
                                                       moves: seq<Move>)
    requires OnCourse(p, y, left, ce, se) && IsRun(p, y, moves)
    ensures |moves| <= left && OnCourse(p, After(p, y, moves), left - |moves|, ce, se)
    decreases |moves|
  {
    if moves != [] {
      CourseStep(p, y, moves[0], left, ce, se);
      CourseRun(p, Next(p, y, moves[0]), left - 1, ce, se, moves[1..]);
    }
  }

  /** If the two sides agree in `n` exchanges, then under every interleaving they make at most `2 * n`
      moves, and where no move is left both are in the agreed states with both channels empty. */
  lemma AgreementIsEnough<C(!new), S(!new)>(p: Pair<C, S>, c: C, s: S, n: nat, ce: C, se: S, moves: seq<Move>)
    requires Agree(p, c, s, n, ce, se) && IsRun(p, System(c, s, [], []), moves)
    ensures var now := After(p, System(c, s, [], []), moves);
            |moves| <= 2 * n && (SomeMove(p, now) || Closed(now, ce, se))
  {
    var y := System(c, s, [], []);
    assert From(p, y, c, s, n, ce, se);
    CourseRun(p, y, 2 * n, ce, se, moves);
    CourseStuck(p, After(p, y, moves), 2 * n - |moves|, ce, se);
  }

  lemma {:induction false} CourseEnds<C(!new), S(!new)>(p: Pair<C, S>, y: System<C, S>, left: nat, ce: C, se: S)
    returns (moves: seq<Move>)
    requires OnCourse(p, y, left, ce, se)
    ensures IsRun(p, y, moves) && Closed(After(p, y, moves), ce, se)
    decreases left
  {
    CourseStuck(p, y, left, ce, se);
    moves := [];
    if SomeMove(p, y) {
      var m :| Enabled(p, y, m);
      CourseStep(p, y, m, left, ce, se);
      var rest := CourseEnds(p, Next(p, y, m), left - 1, ce, se);
      moves := [m] + rest;
      assert moves[1..] == rest;
    }
  }

  /** And there is a run to the agreed end. */
  lemma AgreementIsReached<C(!new), S(!new)>(p: Pair<C, S>, c: C, s: S, n: nat, ce: C, se: S) returns (moves: seq<Move>)
    requires Agree(p, c, s, n, ce, se)
    ensures IsRun(p, System(c, s, [], []), moves) && Closed(After(p, System(c, s, [], []), moves), ce, se)
  {
    assert From(p, System(c, s, [], []), c, s, n, ce, se);
    moves := CourseEnds(p, System(c, s, [], []), 2 * n, ce, se);
  }
}
