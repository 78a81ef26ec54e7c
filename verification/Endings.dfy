// When a request ends badly, read off the answers of the outside before it begins:
// without any reply, or with a block message passed on.
module Endings {
  import opened Addresses
  import opened Compliance
  import opened Fleets
  import opened Forecast
  import opened Routing
  import Stream
  import Rotation

  /** The i-th look for a token from now on succeeds. */
  ghost predicate TokenAt(env: Env, p: Point, i: nat) {
    env.world.bootstrap(p.fetches + i).GivesToken()
  }

  /** How many of the next `i` looks succeed. */
  ghost function Tokens(env: Env, p: Point, i: nat): nat {
    if i == 0 then 0 else Tokens(env, p, i - 1) + if TokenAt(env, p, i - 1) then 1 else 0
  }

  /** What the i-th retry is answered, if it gets a token. */
  ghost function AnswerAt(env: Env, p: Point, i: nat): Reply {
    env.world.upstream(p.forwards + Tokens(env, p, i))
  }

  lemma {:induction false} TokensShift(env: Env, p: Point, q: Point, i: nat)
    requires q.fetches == p.fetches + 1
    ensures Tokens(env, p, i + 1) == Tokens(env, q, i) + if TokenAt(env, p, 0) then 1 else 0
    ensures TokenAt(env, p, i + 1) == TokenAt(env, q, i)
  {
    if i > 0 {
      TokensShift(env, p, q, i - 1);
    } else {
      assert Tokens(env, p, 1) == Tokens(env, p, 0) + if TokenAt(env, p, 0) then 1 else 0;
    }
  }

  lemma Shift(env: Env, p: Point, q: Point)
    requires q.fetches == p.fetches + 1
    requires q.forwards == p.forwards + if TokenAt(env, p, 0) then 1 else 0
    ensures forall j: nat ::
              TokenAt(env, p, j + 1) == TokenAt(env, q, j) && AnswerAt(env, p, j + 1) == AnswerAt(env, q, j)
  {
    forall j: nat
      ensures TokenAt(env, p, j + 1) == TokenAt(env, q, j) && AnswerAt(env, p, j + 1) == AnswerAt(env, q, j)
    {
      TokensShift(env, p, q, j);
    }
  }

  // ------------------------------------------------------ 401 and 429

  /** The i-th retry is the first one to fail, after none but answers with this status. */
  ghost predicate FailsAt(env: Env, p: Point, status: int, i: nat) {
    && TokenAt(env, p, i) && AnswerAt(env, p, i).Failed?
    && forall j: nat :: j < i && TokenAt(env, p, j) ==>
         AnswerAt(env, p, j).Reply? && AnswerAt(env, p, j).status == status
  }

  lemma FailsShift(env: Env, p: Point, q: Point, status: int, i: nat)
    requires q.fetches == p.fetches + 1
    requires q.forwards == p.forwards + if TokenAt(env, p, 0) then 1 else 0
    requires TokenAt(env, p, 0) ==> AnswerAt(env, p, 0).Reply? && AnswerAt(env, p, 0).status == status
    ensures FailsAt(env, p, status, i + 1) <==> FailsAt(env, q, status, i)
  {
    Shift(env, p, q);
    hide TokenAt, AnswerAt;
    if FailsAt(env, p, status, i + 1) {
      forall j: nat | j < i && TokenAt(env, q, j)
        ensures AnswerAt(env, q, j).Reply? && AnswerAt(env, q, j).status == status
      {
        assert TokenAt(env, p, j + 1);
      }
    }
    if FailsAt(env, q, status, i) {
      forall j: nat | j < i + 1 && TokenAt(env, p, j)
        ensures AnswerAt(env, p, j).Reply? && AnswerAt(env, p, j).status == status
      {
        if j > 0 {
          assert TokenAt(env, q, j - 1);
        }
      }
    }
  }

  /** The state after one retry on 401 or 429 that brought nothing new. */
  ghost function RetryPassed(env: Env, p: Point): Point {
    var q := p.Turn().Fetched(env);
    if TokenAt(env, p, 0) then q.Sent() else q
  }

  ghost function Walk(env: Env, p: Point, i: nat): Point
    decreases i
  {
    if i == 0 then p else Walk(env, RetryPassed(env, p), i - 1)
  }

  /** The rotator still has somebody for the i-th retry. */
  ghost predicate Lasts(env: Env, p: Point, i: nat) {
    forall j: nat :: j <= i ==> !Walk(env, p, j).Empty()
  }

  lemma LastsShift(env: Env, p: Point, i: nat)
    ensures Lasts(env, p, 0) <==> !p.Empty()
    ensures Lasts(env, p, i + 1) <==> !p.Empty() && Lasts(env, RetryPassed(env, p), i)
    ensures Lasts(env, p, i) ==> !p.Empty()
  {
    var next := RetryPassed(env, p);
    hide RetryPassed;
    assert Walk(env, p, 0) == p;
    if Lasts(env, p, i + 1) {
      forall j: nat | j <= i ensures !Walk(env, next, j).Empty() {
        assert Walk(env, p, j + 1) == Walk(env, next, j);
      }
    }
    if !p.Empty() && Lasts(env, next, i) {
      forall j: nat | j <= i + 1 ensures !Walk(env, p, j).Empty() {
        assert j > 0 ==> Walk(env, p, j) == Walk(env, next, j - 1);
      }
    }
  }

  /** It is the i-th retry on 401 that loses the response: the first to fail, with
      somebody left in the rotator up to then. */
  ghost predicate Loses(env: Env, p: Point, i: nat) {
    FailsAt(env, p, 401, i) && Lasts(env, p, i)
  }

  /** The first retry brings an answer with another status. */
  ghost predicate Other(env: Env, p: Point, status: int) {
    TokenAt(env, p, 0) && AnswerAt(env, p, 0).Reply? && AnswerAt(env, p, 0).status != status
  }

  lemma RetryPassedIs(env: Env, p: Point)
    ensures var next := RetryPassed(env, p);
            && next.fetches == p.fetches + 1
            && next.forwards == p.forwards + if TokenAt(env, p, 0) then 1 else 0
    ensures p.Turn().Token(env) == TokenAt(env, p, 0)
    ensures p.Turn().Fetched(env).Answer(env) == AnswerAt(env, p, 0)
  {
    assert Tokens(env, p, 0) == 0;
  }

  lemma FailsFirst(env: Env, p: Point, status: int)
    ensures FailsAt(env, p, status, 0) <==> TokenAt(env, p, 0) && AnswerAt(env, p, 0).Failed?
  {
  }

  /** After an answer with another status, or a failed retry, none is the first to fail. */
  lemma FailsNoMore(env: Env, p: Point, status: int, i: nat)
    requires Other(env, p, status) || FailsAt(env, p, status, 0)
    ensures FailsAt(env, p, status, i) ==> i == 0 && !Other(env, p, status)
  {
  }

  lemma LosesShift(env: Env, p: Point, i: nat)
    requires !p.Empty() && !Other(env, p, 401) && !FailsAt(env, p, 401, 0)
    ensures Loses(env, p, i + 1) <==> Loses(env, RetryPassed(env, p), i)
  {
    FailsPassed(env, p, 401, i);
    LastsShift(env, p, i);
    hide FailsAt, RetryPassed, Lasts;
  }

  lemma LosesFirst(env: Env, p: Point)
    ensures Loses(env, p, 0) <==> FailsAt(env, p, 401, 0) && !p.Empty()
    ensures p.Empty() ==> forall i: nat :: !Loses(env, p, i)
    ensures Other(env, p, 401) ==> forall i: nat :: !Loses(env, p, i)
  {
    LastsShift(env, p, 0);
    forall i: nat | Loses(env, p, i) ensures !p.Empty() && !Other(env, p, 401) {
      LastsShift(env, p, i);
      hide Lasts;
    }
  }

  /** Once a retry has failed, the response is lost. */
  lemma {:induction false} LostStays401(env: Env, p: Point, n: nat)
    ensures Leg401(env, p, n, false).fate.Lost?
    decreases n
  {
    Leg401Step(env, p, n, false);
    hide Leg401;
    if n > 0 && !p.Turn().Token(env) {
      LostStays401(env, p.Turn().Fetched(env), n - 1);
    }
  }

  lemma {:induction false} LostStays429(env: Env, fallback: bool, p: Point, n: nat)
    ensures Leg429(env, fallback, p, n, false).fate.Lost?
    decreases n
  {
    Leg429Step(env, fallback, p, n, false);
    hide Leg429;
    if n > 0 && !p.Turn().Token(env) {
      LostStays429(env, fallback, p.Turn().Fetched(env), n - 1);
    }
  }

  lemma Leg401Cases(env: Env, p: Point, n: nat)
    ensures Leg401(env, p, n, true).fate.Lost?
            <==> n > 0 && !p.Empty()
                 && (FailsAt(env, p, 401, 0)
                     || (!Other(env, p, 401) && Leg401(env, RetryPassed(env, p), n - 1, true).fate.Lost?))
  {
    Leg401Step(env, p, n, true);
    LostStays401(env, p.Turn().Fetched(env).Sent(), if n > 0 then n - 1 else 0);
    RetryPassedIs(env, p);
    FailsFirst(env, p, 401);
    hide Leg401, FailsAt, AnswerAt, Point.Answer, Point.Token;
  }

  /** On 401 the response is lost if and only if a retry fails before any is answered
      otherwise, while the rotator still has somebody. */
  lemma {:induction false} Lost401(env: Env, p: Point, n: nat)
    ensures Leg401(env, p, n, true).fate.Lost? <==> exists i: nat :: i < n && Loses(env, p, i)
    decreases n
  {
    hide Leg401, Loses, RetryPassed, FailsAt, Other;
    Leg401Cases(env, p, n);
    LosesFirst(env, p);
    if n == 0 || p.Empty() || FailsAt(env, p, 401, 0) || Other(env, p, 401) {
      assert FailsAt(env, p, 401, 0) && !p.Empty() ==> Loses(env, p, 0);
    } else {
      var next := RetryPassed(env, p);
      Lost401(env, next, n - 1);
      if i: nat :| i < n && Loses(env, p, i) {
        assert i > 0;
        LosesShift(env, p, i - 1);
      }
      if i: nat :| i < n - 1 && Loses(env, next, i) {
        LosesShift(env, p, i);
        assert Loses(env, p, i + 1);
      }
    }
  }

  /** The list stays in order, and one bootstrap request costs it at most one address. */
  ghost predicate Sound(p: Point) {
    p.fleet.ring.Some? ==> Rotation.InRange(p.fleet.ring.value.list, p.fleet.ring.value.index)
  }

  lemma PassedShape(env: Env, p: Point)
    requires Sound(p)
    ensures Sound(RetryPassed(env, p)) && |p.fleet.List()| - 1 <= |RetryPassed(env, p).fleet.List()| <= |p.fleet.List()|
    ensures p.Empty() <==> p.fleet.List() == []
  {
    hide RouteOf;
  }

  lemma {:induction false} LongWalk(env: Env, p: Point, i: nat)
    requires Sound(p) && |p.fleet.List()| > i
    ensures Lasts(env, p, i)
    decreases i
  {
    PassedShape(env, p);
    LastsShift(env, p, if i > 0 then i - 1 else 0);
    hide RetryPassed, Lasts;
    if i > 0 {
      LongWalk(env, RetryPassed(env, p), i - 1);
    }
  }

  /** With a list no shorter than the number of retries only the answers count. */
  lemma Lost401Long(env: Env, p: Point, n: nat)
    requires Sound(p) && |p.fleet.List()| >= n
    ensures Leg401(env, p, n, true).fate.Lost? <==> exists i: nat :: i < n && FailsAt(env, p, 401, i)
  {
    Lost401(env, p, n);
    hide FailsAt, Leg401, Lasts;
    forall i: nat | i < n ensures Loses(env, p, i) <==> FailsAt(env, p, 401, i) {
      LongWalk(env, p, i);
    }
  }

  /** How many of the next `i` bootstrap requests are answered 403. */
  ghost function Bans(env: Env, p: Point, i: nat): nat {
    if i == 0 then 0 else Bans(env, p, i - 1) + if env.world.bootstrap(p.fetches + i - 1).Forbids() then 1 else 0
  }

  lemma {:induction false} BansShift(env: Env, p: Point, q: Point, i: nat)
    requires q.fetches == p.fetches + 1
    ensures Bans(env, p, i + 1) == Bans(env, q, i) + if env.world.bootstrap(p.fetches).Forbids() then 1 else 0
  {
    if i > 0 {
      BansShift(env, p, q, i - 1);
    } else {
      assert Bans(env, p, 1) == Bans(env, p, 0) + if env.world.bootstrap(p.fetches).Forbids() then 1 else 0;
    }
  }

  /** No smart router, and a dialer for everybody in the rotator. */
  ghost predicate AllTunnels(env: Env, p: Point) {
    Sound(p) && p.fleet.proxies == [] && forall a :: a in p.fleet.List() ==> env.Resolves(a)
  }

  lemma TunnelPassed(env: Env, p: Point)
    requires AllTunnels(env, p) && !p.Empty()
    ensures AllTunnels(env, RetryPassed(env, p))
    ensures |RetryPassed(env, p).fleet.List()|
            == |p.fleet.List()| - if env.world.bootstrap(p.fetches).Forbids() then 1 else 0
  {
    var t := p.Turn();
    RouteShape(env, t.fleet);
    assert t.fleet.Head().value in t.fleet.List();
    hide RouteOf, Env.Resolves;
    BannedTunnel(t.fleet, env.world.bootstrap(p.fetches));
    hide Fleet.Booted;
  }

  lemma BannedTunnel(fleet: Fleet, answer: BootReply)
    requires fleet.ring.Some? && fleet.Head().Some? && fleet.Head().value != ""
    ensures var next := fleet.Booted(Tunnel(fleet.Head().value), answer);
            && next.ring.Some? && Rotation.InRange(next.ring.value.list, next.ring.value.index)
            && |next.List()| == |fleet.List()| - (if answer.Forbids() then 1 else 0)
            && (forall a :: a in next.List() ==> a in fleet.List())
            && (fleet.proxies == [] ==> next.proxies == [])
  {
  }

  lemma {:induction false} TunnelWalk(env: Env, p: Point, i: nat)
    requires AllTunnels(env, p)
    ensures Lasts(env, p, i) <==> |p.fleet.List()| > Bans(env, p, i)
    decreases i
  {
    PassedShape(env, p);
    LastsShift(env, p, if i > 0 then i - 1 else 0);
    LastsShift(env, p, i);
    if p.Empty() {
      hide Lasts;
    } else if i > 0 {
      var next := RetryPassed(env, p);
      TunnelPassed(env, p);
      RetryPassedIs(env, p);
      BansShift(env, p, next, i - 1);
      hide RetryPassed, Bans, AllTunnels, Lasts;
      TunnelWalk(env, next, i - 1);
    }
  }

  /** With a dialer for everybody, bans are the 403s among the bootstrap answers, and the
      list must outlast them. */
  lemma Lost401Tunnels(env: Env, p: Point, n: nat)
    requires AllTunnels(env, p)
    ensures Leg401(env, p, n, true).fate.Lost?
            <==> exists i: nat :: i < n && FailsAt(env, p, 401, i) && |p.fleet.List()| > Bans(env, p, i)
  {
    Lost401(env, p, n);
    hide FailsAt, Leg401, Bans, AllTunnels, Lasts;
    forall i: nat ensures Loses(env, p, i) <==> FailsAt(env, p, 401, i) && |p.fleet.List()| > Bans(env, p, i) {
      TunnelWalk(env, p, i);
    }
  }

  lemma Leg429Cases(env: Env, fallback: bool, p: Point, n: nat)
    ensures Leg429(env, fallback, p, n, true).fate.Lost?
            <==> n > 0 && (FailsAt(env, p, 429, 0)
                           || (!Other(env, p, 429)
                               && Leg429(env, fallback, RetryPassed(env, p), n - 1, true).fate.Lost?))
  {
    Leg429Step(env, fallback, p, n, true);
    LostStays429(env, fallback, p.Turn().Fetched(env).Sent(), if n > 0 then n - 1 else 0);
    RetryPassedIs(env, p);
    FailsFirst(env, p, 429);
    hide Leg429, FailsAt, AnswerAt, Point.Answer, Point.Token;
  }

  /** On 429 the response is lost if and only if a retry fails before any is answered
      otherwise, whoever is left in the rotator. */
  lemma {:induction false} Lost429(env: Env, fallback: bool, p: Point, n: nat)
    ensures Leg429(env, fallback, p, n, true).fate.Lost? <==> exists i: nat :: i < n && FailsAt(env, p, 429, i)
    decreases n
  {
    hide *;
    Leg429Cases(env, fallback, p, n);
    if n > 0 && (FailsAt(env, p, 429, 0) || Other(env, p, 429)) {
      forall i: nat ensures FailsAt(env, p, 429, i) ==> i == 0 && !Other(env, p, 429) {
        FailsNoMore(env, p, 429, i);
      }
    } else if n > 0 {
      var next := RetryPassed(env, p);
      Lost429(env, fallback, next, n - 1);
      if i: nat :| i < n && FailsAt(env, p, 429, i) {
        assert i > 0;
        FailsPassed(env, p, 429, i - 1);
      }
      if i: nat :| i < n - 1 && FailsAt(env, next, 429, i) {
        FailsPassed(env, p, 429, i);
        assert FailsAt(env, p, 429, i + 1);
      }
    }
  }

  lemma FailsPassed(env: Env, p: Point, status: int, i: nat)
    requires !Other(env, p, status) && !FailsAt(env, p, status, 0)
    ensures FailsAt(env, p, status, i + 1) <==> FailsAt(env, RetryPassed(env, p), status, i)
  {
    RetryPassedIs(env, p);
    FailsFirst(env, p, status);
    FailsShift(env, p, RetryPassed(env, p), status, i);
  }

  /** The same for the two retries there are, spelled out. */
  lemma Lost429Spelled(env: Env, fallback: bool, p: Point)
    ensures var b, c := env.world.bootstrap(p.fetches).GivesToken(), env.world.bootstrap(p.fetches + 1).GivesToken();
            var r, s := env.world.upstream(p.forwards), env.world.upstream(p.forwards + 1);
            Leg429(env, fallback, p, RATE_LIMIT_RETRIES, true).fate.Lost?
            <==> (b && r.Failed?) || (b && r.Reply? && r.status == 429 && c && s.Failed?) || (!b && c && r.Failed?)
  {
    Lost429(env, fallback, p, 2);
    assert Tokens(env, p, 0) == 0 && Tokens(env, p, 1) == if TokenAt(env, p, 0) then 1 else 0;
    assert FailsAt(env, p, 429, 0) || FailsAt(env, p, 429, 1)
           <==> exists i: nat :: i < 2 && FailsAt(env, p, 429, i);
  }

  // ------------------------------------------------------ blocked streams

  /** The state after one retry of a stream that was not delivered. */
  ghost function StreamPassed(env: Env, p: Point): Point {
    var q := p.Fetched(env);
    if !TokenAt(env, p, 0) then q.GiveUp()
    else if AnswerAt(env, p, 0).Failed? then q.Sent()
    else q.Sent().Checked(env, AnswerAt(env, p, 0).Prefix())
  }

  ghost function StreamWalk(env: Env, p: Point, i: nat): Point
    decreases i
  {
    if i == 0 then p else StreamWalk(env, StreamPassed(env, p), i - 1)
  }

  /** The rotator, if there is one, still has somebody for the i-th retry. */
  ghost predicate StreamLasts(env: Env, p: Point, i: nat) {
    forall j: nat :: j <= i ==> !StreamWalk(env, p, j).Exhausted()
  }

  lemma StreamPassedIs(env: Env, p: Point)
    ensures var next := StreamPassed(env, p);
            && next.fetches == p.fetches + 1
            && next.forwards == p.forwards + if TokenAt(env, p, 0) then 1 else 0
    ensures p.Token(env) == TokenAt(env, p, 0) && p.Fetched(env).Answer(env) == AnswerAt(env, p, 0)
  {
    assert Tokens(env, p, 0) == 0;
    hide Detect;
  }

  lemma StreamLastsShift(env: Env, p: Point, i: nat)
    ensures StreamLasts(env, p, 0) <==> !p.Exhausted()
    ensures StreamLasts(env, p, i + 1) <==> !p.Exhausted() && StreamLasts(env, StreamPassed(env, p), i)
    ensures StreamLasts(env, p, i) ==> !p.Exhausted()
  {
    var next := StreamPassed(env, p);
    hide StreamPassed;
    assert StreamWalk(env, p, 0) == p;
    if StreamLasts(env, p, i + 1) {
      forall j: nat | j <= i ensures !StreamWalk(env, next, j).Exhausted() {
        assert StreamWalk(env, p, j + 1) == StreamWalk(env, next, j);
      }
    }
    if !p.Exhausted() && StreamLasts(env, next, i) {
      forall j: nat | j <= i + 1 ensures !StreamWalk(env, p, j).Exhausted() {
        assert j > 0 ==> StreamWalk(env, p, j) == StreamWalk(env, next, j - 1);
      }
    }
  }

  /** The next token comes with the i-th look, and there is one more retry for it. */
  ghost predicate NextToken(env: Env, p: Point, i: nat) {
    TokenAt(env, p, i) && (forall j: nat :: j < i ==> !TokenAt(env, p, j)) && StreamLasts(env, p, i)
  }

  lemma NextTokenShift(env: Env, p: Point, i: nat)
    ensures NextToken(env, p, 0) <==> TokenAt(env, p, 0) && !p.Exhausted()
    ensures NextToken(env, p, i + 1) <==>
              !TokenAt(env, p, 0) && !p.Exhausted() && NextToken(env, StreamPassed(env, p), i)
  {
    var next := StreamPassed(env, p);
    StreamPassedIs(env, p);
    Shift(env, p, next);
    StreamLastsShift(env, p, i);
    hide TokenAt, StreamPassed, StreamLasts, AnswerAt;
    if NextToken(env, p, i + 1) {
      forall j: nat | j < i ensures !TokenAt(env, next, j) {
        assert !TokenAt(env, p, j + 1);
      }
    }
    if !TokenAt(env, p, 0) && NextToken(env, next, i) {
      forall j: nat | j < i + 1 ensures !TokenAt(env, p, j) {
        assert j > 0 ==> TokenAt(env, p, (j - 1) + 1) == TokenAt(env, next, j - 1);
      }
    }
  }

  /** Once a retry has failed, the response is missed if and only if another token comes. */
  lemma {:induction false} MissedExactly(env: Env, p: Point, n: nat)
    ensures StreamRetries(env, p, n, false).ending.NoReply? <==> exists i: nat :: i < n && NextToken(env, p, i)
    decreases n
  {
    StreamStep(env, p, n, false);
    StreamPassedIs(env, p);
    NextTokenShift(env, p, 0);
    var next := StreamPassed(env, p);
    assert !TokenAt(env, p, 0) ==> next == p.Fetched(env).GiveUp();
    hide NextToken, StreamRetries, TokenAt, Point.Exhausted, Point.Token, StreamPassed;
    if i: nat :| i < n && NextToken(env, p, i) {
      if i > 0 {
        NextTokenShift(env, p, i - 1);
        MissedExactly(env, next, n - 1);
      }
    }
    if n > 0 && !TokenAt(env, p, 0) && !p.Exhausted() {
      MissedExactly(env, next, n - 1);
      if i: nat :| i < n - 1 && NextToken(env, next, i) {
        NextTokenShift(env, p, i);
        assert NextToken(env, p, i + 1);
      }
    }
  }

  /** Up to the i-th retry every answer started with a block message. */
  ghost predicate BlockedUpTo(env: Env, p: Point, i: nat) {
    && StreamLasts(env, p, i)
    && forall j: nat :: j < i && TokenAt(env, p, j) ==>
         AnswerAt(env, p, j).Reply? && env.world.Blocked(AnswerAt(env, p, j).Prefix())
  }

  lemma BlockedShift(env: Env, p: Point, i: nat)
    ensures BlockedUpTo(env, p, 0) <==> !p.Exhausted()
    ensures BlockedUpTo(env, p, i) ==> !p.Exhausted()
    ensures BlockedUpTo(env, p, i + 1) <==>
              && !p.Exhausted() && BlockedUpTo(env, StreamPassed(env, p), i)
              && (TokenAt(env, p, 0) ==>
                    AnswerAt(env, p, 0).Reply? && env.world.Blocked(AnswerAt(env, p, 0).Prefix()))
  {
    var next := StreamPassed(env, p);
    StreamPassedIs(env, p);
    Shift(env, p, next);
    StreamLastsShift(env, p, i);
    hide TokenAt, AnswerAt, StreamPassed, StreamLasts, Detect;
    if BlockedUpTo(env, p, i + 1) {
      forall j: nat | j < i && TokenAt(env, next, j)
        ensures AnswerAt(env, next, j).Reply? && env.world.Blocked(AnswerAt(env, next, j).Prefix())
      {
        assert TokenAt(env, p, j + 1);
      }
    }
    if BlockedUpTo(env, next, i) {
      forall j: nat | 0 < j < i + 1 && TokenAt(env, p, j)
        ensures AnswerAt(env, p, j).Reply? && env.world.Blocked(AnswerAt(env, p, j).Prefix())
      {
        assert TokenAt(env, p, (j - 1) + 1) == TokenAt(env, next, j - 1);
        assert AnswerAt(env, p, (j - 1) + 1) == AnswerAt(env, next, j - 1);
      }
    }
  }

  /** The i-th retry fails after nothing but block messages, and the token for another
      one comes `j` looks later. */
  ghost predicate MissesAt(env: Env, p: Point, i: nat, j: nat) {
    && BlockedUpTo(env, p, i) && TokenAt(env, p, i) && AnswerAt(env, p, i).Failed?
    && NextToken(env, StreamWalk(env, p, i + 1), j)
  }

  /** The first retry was answered with a block message, or did not take place. */
  ghost predicate StillBlocked(env: Env, p: Point) {
    && !p.Exhausted()
    && (TokenAt(env, p, 0) ==> AnswerAt(env, p, 0).Reply? && env.world.Blocked(AnswerAt(env, p, 0).Prefix()))
  }

  lemma MissesShift(env: Env, p: Point, i: nat, j: nat)
    ensures MissesAt(env, p, i + 1, j) <==> StillBlocked(env, p) && MissesAt(env, StreamPassed(env, p), i, j)
    ensures MissesAt(env, p, 0, j) <==>
              && !p.Exhausted() && TokenAt(env, p, 0) && AnswerAt(env, p, 0).Failed?
              && NextToken(env, StreamPassed(env, p), j)
  {
    StreamPassedIs(env, p);
    Shift(env, p, StreamPassed(env, p));
    BlockedShift(env, p, i);
    assert StreamWalk(env, p, i + 2) == StreamWalk(env, StreamPassed(env, p), i + 1);
    assert StreamWalk(env, p, 1) == StreamPassed(env, p) by {
      assert StreamWalk(env, StreamPassed(env, p), 0) == StreamPassed(env, p);
    }
    hide TokenAt, AnswerAt, StreamPassed, BlockedUpTo, NextToken, Detect, StreamWalk;
  }

  /** One more step of a stream retry with a response at hand. */
  lemma StreamCases(env: Env, p: Point, n: nat)
    ensures var next, r, close := StreamPassed(env, p), AnswerAt(env, p, 0), StreamRetries(env, p, n, true);
            && (n == 0 || p.Exhausted() ==> close.ending == ErrorReply(403))
            && (n > 0 && StillBlocked(env, p) ==> close == StreamRetries(env, next, n - 1, true))
            && (n > 0 && !p.Exhausted() && TokenAt(env, p, 0) && r.Failed? ==>
                  close == StreamRetries(env, next, n - 1, false))
            && (n > 0 && !p.Exhausted() && TokenAt(env, p, 0) && r.Reply? && !env.world.Blocked(r.Prefix()) ==>
                  close.ending == if env.world.LooksLikeSSE(r) then StreamReply(p.Fetched(env).forwards)
                                  else BodyReply(p.Fetched(env).forwards, r.Full()))
  {
    StreamStep(env, p, n, true);
    StreamPassedIs(env, p);
    hide Detect, StreamRetries, World.LooksLikeSSE;
  }

  /** The streaming block retry ends without a reply if and only if a retry fails after
      nothing but block messages and another token comes within the five tries. */
  lemma {:induction false} LostStream(env: Env, p: Point, n: nat)
    ensures StreamRetries(env, p, n, true).ending.NoReply?
            <==> exists i: nat, j: nat :: i + 1 + j < n && MissesAt(env, p, i, j)
    decreases n
  {
    StreamCases(env, p, n);
    hide StreamPassed, StreamRetries, MissesAt, NextToken, TokenAt, AnswerAt, Point.Exhausted, Detect;
    var next := StreamPassed(env, p);
    if n > 0 && StillBlocked(env, p) {
      LostStream(env, next, n - 1);
      if i: nat, j: nat :| i + 1 + j < n && MissesAt(env, p, i, j) {
        MissesShift(env, p, if i > 0 then i - 1 else 0, j);
        assert MissesAt(env, next, i - 1, j);
      }
      if i: nat, j: nat :| i + 1 + j < n - 1 && MissesAt(env, next, i, j) {
        MissesShift(env, p, i, j);
        assert MissesAt(env, p, i + 1, j);
      }
    } else if n > 0 && !p.Exhausted() && TokenAt(env, p, 0) && AnswerAt(env, p, 0).Failed? {
      MissedExactly(env, next, n - 1);
      if i: nat, j: nat :| i + 1 + j < n && MissesAt(env, p, i, j) {
        MissesShift(env, p, if i > 0 then i - 1 else 0, j);
      }
      if j: nat :| j < n - 1 && NextToken(env, next, j) {
        MissesShift(env, p, 0, j);
        assert MissesAt(env, p, 0, j);
      }
    } else {
      forall i: nat, j: nat | i + 1 + j < n ensures !MissesAt(env, p, i, j) {
        MissesShift(env, p, if i > 0 then i - 1 else 0, j);
      }
    }
  }

  /** Without a rotator there is always one more retry. */
  lemma {:induction false} DirectLasts(env: Env, p: Point, i: nat)
    requires p.fleet.ring.None?
    ensures StreamLasts(env, p, i)
    decreases i
  {
    StreamLastsShift(env, p, if i > 0 then i - 1 else 0);
    assert StreamPassed(env, p).fleet.ring.None? by {
      hide RouteOf, Detect;
    }
    hide StreamPassed, StreamLasts;
    if i > 0 {
      DirectLasts(env, StreamPassed(env, p), i - 1);
    }
  }

  // ------------------------------------------------- block messages passed on

  /** The ending is a body that holds the block message. */
  ghost predicate PassesBlock(env: Env, ending: Ending) {
    ending.BodyReply? && env.world.Blocked(ending.body)
  }

  /** The i-th retry of a stream is the first to be answered with clean first lines, but
      it is no event stream and holds the block message further down. */
  ghost predicate HiddenAt(env: Env, p: Point, i: nat) {
    && BlockedUpTo(env, p, i) && TokenAt(env, p, i) && HidesBlock(env, AnswerAt(env, p, i))
  }

  ghost predicate HidesBlock(env: Env, r: Reply) {
    r.Reply? && !env.world.Blocked(r.Prefix()) && !env.world.LooksLikeSSE(r) && env.world.Blocked(r.Full())
  }

  lemma HiddenShift(env: Env, p: Point, i: nat)
    ensures HiddenAt(env, p, i + 1) <==> StillBlocked(env, p) && HiddenAt(env, StreamPassed(env, p), i)
    ensures HiddenAt(env, p, 0) <==> !p.Exhausted() && TokenAt(env, p, 0) && HidesBlock(env, AnswerAt(env, p, 0))
  {
    StreamPassedIs(env, p);
    Shift(env, p, StreamPassed(env, p));
    BlockedShift(env, p, i);
    hide TokenAt, AnswerAt, StreamPassed, BlockedUpTo, HidesBlock, Detect;
  }

  /** Once a retry has failed, no body comes any more. */
  lemma {:induction false} NoBodyOnceFailed(env: Env, p: Point, n: nat)
    ensures !StreamRetries(env, p, n, false).ending.BodyReply?
    decreases n
  {
    StreamStep(env, p, n, false);
    if n > 0 && !p.Token(env) && !p.Exhausted() {
      NoBodyOnceFailed(env, p.Fetched(env).GiveUp(), n - 1);
    }
  }

  lemma StreamBodyCases(env: Env, p: Point, n: nat)
    ensures n > 0 && StillBlocked(env, p) ==>
      StreamRetries(env, p, n, true) == StreamRetries(env, StreamPassed(env, p), n - 1, true)
    ensures n == 0 || !StillBlocked(env, p) ==>
      (PassesBlock(env, StreamRetries(env, p, n, true).ending)
       <==> n > 0 && !p.Exhausted() && TokenAt(env, p, 0) && HidesBlock(env, AnswerAt(env, p, 0)))
  {
    StreamCases(env, p, n);
    NoBodyOnceFailed(env, StreamPassed(env, p), if n > 0 then n - 1 else 0);
    hide StreamPassed, StreamRetries, TokenAt, AnswerAt, Point.Exhausted, Detect, World.LooksLikeSSE;
  }

  lemma {:induction false} StreamPassesBlock(env: Env, p: Point, n: nat)
    ensures PassesBlock(env, StreamRetries(env, p, n, true).ending) <==> exists i: nat :: i < n && HiddenAt(env, p, i)
    decreases n
  {
    hide *;
    var next := StreamPassed(env, p);
    StreamBodyCases(env, p, n);
    HiddenShift(env, p, 0);
    if n > 0 && StillBlocked(env, p) {
      StreamPassesBlock(env, next, n - 1);
      if i: nat :| i < n && HiddenAt(env, p, i) {
        HiddenShift(env, p, if i > 0 then i - 1 else 0);
        StillBlockedHidesNothing(env, p);
        assert HiddenAt(env, next, i - 1);
      }
      if i: nat :| i < n - 1 && HiddenAt(env, next, i) {
        HiddenShift(env, p, i);
        assert HiddenAt(env, p, i + 1);
      }
    } else {
      forall i: nat | i < n && HiddenAt(env, p, i) ensures i == 0 {
        HiddenShift(env, p, if i > 0 then i - 1 else 0);
      }
      assert n > 0 && !p.Exhausted() && TokenAt(env, p, 0) && HidesBlock(env, AnswerAt(env, p, 0)) ==>
        HiddenAt(env, p, 0);
    }
  }

  lemma StillBlockedHidesNothing(env: Env, p: Point)
    requires StillBlocked(env, p)
    ensures !(TokenAt(env, p, 0) && HidesBlock(env, AnswerAt(env, p, 0)))
  {
    hide Detect;
  }

  /** The state after one retry of a blocked body that brought nothing. */
  ghost function BodyPassed(env: Env, p: Point): Point {
    var q := p.Fetched(env);
    if !TokenAt(env, p, 0) then q.GiveUp()
    else if AnswerAt(env, p, 0).Failed? then q.Sent()
    else q.Sent().Checked(env, AnswerAt(env, p, 0).body)
  }

  ghost function BodyWalk(env: Env, p: Point, i: nat): Point
    decreases i
  {
    if i == 0 then p else BodyWalk(env, BodyPassed(env, p), i - 1)
  }

  /** The i-th retry of a blocked body brings no token, no answer or another block. */
  ghost predicate Useless(env: Env, p: Point, i: nat) {
    TokenAt(env, p, i) && AnswerAt(env, p, i).Reply? ==>
      !AnswerAt(env, p, i).eventStream && env.world.Blocked(AnswerAt(env, p, i).body)
  }

  /** After `m` useless retries it is over: they were all, or the rotator is empty. */
  ghost predicate GivesUpAt(env: Env, p: Point, n: nat, m: nat) {
    && m <= n && (m == n || BodyWalk(env, p, m).Exhausted())
    && forall i: nat :: i < m ==> Useless(env, p, i)
  }

  lemma GivesUpShift(env: Env, p: Point, n: nat, m: nat)
    ensures GivesUpAt(env, p, n, 0) <==> n == 0 || p.Exhausted()
    ensures GivesUpAt(env, p, n + 1, m + 1) <==> Useless(env, p, 0) && GivesUpAt(env, BodyPassed(env, p), n, m)
  {
    assert Tokens(env, p, 0) == 0;
    var next := BodyPassed(env, p);
    assert next.fetches == p.fetches + 1 && next.forwards == p.forwards + if TokenAt(env, p, 0) then 1 else 0 by {
      hide Detect;
    }
    Shift(env, p, next);
    assert BodyWalk(env, p, 0) == p && BodyWalk(env, p, m + 1) == BodyWalk(env, next, m);
    hide TokenAt, AnswerAt, BodyPassed, BodyWalk, Detect;
    if GivesUpAt(env, p, n + 1, m + 1) {
      forall i: nat | i < m ensures Useless(env, next, i) {
        assert Useless(env, p, i + 1);
      }
    }
    if Useless(env, p, 0) && GivesUpAt(env, next, n, m) {
      forall i: nat | i < m + 1 ensures Useless(env, p, i) {
        if i > 0 {
          assert TokenAt(env, p, (i - 1) + 1) == TokenAt(env, next, i - 1);
          assert AnswerAt(env, p, (i - 1) + 1) == AnswerAt(env, next, i - 1);
          assert Useless(env, next, i - 1);
        }
      }
    }
  }

  lemma BodyCases(env: Env, p: Point, n: nat, original: Ending)
    ensures var next, close := BodyPassed(env, p), JSONRetries(env, p, n, original);
            && (n == 0 || p.Exhausted() ==> close.ending == original)
            && (n > 0 && !p.Exhausted() ==>
                  if Useless(env, p, 0) then close == JSONRetries(env, next, n - 1, original)
                  else !PassesBlock(env, close.ending))
  {
    JSONStep(env, p, n, original);
    assert Tokens(env, p, 0) == 0;
    hide JSONRetries, Detect;
  }

  /** A blocked body that is no event stream is passed on after all if and only if all
      retries there are turn out useless; nothing else with a block message is. */
  lemma {:induction false} BodyPassesBlock(env: Env, p: Point, n: nat, original: Ending)
    requires PassesBlock(env, original)
    ensures PassesBlock(env, JSONRetries(env, p, n, original).ending) <==> exists m: nat :: GivesUpAt(env, p, n, m)
    ensures PassesBlock(env, JSONRetries(env, p, n, original).ending) ==>
      JSONRetries(env, p, n, original).ending == original
    decreases n
  {
    BodyCases(env, p, n, original);
    GivesUpShift(env, p, n, 0);
    var next := BodyPassed(env, p);
    hide BodyPassed, JSONRetries, GivesUpAt, Useless, Point.Exhausted, PassesBlock;
    var rest := if n > 0 then n - 1 else 0;
    if n == 0 || p.Exhausted() {
      assert GivesUpAt(env, p, n, 0);
    } else if Useless(env, p, 0) {
      BodyPassesBlock(env, next, rest, original);
      if m: nat :| GivesUpAt(env, p, n, m) {
        GivesUpShift(env, p, rest, if m > 0 then m - 1 else 0);
        assert GivesUpAt(env, next, rest, m - 1);
      }
      if m: nat :| GivesUpAt(env, next, rest, m) {
        GivesUpShift(env, p, rest, m);
        assert GivesUpAt(env, p, n, m + 1);
      }
    } else {
      forall m: nat ensures !GivesUpAt(env, p, n, m) {
        GivesUpShift(env, p, rest, if m > 0 then m - 1 else 0);
      }
    }
  }

  /** Exactly when a body with the block message goes out to a client that asked for a
      stream, once the k-th answer has made it through the status checks. */
  lemma BlockGoesOutOnStream(env: Env, k: nat, p: Point)
    requires env.world.upstream(k).Reply?
    ensures var r := env.world.upstream(k);
            PassesBlock(env, Delivery(env, true, k, p).ending)
            <==> (HidesBlock(env, r) && exists m: nat :: GivesUpAt(env, p.Checked(env, r.Full()), MAX_BLOCK_RETRIES, m))
                 || (env.world.Blocked(r.Prefix())
                     && exists i: nat :: i < MAX_BLOCK_RETRIES && HiddenAt(env, p.Checked(env, r.Prefix()), i))
  {
    var r := env.world.upstream(k);
    DeliveryIs(env, true, k, p);
    WholeBodyIs(env, k, p);
    StreamPassesBlock(env, p.Checked(env, r.Prefix()), MAX_BLOCK_RETRIES);
    if env.world.Blocked(r.Full()) {
      assert PassesBlock(env, BodyReply(k, r.Full()));
      BodyPassesBlock(env, p.Checked(env, r.Full()), MAX_BLOCK_RETRIES, BodyReply(k, r.Full()));
    }
    hide Detect, GivesUpAt, HiddenAt, StreamRetries, JSONRetries, World.LooksLikeSSE, Point.Checked;
  }

  /** Outside of streams it never does. */
  lemma NoBlockOutsideStreams(env: Env, k: nat, p: Point)
    requires env.world.upstream(k).Reply?
    ensures !PassesBlock(env, Delivery(env, false, k, p).ending)
  {
    DeliveryIs(env, false, k, p);
    PlainRetriesClean(env, p.Checked(env, env.world.upstream(k).body), MAX_BLOCK_RETRIES);
    hide Detect, PlainRetries, Point.Checked;
  }

  lemma {:induction false} PlainRetriesClean(env: Env, p: Point, n: nat)
    ensures !PassesBlock(env, PlainRetries(env, p, n).ending) && !PlainRetries(env, p, n).ending.NoReply?
    decreases n
  {
    PlainStep(env, p, n);
    hide Detect, PlainRetries, Point.Checked, Point.Fetched, Point.Exhausted;
    var q := p.Fetched(env);
    if n == 0 || p.Exhausted() {
    } else if !p.Token(env) {
      PlainRetriesClean(env, q.GiveUp(), n - 1);
    } else if q.Answer(env).Failed? || q.Answer(env).readError {
      PlainRetriesClean(env, q.Sent(), n - 1);
    } else if env.world.Blocked(q.Answer(env).body) {
      PlainRetriesClean(env, q.Sent().Checked(env, q.Answer(env).body), n - 1);
    }
  }

  /** A blocked body is passed on, for one, whenever there are no tokens to be had. */
  lemma NoTokensPassBlock(env: Env, k: nat, p: Point)
    requires HidesBlock(env, env.world.upstream(k))
    requires forall i: nat :: i < MAX_BLOCK_RETRIES ==> !TokenAt(env, p, i)
    ensures Delivery(env, true, k, p).ending == BodyReply(k, env.world.upstream(k).Full())
  {
    var full := env.world.upstream(k).Full();
    var q := p.Checked(env, full);
    DeliveryIs(env, true, k, p);
    WholeBodyIs(env, k, p);
    assert GivesUpAt(env, q, MAX_BLOCK_RETRIES, MAX_BLOCK_RETRIES) by {
      hide Detect;
      assert forall i: nat :: TokenAt(env, q, i) == TokenAt(env, p, i);
    }
    assert PassesBlock(env, BodyReply(k, full));
    BodyPassesBlock(env, q, MAX_BLOCK_RETRIES, BodyReply(k, full));
  }

  /** An answer to do it with, in which the message comes after eleven empty lines; the
      scanner has just delivered these when the rest of the body is read. */
  function SuchAnAnswer(): Reply {
    Reply(200, false, NoLines(11) + [PATTERNS[1]], PATTERNS[1], Newlines(11) + PATTERNS[1], false)
  }

  function Newlines(k: nat): (s: string)
    ensures |s| == k && forall i :: 0 <= i < k ==> s[i] == '\n'
  {
    if k == 0 then "" else "\n" + Newlines(k - 1)
  }

  function NoLines(k: nat): (lines: seq<string>)
    ensures |lines| == k && forall i :: 0 <= i < k ==> lines[i] == ""
  {
    if k == 0 then [] else [""] + NoLines(k - 1)
  }

  lemma SuchAnAnswerHidesBlock(env: Env)
    ensures Receivable(SuchAnAnswer()) && HidesBlock(env, SuchAnAnswer())
  {
    SuchAnAnswerIsReceived();
    SuchAnAnswerShows();
    MessageAfterSilence(env, SuchAnAnswer(), PATTERNS[1]);
  }

  lemma MessageAfterSilence(env: Env, r: Reply, message: string)
    requires r.Reply? && !r.eventStream && message == PATTERNS[1]
    requires |r.Prefix()| == 10 && r.Full() == r.Prefix() + message
    ensures HidesBlock(env, r)
  {
    MessageIsDetected(env, message, r.Prefix());
    hide PATTERNS, Detect, Reply.Prefix, Reply.Full;
    var full := r.Full();
    assert full[10..|full|] == message;
    DetectedPart(env.world.chars, full, 10, |full|);
  }

  lemma SuchAnAnswerIsReceived()
    ensures Receivable(SuchAnAnswer())
  {
    MessageIsOneLine();
    EmptyLines(11, PATTERNS[1]);
    hide PATTERNS, Newlines, NoLines, Stream.ScanLines, Stream.AfterLines;
    var r := SuchAnAnswer();
    assert r.rest == Stream.AfterLines(r.body, 11)[0..];
  }

  lemma SuchAnAnswerShows()
    ensures SuchAnAnswer().Reply? && !SuchAnAnswer().eventStream
    ensures SuchAnAnswer().Prefix() == Newlines(10) && SuchAnAnswer().Full() == Newlines(10) + PATTERNS[1]
  {
    EmptyText(10);
    hide PATTERNS, Newlines, NoLines, Stream.Text;
    assert Stream.Buffered(SuchAnAnswer().lines) == NoLines(10);
  }

  lemma MessageIsOneLine()
    ensures Stream.ScanLines(PATTERNS[1]) == [PATTERNS[1]]
  {
    assert '\n' !in PATTERNS[1];
    assert PATTERNS[1][|PATTERNS[1]| - 1] == 'y';
    OneLine(PATTERNS[1]);
  }

  lemma OneLine(s: string)
    requires s != "" && '\n' !in s && s[|s| - 1] != '\r'
    ensures Stream.ScanLines(s) == [s]
  {
    assert s[..|s|] == s;
  }

  lemma MessageIsDetected(env: Env, message: string, short: string)
    requires message == PATTERNS[1] && |short| == 10
    ensures env.world.Blocked(message) && !env.world.Blocked(short)
  {
    var cs := env.world.chars;
    assert OccursAt(Lower(cs, message), Lower(cs, message), 0);
    FoundMeansDetected(cs, message, 1);
    assert forall k :: 0 <= k < |PATTERNS| ==> |PATTERNS[k]| > 10;
  }

  lemma {:induction false} EmptyLines(k: nat, tail: string)
    ensures Stream.ScanLines(Newlines(k) + tail) == NoLines(k) + Stream.ScanLines(tail)
    ensures Stream.AfterLines(Newlines(k) + tail, k) == tail
  {
    hide Stream.ScanLines, Stream.AfterLines;
    if k == 0 {
      EmptyLine(tail, 0);
      assert "" + tail == tail && [] + Stream.ScanLines(tail) == Stream.ScanLines(tail);
    } else {
      EmptyLines(k - 1, tail);
      EmptyLine(Newlines(k - 1) + tail, k - 1);
      assert Newlines(k) + tail == "\n" + (Newlines(k - 1) + tail);
      assert [""] + (NoLines(k - 1) + Stream.ScanLines(tail)) == NoLines(k) + Stream.ScanLines(tail);
    }
  }

  lemma EmptyLine(tail: string, k: nat)
    ensures Stream.ScanLines("\n" + tail) == [""] + Stream.ScanLines(tail)
    ensures Stream.AfterLines("\n" + tail, k + 1) == Stream.AfterLines(tail, k)
    ensures Stream.AfterLines(tail, 0) == tail
  {
    var body := "\n" + tail;
    assert body[1..] == tail && body[..0] == "" && IndexOf(body, '\n') == 0;
  }

  lemma {:induction false} EmptyText(k: nat)
    ensures Stream.Text(NoLines(k)) == Newlines(k)
  {
    if k > 0 {
      EmptyText(k - 1);
      Stream.TextConcat([""], NoLines(k - 1));
      assert Stream.Text([""]) == "\n" by {
        assert [""][..0] == [];
      }
    }
  }

  // ------------------------------------------------------ no reply at all

  lemma {:induction false} JSONAlwaysReplies(env: Env, p: Point, n: nat, original: Ending)
    requires !original.NoReply?
    ensures !JSONRetries(env, p, n, original).ending.NoReply?
    decreases n
  {
    JSONStep(env, p, n, original);
    hide Detect, JSONRetries, Point.Checked, Point.Fetched, Point.Exhausted;
    var q := p.Fetched(env);
    if n == 0 || p.Exhausted() {
    } else if !p.Token(env) {
      JSONAlwaysReplies(env, q.GiveUp(), n - 1, original);
    } else if q.Answer(env).Failed? {
      JSONAlwaysReplies(env, q.Sent(), n - 1, original);
    } else if !q.Answer(env).eventStream && env.world.Blocked(q.Answer(env).body) {
      JSONAlwaysReplies(env, q.Sent().Checked(env, q.Answer(env).body), n - 1, original);
    }
  }

  lemma DeliveryLost(env: Env, stream: bool, k: nat, p: Point)
    requires env.world.upstream(k).Reply?
    ensures var q := p.Checked(env, env.world.upstream(k).Prefix());
            Delivery(env, stream, k, p).ending.NoReply?
            <==> stream && env.world.Blocked(env.world.upstream(k).Prefix())
                 && exists i: nat, j: nat :: i + 1 + j < MAX_BLOCK_RETRIES && MissesAt(env, q, i, j)
  {
    var r := env.world.upstream(k);
    DeliveryIs(env, stream, k, p);
    WholeBodyIs(env, k, p);
    PlainRetriesClean(env, p.Checked(env, r.body), MAX_BLOCK_RETRIES);
    JSONAlwaysReplies(env, p.Checked(env, r.Full()), MAX_BLOCK_RETRIES, BodyReply(k, r.Full()));
    LostStream(env, p.Checked(env, r.Prefix()), MAX_BLOCK_RETRIES);
    hide Detect, StreamRetries, JSONRetries, PlainRetries, MissesAt, Point.Checked, World.LooksLikeSSE;
  }

  lemma RecoveryLost(env: Env, fallback: bool, first: Leg)
    requires Real(env, first) && first.fate.Answered?
    ensures var leg := After403(env, After401(env, first));
            Recovery(env, fallback, first).fate.Lost?
            <==> (Has(env, first, 401) && exists i: nat :: i < JWT_REFRESH_RETRIES && Loses(env, first.at, i))
                 || (Has(env, leg, 429) && exists i: nat :: i < RATE_LIMIT_RETRIES && FailsAt(env, leg.at, 429, i))
  {
    RecoveryStops(env, fallback, first);
    Lost401(env, first.at, JWT_REFRESH_RETRIES);
    Lost429(env, fallback, After403(env, After401(env, first)).at, RATE_LIMIT_RETRIES);
    hide Leg401, Leg429, Loses, FailsAt, Recovery;
  }

  /** Exactly when a request ends without a reply, in terms of the state before it and
      of the answers to come: a failed retry on 401 or 429, or one on a blocked stream
      after which another token comes. */
  lemma NoReplyExactly(env: Env, fallback: bool, cached: bool, stream: bool, p: Point)
    ensures var look := FirstLook(env, cached, p, JWT_REFRESH_RETRIES);
            var first := FirstAnswer(env, look.at, TIMEOUT_RETRIES + 1);
            var leg := After403(env, After401(env, first));
            var end := Recovery(env, fallback, first);
            Serving(env, fallback, cached, stream, p).ending.NoReply?
            <==> look.ok && first.fate.Answered?
                 && ((Has(env, first, 401) && exists i: nat :: i < JWT_REFRESH_RETRIES && Loses(env, first.at, i))
                     || (Has(env, leg, 429) && exists i: nat :: i < RATE_LIMIT_RETRIES && FailsAt(env, leg.at, 429, i))
                     || (stream && end.fate.Answered? && env.world.Blocked(env.world.upstream(end.fate.k).Prefix())
                         && exists i: nat, j: nat :: i + 1 + j < MAX_BLOCK_RETRIES
                              && MissesAt(env, end.at.Checked(env, env.world.upstream(end.fate.k).Prefix()), i, j)))
  {
    ServingIs(env, fallback, cached, stream, p);
    var look := FirstLook(env, cached, p, JWT_REFRESH_RETRIES);
    var first := FirstAnswer(env, look.at, TIMEOUT_RETRIES + 1);
    var end := Recovery(env, fallback, first);
    FirstIsNotLost(env, look.at, TIMEOUT_RETRIES + 1);
    SettledIs(env, fallback, stream, first);
    if first.fate.Answered? {
      RecoveryLost(env, fallback, first);
    }
    if end.fate.Answered? {
      DeliveryLost(env, stream, end.fate.k, end.at);
    }
    hide *;
  }

  /** Exactly when a body with the block message goes out, in terms of the state before
      the request and of the answers to come: only on a stream, where the answer that
      makes it through the status checks hides one and its retries are all useless, or
      starts with one and a retry is the first to hide one further down. */
  lemma BlockGoesOutExactly(env: Env, fallback: bool, cached: bool, stream: bool, p: Point)
    ensures var look := FirstLook(env, cached, p, JWT_REFRESH_RETRIES);
            var first := FirstAnswer(env, look.at, TIMEOUT_RETRIES + 1);
            var end := Recovery(env, fallback, first);
            PassesBlock(env, Serving(env, fallback, cached, stream, p).ending)
            <==> look.ok && first.fate.Answered? && stream && end.fate.Answered?
                 && var r := env.world.upstream(end.fate.k);
                    || (HidesBlock(env, r)
                        && exists m: nat :: GivesUpAt(env, end.at.Checked(env, r.Full()), MAX_BLOCK_RETRIES, m))
                    || (env.world.Blocked(r.Prefix())
                        && exists i: nat :: i < MAX_BLOCK_RETRIES && HiddenAt(env, end.at.Checked(env, r.Prefix()), i))
  {
    ServingIs(env, fallback, cached, stream, p);
    var look := FirstLook(env, cached, p, JWT_REFRESH_RETRIES);
    var first := FirstAnswer(env, look.at, TIMEOUT_RETRIES + 1);
    var end := Recovery(env, fallback, first);
    FirstIsNotLost(env, look.at, TIMEOUT_RETRIES + 1);
    SettledIs(env, fallback, stream, first);
    ErrorsPassNothing(env, look.at);
    ErrorsPassNothing(env, end.at);
    if end.fate.Answered? {
      BlockGoesOutOnStream(env, end.fate.k, end.at);
      NoBlockOutsideStreams(env, end.fate.k, end.at);
    }
    hide *;
  }

  lemma ErrorsPassNothing(env: Env, p: Point)
    ensures !PassesBlock(env, NoReply) && forall status :: !PassesBlock(env, ErrorReply(status))
  {
  }

  lemma {:induction false} FirstIsNotLost(env: Env, p: Point, n: nat)
    ensures !FirstAnswer(env, p, n).fate.Lost?
    decreases n
  {
    FirstAnswerStep(env, p, n);
    if n > 0 && p.Answer(env).Failed? {
      FirstIsNotLost(env, p.Sent().Turn(), n - 1);
    }
  }

  /** The shortest way there: the first answer is a 401, and the first retry fails. */
  lemma FirstRetryFails(env: Env, fallback: bool, stream: bool, p: Point)
    requires TokenAt(env, p, 0) && TokenAt(env, p, 1) && !p.Fetched(env).Empty()
    requires env.world.upstream(p.forwards).Reply? && env.world.upstream(p.forwards).status == 401
    requires env.world.upstream(p.forwards + 1).Failed?
    ensures Serving(env, fallback, false, stream, p).ending.NoReply?
  {
    var q := p.Fetched(env);
    BeginsWith(env, fallback, stream, p);
    var first := Leg(Answered(p.forwards), q.Sent());
    assert Tokens(env, q.Sent(), 0) == 0;
    assert FailsAt(env, q.Sent(), 401, 0);
    LastsShift(env, q.Sent(), 0);
    assert Loses(env, q.Sent(), 0);
    NoReplyExactly(env, fallback, false, stream, p);
  }

  /** A whole request that ends with a blocked body on a stream: its first answer hides
      the message, and the token for it was the last for a while. */
  lemma LastTokenPassesBlock(env: Env, fallback: bool, p: Point)
    requires TokenAt(env, p, 0) && forall i: nat :: 0 < i <= MAX_BLOCK_RETRIES ==> !TokenAt(env, p, i)
    requires HidesBlock(env, env.world.upstream(p.forwards))
    requires env.world.upstream(p.forwards).status !in {401, 403, 429}
    ensures var ending := Serving(env, fallback, false, true, p).ending;
            ending == BodyReply(p.forwards, env.world.upstream(p.forwards).Full()) && PassesBlock(env, ending)
  {
    hide *;
    HidesBlockMeans(env, env.world.upstream(p.forwards), p.forwards);
    BeginsWith(env, fallback, true, p);
    PassedLook(env, p);
    NoTokensPassBlock(env, p.forwards, p.Fetched(env).Sent());
  }

  lemma HidesBlockMeans(env: Env, r: Reply, k: nat)
    requires HidesBlock(env, r)
    ensures r.Reply? && PassesBlock(env, BodyReply(k, r.Full()))
  {
    hide Detect;
  }

  lemma PassedLook(env: Env, p: Point)
    ensures forall i: nat :: TokenAt(env, p.Fetched(env).Sent(), i) == TokenAt(env, p, i + 1)
  {
  }

  /** A token at the first look and an answer to the first request. */
  lemma BeginsWith(env: Env, fallback: bool, stream: bool, p: Point)
    requires TokenAt(env, p, 0) && env.world.upstream(p.forwards).Reply?
    ensures var first := Leg(Answered(p.forwards), p.Fetched(env).Sent());
            && FirstLook(env, false, p, JWT_REFRESH_RETRIES) == Look(true, p.Fetched(env))
            && FirstAnswer(env, p.Fetched(env), TIMEOUT_RETRIES + 1) == first
            && (env.world.upstream(p.forwards).status !in {401, 403, 429} ==>
                  Serving(env, fallback, false, stream, p) == Delivery(env, stream, p.forwards, first.at))
  {
    var q := p.Fetched(env);
    var first := Leg(Answered(p.forwards), q.Sent());
    FirstLookStep(env, false, p, JWT_REFRESH_RETRIES);
    FirstAnswerStep(env, q, TIMEOUT_RETRIES + 1);
    hide RouteOf, FirstLook, FirstAnswer, Recovery, Settled, Serving, Delivery, After401, After403, After429;
    assert p.Token(env) && q.Answer(env) == env.world.upstream(p.forwards);
    ServingIs(env, fallback, false, stream, p);
    SettledIs(env, fallback, stream, first);
    RecoveryStops(env, fallback, first);
    ChecksAre(env, fallback, first);
  }

  // ------------------------------------------------------ nothing stale goes out

  /** What goes out, if it is an upstream's, answers the last request made. */
  ghost predicate Newest(close: Close) {
    match close.ending
    case BareReply(k) => k + 1 == close.at.forwards
    case BodyReply(k, _) => k + 1 == close.at.forwards
    case StreamReply(k) => k + 1 == close.at.forwards
    case _ => true
  }

  ghost predicate NewestLeg(leg: Leg) {
    leg.fate.Answered? ==> leg.fate.k + 1 == leg.at.forwards
  }

  lemma {:induction false} NewestFirst(env: Env, p: Point, n: nat)
    ensures NewestLeg(FirstAnswer(env, p, n))
    decreases n
  {
    FirstAnswerStep(env, p, n);
    hide FirstAnswer;
    if n > 0 && p.Answer(env).Failed? {
      NewestFirst(env, p.Sent().Turn(), n - 1);
    }
  }

  lemma {:induction false} Newest401(env: Env, p: Point, n: nat)
    ensures NewestLeg(Leg401(env, p, n, true))
    decreases n
  {
    Leg401Step(env, p, n, true);
    hide Leg401, RouteOf, Point.Turn, Point.Fetched;
    var q := p.Turn().Fetched(env);
    if n > 0 && !p.Empty() {
      if p.Turn().Token(env) {
        LostStays401(env, q.Sent(), n - 1);
        Newest401(env, q.Sent(), n - 1);
      } else {
        Newest401(env, q, n - 1);
      }
    }
  }

  lemma {:induction false} Newest429(env: Env, fallback: bool, p: Point, n: nat)
    ensures NewestLeg(Leg429(env, fallback, p, n, true))
    decreases n
  {
    Leg429Step(env, fallback, p, n, true);
    hide Leg429, RouteOf, Point.Turn, Point.Fetched;
    var q := p.Turn().Fetched(env);
    if n > 0 {
      if p.Turn().Token(env) {
        LostStays429(env, fallback, q.Sent(), n - 1);
        Newest429(env, fallback, q.Sent(), n - 1);
      } else {
        Newest429(env, fallback, q, n - 1);
      }
    }
  }

  lemma PassedNewest(env: Env, k: nat, p: Point)
    requires env.world.upstream(k).Reply? && k + 1 == p.forwards
    ensures Newest(Forecast.Passed(env, k, p))
  {
    PassedOn(env, k, p);
  }

  lemma PassedOn(env: Env, k: nat, p: Point)
    requires env.world.upstream(k).Reply?
    ensures Forecast.Passed(env, k, p).at.forwards == p.forwards
    ensures Forecast.Passed(env, k, p).ending.StreamReply? || Forecast.Passed(env, k, p).ending.BodyReply?
    ensures match Forecast.Passed(env, k, p).ending
            case StreamReply(j) => j == k
            case BodyReply(j, _) => j == k
            case _ => true
  {
    hide Detect;
  }

  lemma {:induction false} NewestStream(env: Env, p: Point, n: nat, have: bool)
    ensures Newest(StreamRetries(env, p, n, have))
    decreases n
  {
    StreamStep(env, p, n, have);
    hide StreamRetries, Detect, Forecast.Passed, RouteOf, Point.Exhausted;
    var q := p.Fetched(env);
    if n == 0 || p.Exhausted() {
    } else if !p.Token(env) {
      NewestStream(env, q.GiveUp(), n - 1, have);
    } else if !have {
    } else if q.Answer(env).Failed? {
      NewestStream(env, q.Sent(), n - 1, false);
    } else if env.world.Blocked(q.Answer(env).Prefix()) {
      NewestStream(env, q.Sent().Checked(env, q.Answer(env).Prefix()), n - 1, true);
    } else {
      PassedNewest(env, q.forwards, q.Sent());
    }
  }

  lemma {:induction false} NewestBody(env: Env, p: Point, n: nat, original: Ending)
    ensures JSONRetries(env, p, n, original).ending == original || Newest(JSONRetries(env, p, n, original))
    decreases n
  {
    JSONStep(env, p, n, original);
    hide JSONRetries, Detect, RouteOf, Point.Exhausted, Point.Fetched;
    var q := p.Fetched(env);
    if n == 0 || p.Exhausted() {
    } else if !p.Token(env) {
      NewestBody(env, q.GiveUp(), n - 1, original);
    } else if q.Answer(env).Failed? {
      NewestBody(env, q.Sent(), n - 1, original);
    } else if !q.Answer(env).eventStream && env.world.Blocked(q.Answer(env).body) {
      NewestBody(env, q.Sent().Checked(env, q.Answer(env).body), n - 1, original);
    }
  }

  lemma {:induction false} NewestPlain(env: Env, p: Point, n: nat)
    ensures Newest(PlainRetries(env, p, n))
    decreases n
  {
    PlainStep(env, p, n);
    hide PlainRetries, Detect, RouteOf, Point.Exhausted, Point.Fetched;
    var q := p.Fetched(env);
    if n == 0 || p.Exhausted() {
    } else if !p.Token(env) {
      NewestPlain(env, q.GiveUp(), n - 1);
    } else if q.Answer(env).Failed? || q.Answer(env).readError {
      NewestPlain(env, q.Sent(), n - 1);
    } else if env.world.Blocked(q.Answer(env).body) {
      NewestPlain(env, q.Sent().Checked(env, q.Answer(env).body), n - 1);
    }
  }

  /** Whatever of an upstream's is passed on answers the last request made, except for
      a blocked body that goes out on a stream after its retries brought nothing. */
  lemma NothingStale(env: Env, fallback: bool, cached: bool, stream: bool, p: Point)
    ensures var close := Serving(env, fallback, cached, stream, p);
            Newest(close) || (stream && PassesBlock(env, close.ending))
  {
    var look := FirstLook(env, cached, p, JWT_REFRESH_RETRIES);
    var first := FirstAnswer(env, look.at, TIMEOUT_RETRIES + 1);
    ServingIs(env, fallback, cached, stream, p);
    if look.ok {
      NewestFirst(env, look.at, TIMEOUT_RETRIES + 1);
      NewestRecovery(env, fallback, first);
      SettledIs(env, fallback, stream, first);
      var leg := Recovery(env, fallback, first);
      if leg.fate.Answered? {
        NewestDelivery(env, stream, leg.fate.k, leg.at);
      }
    }
    hide *;
    assert look.ok || Newest(Close(ErrorReply(401), look.at)) by {
      NewestErrors(look.at);
    }
    NewestErrors(Recovery(env, fallback, first).at);
  }

  lemma NewestErrors(p: Point)
    ensures Newest(Close(NoReply, p)) && forall status :: Newest(Close(ErrorReply(status), p))
  {
  }

  lemma NewestRecovery(env: Env, fallback: bool, first: Leg)
    requires Real(env, first) && NewestLeg(first)
    ensures NewestLeg(Recovery(env, fallback, first))
  {
    var second := After401(env, first);
    var third := After403(env, second);
    Newest401(env, first.at, JWT_REFRESH_RETRIES);
    Newest429(env, fallback, third.at, RATE_LIMIT_RETRIES);
    hide Leg401, Leg429, RouteOf;
  }

  lemma NewestDelivery(env: Env, stream: bool, k: nat, p: Point)
    requires env.world.upstream(k).Reply? && k + 1 == p.forwards
    ensures Newest(Delivery(env, stream, k, p)) || (stream && PassesBlock(env, Delivery(env, stream, k, p).ending))
  {
    var r := env.world.upstream(k);
    DeliveryIs(env, stream, k, p);
    WholeBodyIs(env, k, p);
    NewestStream(env, p.Checked(env, r.Prefix()), MAX_BLOCK_RETRIES, true);
    NewestPlain(env, p.Checked(env, r.body), MAX_BLOCK_RETRIES);
    NewestBody(env, p.Checked(env, r.Full()), MAX_BLOCK_RETRIES, BodyReply(k, r.Full()));
    hide Detect, StreamRetries, JSONRetries, PlainRetries, Point.Checked, World.LooksLikeSSE;
  }
}
