// How a request ends well, or with an error of the handler's own, read off the answers
// of the outside before it begins: which answer goes out, and when it is 401, 403, 429
// or 502.
module Outcomes {
  import opened Addresses
  import opened Endings
  import opened Fleets
  import opened Forecast
  import Compliance
  import Rotation

  // ------------------------------------------------------ the first token

  /** The bootstrap endpoint hands out a token. */
  ghost predicate Brings(b: BootReply) {
    exists jwt :: jwt != "" && b == Answer(200, jwt)
  }

  ghost predicate BringsAt(env: Env, p: Point, i: nat) {
    Brings(env.world.bootstrap(p.fetches + i))
  }

  lemma TokenIs(env: Env, p: Point, i: nat)
    ensures TokenAt(env, p, i) <==> BringsAt(env, p, i)
  {
    var b := env.world.bootstrap(p.fetches + i);
    if TokenAt(env, p, i) {
      assert b == Answer(200, b.jwt);
    }
  }

  /** The state after `i` looks in vain, each followed by a move to the next address. */
  ghost function Waited(env: Env, p: Point, i: nat): Point
    decreases i
  {
    if i == 0 then p else Waited(env, p.Fetched(env).Turn(), i - 1)
  }

  /** The first `i` looks bring no token, and after each there is still somebody. */
  ghost predicate InVain(env: Env, p: Point, i: nat) {
    forall j: nat :: j < i ==> !TokenAt(env, p, j) && !Waited(env, p, j).Fetched(env).Empty()
  }

  lemma InVainShift(env: Env, p: Point, i: nat)
    ensures var next := p.Fetched(env).Turn();
            && Waited(env, p, i + 1) == Waited(env, next, i) && Waited(env, p, 0) == p
            && TokenAt(env, p, i + 1) == TokenAt(env, next, i)
            && (InVain(env, p, i + 1) ==> !TokenAt(env, p, 0) && !p.Fetched(env).Empty() && InVain(env, next, i))
  {
    var next := p.Fetched(env).Turn();
    assert next.fetches == p.fetches + 1;
    assert forall j: nat :: TokenAt(env, p, j + 1) == TokenAt(env, next, j);
    assert forall j: nat :: Waited(env, p, j + 1) == Waited(env, next, j);
    assert Waited(env, p, 0) == p;
    hide TokenAt, Waited, Point.Fetched, Point.Turn, Point.Empty;
    if InVain(env, p, i + 1) {
      assert !TokenAt(env, p, 0);
      forall j: nat | j < i
        ensures !TokenAt(env, next, j) && !Waited(env, next, j).Fetched(env).Empty()
      {
        assert !TokenAt(env, p, j + 1);
      }
    }
  }

  lemma TokenIsNext(env: Env, p: Point)
    ensures p.Token(env) == TokenAt(env, p, 0)
  {
  }

  /** Without a token in the cache: the first look to bring a token, or to leave nobody
      in the rotator, decides; if there is none, the looks have failed. All that they
      change is what their bootstrap requests and the moves between them did. */
  lemma {:induction false} FirstLookExactly(env: Env, p: Point, n: nat, i: nat)
    requires i <= n && InVain(env, p, i)
    ensures i < n && (TokenAt(env, p, i) || Waited(env, p, i).Fetched(env).Empty()) ==>
      FirstLook(env, false, p, n) == Look(TokenAt(env, p, i), Waited(env, p, i).Fetched(env))
    ensures i == n ==> FirstLook(env, false, p, n) == Look(false, Waited(env, p, n))
    decreases n
  {
    hide *;
    FirstLookStep(env, false, p, n);
    TokenIsNext(env, p);
    InVainShift(env, p, if i > 0 then i - 1 else 0);
    if i > 0 {
      FirstLookExactly(env, p.Fetched(env).Turn(), n - 1, i - 1);
    }
  }

  // ------------------------------------------------------ the first answer

  /** The rotator `i` moves on. */
  ghost function Moved(fleet: Fleet, i: nat): Fleet {
    if fleet.Head().None? then fleet
    else
      var ring := fleet.ring.value;
      fleet.(ring := Some(Rotation.Ring(ring.list, (ring.index + i) % |ring.list|)))
  }

  lemma MovedStep(fleet: Fleet, i: nat)
    ensures Moved(fleet, 0) == fleet && Moved(fleet.Turn(), i) == Moved(fleet, i + 1)
  {
    if fleet.Head().Some? {
      var ring := fleet.ring.value;
      Around(ring.index, i, |ring.list|);
    }
  }

  lemma Around(k: nat, i: nat, n: nat)
    requires k < n
    ensures ((k + 1) % n + i) % n == (k + (i + 1)) % n && (k + 0) % n == k
  {
    Remainder(k, n, 0, k);
    if k + 1 == n {
      Remainder(n, n, 1, 0);
      OnceAround(i, n);
      assert k + (i + 1) == n + i;
    } else {
      Remainder(k + 1, n, 0, k + 1);
      assert k + (i + 1) == (k + 1) + i;
    }
  }

  lemma OnceAround(i: nat, n: nat)
    requires n > 0
    ensures (n + i) % n == i % n
  {
    Remainder(n + i, n, i / n + 1, i % n);
  }

  lemma Remainder(x: nat, n: nat, q: nat, r: nat)
    requires r < n && x == q * n + r
    ensures x % n == r
  {
    Multiple(x / n - q, n);
    assert (x / n - q) * n == r - x % n;
  }

  lemma Multiple(d: int, n: nat)
    ensures d >= 1 ==> d * n >= n
    ensures d <= -1 ==> d * n + n <= 0
  {
    if d >= 1 {
      assert (d - 1) * n >= 0;
    } else if d <= -1 {
      assert (-d - 1) * n >= 0;
    }
  }

  ghost predicate FailedAt(env: Env, p: Point, i: nat) {
    env.world.upstream(p.forwards + i).Failed?
  }

  /** Of the first requests the first that is answered at all counts, and a move comes
      after each before it; if none is answered, it is a 502. */
  lemma {:induction false} FirstAnswerExactly(env: Env, p: Point, n: nat, i: nat)
    requires i <= n && forall j: nat :: j < i ==> FailedAt(env, p, j)
    ensures i < n && env.world.upstream(p.forwards + i).Reply? ==>
      FirstAnswer(env, p, n) == Leg(Answered(p.forwards + i), Point(Moved(p.fleet, i), p.fetches, p.forwards + i + 1))
    ensures i == n ==>
      FirstAnswer(env, p, n) == Leg(Refused(502), Point(Moved(p.fleet, n), p.fetches, p.forwards + n))
    decreases n
  {
    FirstAnswerStep(env, p, n);
    MovedStep(p.fleet, if i > 0 then i - 1 else 0);
    hide FirstAnswer, Moved, Fleet.Turn;
    if i > 0 {
      assert FailedAt(env, p, 0);
      var next := p.Sent().Turn();
      forall j: nat | j < i - 1 ensures FailedAt(env, next, j) {
        assert FailedAt(env, p, j + 1);
      }
      FirstAnswerExactly(env, next, n - 1, i - 1);
    }
  }

  // ------------------------------------------------------ 401, 403 and 429

  /** The i-th retry is the first with an answer of another status, after none but
      answers with this one. */
  ghost predicate DiffersAt(env: Env, p: Point, status: int, i: nat) {
    && TokenAt(env, p, i) && AnswerAt(env, p, i).Reply? && AnswerAt(env, p, i).status != status
    && Unchanged(env, p, status, i)
  }

  /** Whatever the first `m` retries brought had this status. */
  ghost predicate Unchanged(env: Env, p: Point, status: int, m: nat) {
    forall j: nat :: j < m && TokenAt(env, p, j) ==>
      AnswerAt(env, p, j).Reply? && AnswerAt(env, p, j).status == status
  }

  /** The first retry brought nothing new. */
  ghost predicate NothingNew(env: Env, p: Point, status: int) {
    TokenAt(env, p, 0) ==> AnswerAt(env, p, 0).Reply? && AnswerAt(env, p, 0).status == status
  }

  lemma UnchangedShift(env: Env, p: Point, status: int, m: nat)
    ensures var next := RetryPassed(env, p);
            && (Unchanged(env, p, status, m + 1) <==> NothingNew(env, p, status) && Unchanged(env, next, status, m))
            && (DiffersAt(env, p, status, m + 1) <==> NothingNew(env, p, status) && DiffersAt(env, next, status, m))
            && p.forwards + Tokens(env, p, m + 1) == next.forwards + Tokens(env, next, m)
    ensures Unchanged(env, p, status, 0) && Tokens(env, p, 0) == 0
    ensures DiffersAt(env, p, status, 0) <==>
              TokenAt(env, p, 0) && AnswerAt(env, p, 0).Reply? && AnswerAt(env, p, 0).status != status
  {
    var next := RetryPassed(env, p);
    RetryPassedIs(env, p);
    Shift(env, p, next);
    TokensShift(env, p, next, m);
    assert Tokens(env, p, 0) == 0;
    hide TokenAt, AnswerAt, RetryPassed, Tokens;
    if Unchanged(env, p, status, m + 1) {
      forall j: nat | j < m && TokenAt(env, next, j)
        ensures AnswerAt(env, next, j).Reply? && AnswerAt(env, next, j).status == status
      {
        assert TokenAt(env, p, j + 1);
      }
    }
    if NothingNew(env, p, status) && Unchanged(env, next, status, m) {
      forall j: nat | 0 < j < m + 1 && TokenAt(env, p, j)
        ensures AnswerAt(env, p, j).Reply? && AnswerAt(env, p, j).status == status
      {
        assert TokenAt(env, p, (j - 1) + 1) == TokenAt(env, next, j - 1);
        assert AnswerAt(env, p, (j - 1) + 1) == AnswerAt(env, next, j - 1);
      }
    }
  }

  lemma Leg401Goes(env: Env, p: Point, n: nat)
    ensures n == 0 || p.Empty() ==> Leg401(env, p, n, true).fate == Refused(401)
    ensures n > 0 && !p.Empty() && NothingNew(env, p, 401) ==>
      Leg401(env, p, n, true) == Leg401(env, RetryPassed(env, p), n - 1, true)
    ensures n > 0 && !p.Empty() && DiffersAt(env, p, 401, 0) ==>
      Leg401(env, p, n, true).fate == Answered(p.forwards)
  {
    Leg401Step(env, p, n, true);
    RetryPassedIs(env, p);
    hide Leg401, AnswerAt, Point.Answer, Point.Token;
  }

  /** After a 401: the first retry with an answer of another status brings the answer,
      if the rotator lasts that long. If all bring another 401 or no token, or only
      those until the rotator is empty, it is a 401. */
  lemma {:induction false} Outcome401(env: Env, p: Point, n: nat, i: nat)
    requires i <= n && (forall j: nat :: j < i ==> !Walk(env, p, j).Empty())
    ensures i < n && !Walk(env, p, i).Empty() && DiffersAt(env, p, 401, i) ==>
      Leg401(env, p, n, true).fate == Answered(p.forwards + Tokens(env, p, i))
    ensures (i == n || Walk(env, p, i).Empty()) && Unchanged(env, p, 401, i) ==>
      Leg401(env, p, n, true).fate == Refused(401)
    decreases n
  {
    hide *;
    Leg401Goes(env, p, n);
    UnchangedShift(env, p, 401, if i > 0 then i - 1 else 0);
    WalkShift(env, p);
    if i > 0 {
      var next := RetryPassed(env, p);
      assert !Walk(env, p, 0).Empty();
      forall j: nat | j < i - 1 ensures !Walk(env, next, j).Empty() {
        assert !Walk(env, p, j + 1).Empty();
      }
      assert Walk(env, p, (i - 1) + 1) == Walk(env, next, i - 1);
      Outcome401(env, next, n - 1, i - 1);
    }
  }

  lemma WalkShift(env: Env, p: Point)
    ensures Walk(env, p, 0) == p
    ensures forall j: nat :: Walk(env, p, j + 1) == Walk(env, RetryPassed(env, p), j)
  {
    hide RetryPassed;
  }

  /** After a 403: the request is repeated once, with a fresh token from after the
      current address has gone. */
  lemma Outcome403(env: Env, p: Point)
    ensures Leg403(env, p).fate
            == if !BringsAt(env, p, 0) then Refused(401)
               else if env.world.upstream(p.forwards).Failed? then Refused(502)
               else Answered(p.forwards)
    ensures Leg403(env, p).at.fetches == p.fetches + 1
  {
    Leg403Step(env, p);
    TokenIs(env, p, 0);
    assert p.Forbid().fetches == p.fetches && p.Forbid().forwards == p.forwards;
    hide Leg403, RouteOf, Fleet.Forbid, Fleet.Booted;
  }

  /** What the fallback, if it is on, makes of the answer it gets. */
  ghost function LastWord(env: Env, fallback: bool, k: nat): Fate {
    var r := env.world.upstream(k);
    if fallback && r.Reply? && r.status != 429 then Answered(k) else Refused(429)
  }

  lemma Leg429Goes(env: Env, fallback: bool, p: Point, n: nat)
    ensures n == 0 ==>
      Leg429(env, fallback, p, n, true).fate == LastWord(env, fallback, p.forwards)
    ensures n > 0 && NothingNew(env, p, 429) ==>
      Leg429(env, fallback, p, n, true) == Leg429(env, fallback, RetryPassed(env, p), n - 1, true)
    ensures n > 0 && DiffersAt(env, p, 429, 0) ==> Leg429(env, fallback, p, n, true).fate == Answered(p.forwards)
  {
    Leg429Step(env, fallback, p, n, true);
    FallbackStep(env, p);
    RetryPassedIs(env, p);
    assert p.Fetched(env).forwards == p.forwards;
    hide Leg429, Fallback, AnswerAt, Point.Token, Point.Fetched;
  }

  /** After a 429: the first retry with an answer of another status brings the answer,
      whoever is left in the rotator. If all bring another 429 or no token, the fallback
      has the last word, if it is on, and else it is a 429. */
  lemma {:induction false} Outcome429(env: Env, fallback: bool, p: Point, n: nat, i: nat)
    requires i <= n
    ensures i < n && DiffersAt(env, p, 429, i) ==>
      Leg429(env, fallback, p, n, true).fate == Answered(p.forwards + Tokens(env, p, i))
    ensures i == n && Unchanged(env, p, 429, n) ==>
      Leg429(env, fallback, p, n, true).fate == LastWord(env, fallback, p.forwards + Tokens(env, p, n))
    decreases n
  {
    Leg429Goes(env, fallback, p, n);
    UnchangedShift(env, p, 429, if i > 0 then i - 1 else 0);
    hide *;
    if i > 0 {
      Outcome429(env, fallback, RetryPassed(env, p), n - 1, i - 1);
    }
  }

  // ------------------------------------------------------ blocked answers

  /** What a clean answer to a retry of a stream becomes. */
  ghost function Handed(env: Env, k: nat): Ending
    requires env.world.upstream(k).Reply?
  {
    if env.world.LooksLikeSSE(env.world.upstream(k)) then StreamReply(k)
    else BodyReply(k, env.world.upstream(k).Full())
  }

  /** The i-th retry of a stream is the first that is not answered with a block message. */
  ghost predicate ClearsAt(env: Env, p: Point, i: nat) {
    && BlockedUpTo(env, p, i) && TokenAt(env, p, i)
    && AnswerAt(env, p, i).Reply? && !env.world.Blocked(AnswerAt(env, p, i).Prefix())
  }

  lemma ClearsShift(env: Env, p: Point, i: nat)
    ensures ClearsAt(env, p, 0) <==>
              && !p.Exhausted() && TokenAt(env, p, 0)
              && AnswerAt(env, p, 0).Reply? && !env.world.Blocked(AnswerAt(env, p, 0).Prefix())
    ensures ClearsAt(env, p, i + 1) <==> StillBlocked(env, p) && ClearsAt(env, StreamPassed(env, p), i)
    ensures p.forwards + Tokens(env, p, i + 1)
            == StreamPassed(env, p).forwards + Tokens(env, StreamPassed(env, p), i)
    ensures Tokens(env, p, 0) == 0 && p.Fetched(env).forwards == p.forwards
  {
    StreamPassedIs(env, p);
    Shift(env, p, StreamPassed(env, p));
    TokensShift(env, p, StreamPassed(env, p), i);
    BlockedShift(env, p, i);
    assert Tokens(env, p, 0) == 0;
    hide TokenAt, AnswerAt, StreamPassed, BlockedUpTo, Compliance.Detect;
  }

  lemma {:induction false} NoneOnceFailed(env: Env, p: Point, n: nat)
    ensures StreamRetries(env, p, n, false).ending in {NoReply, ErrorReply(403)}
    decreases n
  {
    StreamStep(env, p, n, false);
    hide StreamRetries, Point.Exhausted, Point.Token, Point.Fetched;
    if n > 0 && !p.Token(env) && !p.Exhausted() {
      NoneOnceFailed(env, p.Fetched(env).GiveUp(), n - 1);
    }
  }

  /** The streaming block retry hands the first answer that clears the inspection to the
      client. */
  lemma {:induction false} OutcomeStream(env: Env, p: Point, n: nat, i: nat)
    requires i < n && ClearsAt(env, p, i)
    ensures env.world.upstream(p.forwards + Tokens(env, p, i)).Reply?
    ensures StreamRetries(env, p, n, true).ending == Handed(env, p.forwards + Tokens(env, p, i))
    decreases n
  {
    hide StreamRetries, TokenAt, StreamPassed, Compliance.Detect, Point.Exhausted, BlockedUpTo, Tokens;
    hide World.LooksLikeSSE, Point.Fetched, ClearsAt, Reply.Full, Reply.Prefix;
    StreamCases(env, p, n);
    ClearsShift(env, p, if i > 0 then i - 1 else 0);
    if i > 0 {
      OutcomeStream(env, StreamPassed(env, p), n - 1, i - 1);
    }
  }

  /** Without such an answer it ends in a 403, or without a reply. */
  lemma {:induction false} StreamNeedsAnswer(env: Env, p: Point, n: nat) returns (i: nat)
    requires StreamRetries(env, p, n, true).ending !in {NoReply, ErrorReply(403)}
    ensures i < n && ClearsAt(env, p, i)
    decreases n
  {
    hide StreamRetries, TokenAt, StreamPassed, Compliance.Detect, Point.Exhausted, BlockedUpTo, Tokens;
    hide World.LooksLikeSSE, Point.Fetched, ClearsAt, Reply.Full, Reply.Prefix, AnswerAt;
    var next := StreamPassed(env, p);
    StreamCases(env, p, n);
    ClearsShift(env, p, 0);
    NoneOnceFailed(env, next, if n > 0 then n - 1 else 0);
    if StillBlocked(env, p) {
      i := StreamNeedsAnswer(env, next, n - 1);
      ClearsShift(env, p, i);
      i := i + 1;
    } else {
      i := 0;
    }
  }

  /** The first `i` retries of a blocked body bring nothing, and there is still somebody
      for the next. */
  ghost predicate AllUseless(env: Env, p: Point, i: nat) {
    forall j: nat :: j < i ==> Useless(env, p, j) && !BodyWalk(env, p, j).Exhausted()
  }

  lemma AllUselessShift(env: Env, p: Point, i: nat)
    ensures var next := BodyPassed(env, p);
            && (AllUseless(env, p, i + 1) ==>
                  Useless(env, p, 0) && !p.Exhausted() && AllUseless(env, next, i))
            && Useless(env, p, i + 1) == Useless(env, next, i)
            && BodyWalk(env, p, i + 1) == BodyWalk(env, next, i) && BodyWalk(env, p, 0) == p
            && AnswerAt(env, p, i + 1) == AnswerAt(env, next, i)
            && p.forwards + Tokens(env, p, i + 1) == next.forwards + Tokens(env, next, i)
    ensures Tokens(env, p, 0) == 0
  {
    var next := BodyPassed(env, p);
    assert Tokens(env, p, 0) == 0;
    assert next.fetches == p.fetches + 1 && next.forwards == p.forwards + if TokenAt(env, p, 0) then 1 else 0 by {
      hide Compliance.Detect;
    }
    Shift(env, p, next);
    TokensShift(env, p, next, i);
    assert forall j: nat :: BodyWalk(env, p, j + 1) == BodyWalk(env, next, j);
    assert BodyWalk(env, p, 0) == p;
    assert forall j: nat :: Useless(env, p, j + 1) == Useless(env, next, j) by {
      hide TokenAt, AnswerAt, BodyPassed, Compliance.Detect;
    }
    hide TokenAt, AnswerAt, BodyPassed, BodyWalk, Useless, Tokens, Point.Exhausted, Compliance.Detect;
    if AllUseless(env, p, i + 1) {
      assert Useless(env, p, 0) && !BodyWalk(env, p, 0).Exhausted();
      forall j: nat | j < i ensures Useless(env, next, j) && !BodyWalk(env, next, j).Exhausted() {
        assert Useless(env, p, j + 1) && !BodyWalk(env, p, j + 1).Exhausted();
      }
    }
  }

  lemma JSONGoes(env: Env, p: Point, n: nat, original: Ending)
    ensures var close := JSONRetries(env, p, n, original);
            && (n == 0 || p.Exhausted() ==> close.ending == original)
            && (n > 0 && !p.Exhausted() && Useless(env, p, 0) ==>
                  close == JSONRetries(env, BodyPassed(env, p), n - 1, original))
            && (n > 0 && !p.Exhausted() && !Useless(env, p, 0) ==>
                  close.ending == if AnswerAt(env, p, 0).eventStream then StreamReply(p.forwards)
                                  else BodyReply(p.forwards, AnswerAt(env, p, 0).body))
  {
    JSONStep(env, p, n, original);
    assert Tokens(env, p, 0) == 0 && p.Fetched(env).forwards == p.forwards;
    hide JSONRetries, Compliance.Detect, RouteOf;
  }

  /** The retries of a blocked body on a stream: the first answer that is a stream, or is
      not blocked, goes out; without one, or with nobody left in the rotator, the blocked
      body does. */
  lemma {:induction false} OutcomeBody(env: Env, p: Point, n: nat, original: Ending, i: nat)
    requires i <= n && AllUseless(env, p, i)
    ensures i < n && !BodyWalk(env, p, i).Exhausted() && !Useless(env, p, i) ==>
      var k, r := p.forwards + Tokens(env, p, i), AnswerAt(env, p, i);
      JSONRetries(env, p, n, original).ending == if r.eventStream then StreamReply(k) else BodyReply(k, r.body)
    ensures i == n || BodyWalk(env, p, i).Exhausted() ==> JSONRetries(env, p, n, original).ending == original
    decreases n
  {
    hide *;
    JSONGoes(env, p, n, original);
    AllUselessShift(env, p, if i > 0 then i - 1 else 0);
    UselessHas(env, p, i);
    if i > 0 {
      OutcomeBody(env, BodyPassed(env, p), n - 1, original, i - 1);
    }
  }

  lemma UselessHas(env: Env, p: Point, i: nat)
    ensures !Useless(env, p, i) ==> AnswerAt(env, p, i).Reply?
  {
  }

  /** Outside of streams a retry only looks at bodies: an answer whose body cannot be
      read is none, and an event stream is a body like any other. */
  ghost function Readable(env: Env): Env {
    env.(world := env.world.(upstream := (k: nat) => AsBody(env.world.upstream(k))))
  }

  ghost function AsBody(r: Reply): Reply {
    if r.Failed? || r.readError then Failed else r.(eventStream := false)
  }

  lemma ReadableKeeps(env: Env, p: Point)
    ensures p.Fetched(Readable(env)) == p.Fetched(env) && p.Token(Readable(env)) == p.Token(env)
    ensures p.Answer(Readable(env)) == AsBody(p.Answer(env))
    ensures forall text :: p.Checked(Readable(env), text) == p.Checked(env, text)
    ensures forall text :: Readable(env).world.Blocked(text) == env.world.Blocked(text)
  {
    hide Compliance.Detect;
  }

  /** The retries of a blocked body outside of streams are those on a stream with only
      the bodies to look at, and with a 403 instead of the blocked body. */
  lemma {:induction false} PlainIsBody(env: Env, p: Point, n: nat)
    ensures PlainRetries(env, p, n) == JSONRetries(Readable(env), p, n, ErrorReply(403))
    decreases n
  {
    PlainStep(env, p, n);
    JSONStep(Readable(env), p, n, ErrorReply(403));
    ReadableKeeps(env, p);
    var q := p.Fetched(env);
    ReadableKeeps(env, q);
    ReadableKeeps(env, q.Sent());
    hide PlainRetries, JSONRetries, Readable, Compliance.Detect, Point.Exhausted, Point.Fetched, Point.Token;
    hide Point.Checked, World.Blocked, Point.GiveUp, Point.Answer;
    if n > 0 {
      PlainIsBody(env, q.GiveUp(), n - 1);
      PlainIsBody(env, q.Sent(), n - 1);
      if q.Answer(env).Reply? {
        PlainIsBody(env, q.Sent().Checked(env, q.Answer(env).body), n - 1);
      }
    }
  }

  /** So the first readable answer that is not blocked goes out; without one, or with
      nobody left in the rotator, it is a 403. */
  lemma OutcomePlain(env: Env, p: Point, n: nat, i: nat)
    requires i <= n && AllUseless(Readable(env), p, i)
    ensures i < n && !BodyWalk(Readable(env), p, i).Exhausted() && !Useless(Readable(env), p, i) ==>
      var k := p.forwards + Tokens(env, p, i);
      && env.world.upstream(k).Reply? && !env.world.upstream(k).readError
      && PlainRetries(env, p, n).ending == BodyReply(k, env.world.upstream(k).body)
    ensures i == n || BodyWalk(Readable(env), p, i).Exhausted() ==> PlainRetries(env, p, n).ending == ErrorReply(403)
  {
    hide *;
    PlainIsBody(env, p, n);
    OutcomeBody(Readable(env), p, n, ErrorReply(403), i);
    SameTokens(env, p, i);
    if !Useless(Readable(env), p, i) {
      PlainAnswer(env, p, i);
    }
  }

  lemma PlainAnswer(env: Env, p: Point, i: nat)
    requires !Useless(Readable(env), p, i)
    ensures var k := p.forwards + Tokens(env, p, i);
            var r := AnswerAt(Readable(env), p, i);
            && r.Reply? && !r.eventStream && env.world.upstream(k).Reply? && !env.world.upstream(k).readError
            && r.body == env.world.upstream(k).body
  {
    SameTokens(env, p, i);
    assert AnswerAt(Readable(env), p, i) == AsBody(env.world.upstream(p.forwards + Tokens(env, p, i)));
    hide Tokens, Compliance.Detect;
  }

  lemma {:induction false} SameTokens(env: Env, p: Point, i: nat)
    ensures Tokens(Readable(env), p, i) == Tokens(env, p, i)
  {
    if i > 0 {
      SameTokens(env, p, i - 1);
    }
  }

  // ------------------------------------------------------ the whole request

  lemma {:induction false} LooksInVain(env: Env, p: Point, n: nat)
    requires forall i: nat :: i < n ==> !TokenAt(env, p, i)
    ensures !FirstLook(env, false, p, n).ok
    decreases n
  {
    FirstLookStep(env, false, p, n);
    hide FirstLook, RouteOf;
    if n > 0 {
      assert !TokenAt(env, p, 0);
      var next := p.Fetched(env).Turn();
      forall i: nat | i < n - 1 ensures !TokenAt(env, next, i) {
        assert !TokenAt(env, p, i + 1);
      }
      LooksInVain(env, next, n - 1);
    }
  }

  /** If none of five bootstrap answers is a 200 with a token, the client gets a 401. */
  lemma NoTokenNoChat(env: Env, fallback: bool, stream: bool, p: Point)
    requires forall i: nat :: i < 5 ==> !BringsAt(env, p, i)
    ensures Serving(env, fallback, false, stream, p).ending == ErrorReply(401)
  {
    forall i: nat | i < 5 ensures !TokenAt(env, p, i) {
      TokenIs(env, p, i);
    }
    LooksInVain(env, p, 5);
    ServingIs(env, fallback, false, stream, p);
    hide Serving, FirstLook, Settled, FirstAnswer;
  }

  /** With a token, six requests without an answer are a 502. */
  lemma NobodyAnswers(env: Env, fallback: bool, cached: bool, stream: bool, p: Point)
    requires cached || BringsAt(env, p, 0)
    requires forall i: nat :: i < 6 ==> FailedAt(env, p, i)
    ensures Serving(env, fallback, cached, stream, p).ending == ErrorReply(502)
  {
    var q := Started(env, cached, p);
    forall i: nat | i < 6 ensures FailedAt(env, q, i) {
      assert FailedAt(env, p, i);
    }
    FirstAnswerExactly(env, q, 6, 6);
    ServingIs(env, fallback, cached, stream, p);
    hide Serving, FirstLook, Settled, FirstAnswer;
  }

  /** The state once the first look has brought a token. */
  lemma Started(env: Env, cached: bool, p: Point) returns (q: Point)
    requires cached || BringsAt(env, p, 0)
    ensures q == (if cached then p else p.Fetched(env)) && q.forwards == p.forwards
    ensures FirstLook(env, cached, p, JWT_REFRESH_RETRIES) == Look(true, q)
  {
    TokenIs(env, p, 0);
    FirstLookStep(env, cached, p, JWT_REFRESH_RETRIES);
    q := if cached then p else p.Fetched(env);
    hide FirstLook, RouteOf;
  }

  /** With a token, the first of up to six requests that is answered, with a status that
      asks for no retry and with clean text, is the one that goes out, whole: a stream
      as a stream, a body as a body, and of an unreadable body the status. */
  lemma CleanAnswerGoesOut(env: Env, fallback: bool, cached: bool, stream: bool, p: Point, i: nat)
    requires cached || BringsAt(env, p, 0)
    requires i < 6 && forall j: nat :: j < i ==> FailedAt(env, p, j)
    requires env.world.upstream(p.forwards + i).Reply?
    requires env.world.upstream(p.forwards + i).status !in {401, 403, 429}
    ensures var k, r := p.forwards + i, env.world.upstream(p.forwards + i);
            var ending := Serving(env, fallback, cached, stream, p).ending;
            && (!stream && r.readError ==> ending == BareReply(k))
            && (!stream && !r.readError && !env.world.Blocked(r.body) ==> ending == BodyReply(k, r.body))
            && (stream && !env.world.Blocked(r.Prefix()) && env.world.LooksLikeSSE(r) ==> ending == StreamReply(k))
            && (stream && !env.world.Blocked(r.Prefix()) && !env.world.LooksLikeSSE(r) ==>
                  !env.world.Blocked(r.Full()) ==> ending == BodyReply(k, r.Full()))
  {
    var k := p.forwards + i;
    var q := Started(env, cached, p);
    forall j: nat | j < i ensures FailedAt(env, q, j) {
      assert FailedAt(env, p, j);
    }
    FirstAnswerExactly(env, q, 6, i);
    var first := FirstAnswer(env, q, 6);
    assert first.fate == Answered(k);
    ServingIs(env, fallback, cached, stream, p);
    SettledIs(env, fallback, stream, first);
    RecoveryStops(env, fallback, first);
    ChecksAre(env, fallback, first);
    DeliveryIs(env, stream, k, first.at);
    WholeBodyIs(env, k, first.at);
    hide FirstLook, FirstAnswer, Recovery, Settled, Serving, Delivery, After401, After403, After429, WholeBody;
    hide Compliance.Detect, World.LooksLikeSSE, Reply.Full, Reply.Prefix, StreamRetries, PlainRetries, JSONRetries;
  }

  /** A stream that starts with a block message: the first of up to five retries whose
      answer clears the inspection goes out; without any it is a 403, or no reply. */
  lemma BlockedStreamIsRetried(env: Env, k: nat, p: Point, i: nat)
    requires env.world.upstream(k).Reply? && env.world.Blocked(env.world.upstream(k).Prefix())
    ensures var q := p.Checked(env, env.world.upstream(k).Prefix());
            var ending := Delivery(env, true, k, p).ending;
            && (i < 5 && ClearsAt(env, q, i) ==>
                  && env.world.upstream(q.forwards + Tokens(env, q, i)).Reply?
                  && ending == Handed(env, q.forwards + Tokens(env, q, i)))
            && ((forall j: nat :: j < 5 ==> !ClearsAt(env, q, j)) ==> ending in {NoReply, ErrorReply(403)})
  {
    hide *;
    FiveRetries();
    DeliveryIs(env, true, k, p);
    RetriedStream(env, p.Checked(env, env.world.upstream(k).Prefix()), i);
  }

  /** A body on a stream that holds the message further down: the first useful one of up
      to five retries goes out, and without any the blocked body does. */
  lemma HiddenBlockIsRetried(env: Env, k: nat, p: Point, i: nat)
    requires HidesBlock(env, env.world.upstream(k))
    requires i <= 5 && AllUseless(env, p.Checked(env, env.world.upstream(k).Full()), i)
    ensures var q := p.Checked(env, env.world.upstream(k).Full());
            var ending := Delivery(env, true, k, p).ending;
            && (i < 5 && !BodyWalk(env, q, i).Exhausted() && !Useless(env, q, i) ==>
                  var last, r := q.forwards + Tokens(env, q, i), AnswerAt(env, q, i);
                  ending == if r.eventStream then StreamReply(last) else BodyReply(last, r.body))
            && (i == 5 || BodyWalk(env, q, i).Exhausted() ==>
                  ending == BodyReply(k, env.world.upstream(k).Full()))
  {
    var q := p.Checked(env, env.world.upstream(k).Full());
    DeliveryIs(env, true, k, p);
    WholeBodyIs(env, k, p);
    OutcomeBody(env, q, 5, BodyReply(k, env.world.upstream(k).Full()), i);
    UselessHas(env, q, i);
    hide Delivery, WholeBody, JSONRetries, AllUseless, Useless, BodyWalk, Tokens, AnswerAt, Point.Exhausted;
    hide Point.Checked, World.Blocked, World.LooksLikeSSE, Reply.Full, Reply.Prefix;
  }

  /** A blocked body outside of streams: the first useful one of up to five retries goes
      out, and without any it is a 403. */
  lemma BlockedBodyIsRetried(env: Env, k: nat, p: Point, i: nat)
    requires var r := env.world.upstream(k); r.Reply? && !r.readError && env.world.Blocked(r.body)
    requires i <= 5 && AllUseless(Readable(env), p.Checked(env, env.world.upstream(k).body), i)
    ensures var q := p.Checked(env, env.world.upstream(k).body);
            var ending := Delivery(env, false, k, p).ending;
            && (i < 5 && !BodyWalk(Readable(env), q, i).Exhausted() && !Useless(Readable(env), q, i) ==>
                  var last := q.forwards + Tokens(env, q, i);
                  && env.world.upstream(last).Reply? && ending == BodyReply(last, env.world.upstream(last).body))
            && (i == 5 || BodyWalk(Readable(env), q, i).Exhausted() ==> ending == ErrorReply(403))
  {
    hide *;
    FiveRetries();
    DeliveryIs(env, false, k, p);
    OutcomePlain(env, p.Checked(env, env.world.upstream(k).body), 5, i);
  }

  lemma FiveRetries()
    ensures MAX_BLOCK_RETRIES == 5
  {
  }

  lemma RetriedStream(env: Env, q: Point, i: nat)
    ensures i < 5 && ClearsAt(env, q, i) ==>
      && env.world.upstream(q.forwards + Tokens(env, q, i)).Reply?
      && StreamRetries(env, q, 5, true).ending == Handed(env, q.forwards + Tokens(env, q, i))
    ensures (forall j: nat :: j < 5 ==> !ClearsAt(env, q, j)) ==>
      StreamRetries(env, q, 5, true).ending in {NoReply, ErrorReply(403)}
  {
    hide *;
    if i < 5 && ClearsAt(env, q, i) {
      OutcomeStream(env, q, 5, i);
    }
    if StreamRetries(env, q, 5, true).ending !in {NoReply, ErrorReply(403)} {
      var j := StreamNeedsAnswer(env, q, 5);
    }
  }

  /** The status checks: on a 401 up to five retries, on a 403 one, on a 429 up to two,
      and each check looks at what the one before has left. */
  lemma StatusIsChecked(env: Env, fallback: bool, leg: Leg)
    requires leg.fate.Answered? && Real(env, leg)
    ensures var status := env.world.upstream(leg.fate.k).status;
            && (status !in {401, 403, 429} ==> Recovery(env, fallback, leg) == leg)
            && (status == 429 ==> Recovery(env, fallback, leg) == Leg429(env, fallback, leg.at, 2, true))
            && (status == 403 ==>
                  var next := Leg403(env, leg.at);
                  Recovery(env, fallback, leg)
                  == if Has(env, next, 429) then Leg429(env, fallback, next.at, 2, true) else next)
            && (status == 401 ==>
                  var next := Leg401(env, leg.at, 5, true);
                  next.fate.Answered? ==>
                    && env.world.upstream(next.fate.k).status != 401
                    && Recovery(env, fallback, leg) == Recovery(env, fallback, next))
            && (status == 401 ==>
                  var next := Leg401(env, leg.at, 5, true);
                  !next.fate.Answered? ==> Recovery(env, fallback, leg) == next)
  {
    hide Leg401, Leg403, Leg429;
    var next := Leg401(env, leg.at, 5, true);
    if next.fate.Answered? {
      NoLonger401(env, leg.at, 5, true);
    }
  }

  lemma {:induction false} NoLonger401(env: Env, p: Point, n: nat, have: bool)
    requires Leg401(env, p, n, have).fate.Answered?
    ensures env.world.upstream(Leg401(env, p, n, have).fate.k).status != 401
    decreases n
  {
    Leg401Step(env, p, n, have);
    var q := p.Turn().Fetched(env);
    hide Leg401, Point.Turn, Point.Fetched, Point.Token, Point.Empty;
    if p.Turn().Token(env) {
      if q.Answer(env).Failed? {
        NoLonger401(env, q.Sent(), n - 1, false);
      } else if q.Answer(env).status == 401 {
        NoLonger401(env, q.Sent(), n - 1, true);
      }
    } else {
      NoLonger401(env, q, n - 1, have);
    }
  }
}
