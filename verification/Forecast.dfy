// Where a request ends up, told from the state before it and from what the outside
// will answer: the handler's course as a function.
module Forecast {
  import opened Addresses
  import opened Fleets

  const TIMEOUT_RETRIES: nat := 5
  const JWT_REFRESH_RETRIES: nat := 5
  const RATE_LIMIT_RETRIES: nat := 2
  const MAX_BLOCK_RETRIES: nat := 5

  /** What the course of a request depends on: the fleet, and how many bootstrap and
      chat requests have been made. */
  datatype Point = Point(fleet: Fleet, fetches: nat, forwards: nat) {

    ghost function Turn(): Point {
      this.(fleet := fleet.Turn())
    }

    ghost function Sent(): Point {
      this.(forwards := forwards + 1)
    }

    ghost function Fetched(env: Env): Point {
      Point(fleet.Booted(RouteOf(env, fleet), env.world.bootstrap(fetches)), fetches + 1, forwards)
    }

    ghost function GiveUp(): Point {
      this.(fleet := fleet.GiveUp())
    }

    ghost function Forbid(): Point {
      this.(fleet := fleet.Forbid())
    }

    /** A text was checked for the block message. */
    ghost function Checked(env: Env, text: string): Point {
      if env.world.Blocked(text) then this.(fleet := fleet.Blame()) else this
    }

    /** A stream was relayed. */
    ghost function Relayed(env: Env): Point {
      if env.world.relayWriteError && fleet.Head().Some? then this.(fleet := fleet.SmartDead(fleet.Head().value))
      else this
    }

    /** The next bootstrap request brings a token. */
    ghost predicate Token(env: Env) {
      env.world.bootstrap(fetches).GivesToken()
    }

    /** The answer to the next chat request. */
    ghost function Answer(env: Env): Reply {
      env.world.upstream(forwards)
    }

    ghost predicate Empty() {
      fleet.Head().None?
    }

    /** There is a rotator, and nobody is left in it. */
    ghost predicate Exhausted() {
      fleet.ring.Some? && Empty()
    }
  }

  datatype Look = Look(ok: bool, at: Point)

  /** How the status checks end: with a missing response, with an error of the
      handler's own, or with the answer to the k-th chat request. */
  datatype Fate = Lost | Refused(status: int) | Answered(k: nat)
  datatype Leg = Leg(fate: Fate, at: Point)

  /** How a request ends: without a reply, with an error of the handler's own, or with
      the k-th answer, of which only the status, a body or a stream is passed on. */
  datatype Ending =
    | NoReply
    | ErrorReply(status: int)
    | BareReply(k: nat)
    | BodyReply(k: nat, body: string)
    | StreamReply(k: nat)

  datatype Close = Close(ending: Ending, at: Point)

  /** An answer that is waited for has come. */
  ghost predicate Real(env: Env, leg: Leg) {
    leg.fate.Answered? ==> env.world.upstream(leg.fate.k).Reply?
  }

  ghost function FirstLook(env: Env, cached: bool, p: Point, n: nat): Look
    decreases n
  {
    if n == 0 then Look(false, p)
    else if cached then Look(true, p)
    else if p.Token(env) || p.Fetched(env).Empty() then Look(p.Token(env), p.Fetched(env))
    else FirstLook(env, false, p.Fetched(env).Turn(), n - 1)
  }

  ghost function FirstAnswer(env: Env, p: Point, n: nat): (leg: Leg)
    ensures Real(env, leg)
    decreases n
  {
    if n == 0 then Leg(Refused(502), p)
    else if p.Answer(env).Failed? then FirstAnswer(env, p.Sent().Turn(), n - 1)
    else Leg(Answered(p.forwards), p.Sent())
  }

  /** `have` tells whether there still is a response; a failed retry leaves none, and
      the next token, or the end of the loop, is where it is missed. */
  ghost function Leg401(env: Env, p: Point, n: nat, have: bool): (leg: Leg)
    ensures Real(env, leg)
    decreases n
  {
    var t := p.Turn();
    var q := t.Fetched(env);
    if n == 0 || p.Empty() then Leg(if have then Refused(401) else Lost, p)
    else if !t.Token(env) then Leg401(env, q, n - 1, have)
    else if !have then Leg(Lost, q)
    else if q.Answer(env).Failed? then Leg401(env, q.Sent(), n - 1, false)
    else if q.Answer(env).status != 401 then Leg(Answered(q.forwards), q.Sent())
    else Leg401(env, q.Sent(), n - 1, true)
  }

  ghost function Leg403(env: Env, p: Point): (leg: Leg)
    ensures Real(env, leg)
  {
    var b := p.Forbid();
    var q := b.Fetched(env).Turn();
    if !b.Token(env) then Leg(Refused(401), b.Fetched(env))
    else if q.Answer(env).Failed? then Leg(Refused(502), q.Sent())
    else Leg(Answered(q.forwards), q.Sent())
  }

  ghost function Leg429(env: Env, fallback: bool, p: Point, n: nat, have: bool): (leg: Leg)
    ensures Real(env, leg)
    decreases n
  {
    var t := p.Turn();
    var q := t.Fetched(env);
    if n == 0 then if !have then Leg(Lost, p) else if fallback then Fallback(env, p) else Leg(Refused(429), p)
    else if !t.Token(env) then Leg429(env, fallback, q, n - 1, have)
    else if !have then Leg(Lost, q)
    else if q.Answer(env).Failed? then Leg429(env, fallback, q.Sent(), n - 1, false)
    else if q.Answer(env).status != 429 then Leg(Answered(q.forwards), q.Sent())
    else Leg429(env, fallback, q.Sent(), n - 1, true)
  }

  ghost function Fallback(env: Env, p: Point): (leg: Leg)
    ensures Real(env, leg)
  {
    var q := p.Fetched(env);
    if q.Answer(env).Failed? || q.Answer(env).status == 429 then Leg(Refused(429), q.Sent())
    else Leg(Answered(q.forwards), q.Sent())
  }

  /** The leg so far ends in an answer with this status. */
  ghost predicate Has(env: Env, leg: Leg, status: int)
    requires Real(env, leg)
  {
    leg.fate.Answered? && env.world.upstream(leg.fate.k).status == status
  }

  ghost function After401(env: Env, leg: Leg): (end: Leg)
    requires Real(env, leg)
    ensures Real(env, end)
  {
    if Has(env, leg, 401) then Leg401(env, leg.at, JWT_REFRESH_RETRIES, true) else leg
  }

  ghost function After403(env: Env, leg: Leg): (end: Leg)
    requires Real(env, leg)
    ensures Real(env, end)
  {
    if Has(env, leg, 403) then Leg403(env, leg.at) else leg
  }

  ghost function After429(env: Env, fallback: bool, leg: Leg): (end: Leg)
    requires Real(env, leg)
    ensures Real(env, end)
  {
    if Has(env, leg, 429) then Leg429(env, fallback, leg.at, RATE_LIMIT_RETRIES, true) else leg
  }

  /** The three status checks, one after the other. */
  ghost function Recovery(env: Env, fallback: bool, leg: Leg): (end: Leg)
    requires Real(env, leg)
    ensures Real(env, end)
  {
    After429(env, fallback, After403(env, After401(env, leg)))
  }

  /** The k-th answer has clean first lines and goes out on a stream. */
  ghost function Passed(env: Env, k: nat, p: Point): Close
    requires env.world.upstream(k).Reply?
  {
    var r := env.world.upstream(k);
    if env.world.LooksLikeSSE(r) then Close(StreamReply(k), p.Relayed(env))
    else Close(BodyReply(k, r.Full()), p.Checked(env, r.Full()))
  }

  ghost function StreamRetries(env: Env, p: Point, n: nat, have: bool): Close
    decreases n
  {
    var q := p.Fetched(env);
    if n == 0 || p.Exhausted() then Close(ErrorReply(403), p)
    else if !p.Token(env) then StreamRetries(env, q.GiveUp(), n - 1, have)
    else if !have then Close(NoReply, q)
    else if q.Answer(env).Failed? then StreamRetries(env, q.Sent(), n - 1, false)
    else if env.world.Blocked(q.Answer(env).Prefix()) then
      StreamRetries(env, q.Sent().Checked(env, q.Answer(env).Prefix()), n - 1, true)
    else Passed(env, q.forwards, q.Sent())
  }

  ghost function JSONRetries(env: Env, p: Point, n: nat, original: Ending): Close
    decreases n
  {
    var q := p.Fetched(env);
    if n == 0 || p.Exhausted() then Close(original, p)
    else if !p.Token(env) then JSONRetries(env, q.GiveUp(), n - 1, original)
    else if q.Answer(env).Failed? then JSONRetries(env, q.Sent(), n - 1, original)
    else if q.Answer(env).eventStream then Close(StreamReply(q.forwards), q.Sent().Relayed(env))
    else if env.world.Blocked(q.Answer(env).body) then
      JSONRetries(env, q.Sent().Checked(env, q.Answer(env).body), n - 1, original)
    else Close(BodyReply(q.forwards, q.Answer(env).body), q.Sent())
  }

  ghost function PlainRetries(env: Env, p: Point, n: nat): Close
    decreases n
  {
    var q := p.Fetched(env);
    if n == 0 || p.Exhausted() then Close(ErrorReply(403), p)
    else if !p.Token(env) then PlainRetries(env, q.GiveUp(), n - 1)
    else if q.Answer(env).Failed? || q.Answer(env).readError then PlainRetries(env, q.Sent(), n - 1)
    else if env.world.Blocked(q.Answer(env).body) then
      PlainRetries(env, q.Sent().Checked(env, q.Answer(env).body), n - 1)
    else Close(BodyReply(q.forwards, q.Answer(env).body), q.Sent())
  }

  /** An answer on a stream that is no event stream. */
  ghost function WholeBody(env: Env, k: nat, p: Point): Close
    requires env.world.upstream(k).Reply?
  {
    var full := env.world.upstream(k).Full();
    if env.world.Blocked(full) then
      JSONRetries(env, p.Checked(env, full), MAX_BLOCK_RETRIES, BodyReply(k, full))
    else Close(BodyReply(k, full), p)
  }

  /** The k-th answer is the one that made it through the status checks. */
  ghost function Delivery(env: Env, stream: bool, k: nat, p: Point): Close
    requires env.world.upstream(k).Reply?
  {
    var r := env.world.upstream(k);
    if stream then
      if env.world.Blocked(r.Prefix()) then StreamRetries(env, p.Checked(env, r.Prefix()), MAX_BLOCK_RETRIES, true)
      else if env.world.LooksLikeSSE(r) then Close(StreamReply(k), p.Relayed(env))
      else WholeBody(env, k, p)
    else if r.readError then Close(BareReply(k), p)
    else if env.world.Blocked(r.body) then PlainRetries(env, p.Checked(env, r.body), MAX_BLOCK_RETRIES)
    else Close(BodyReply(k, r.body), p)
  }

  /** From the first answer, or none, to the end. */
  ghost function Settled(env: Env, fallback: bool, stream: bool, first: Leg): Close
    requires Real(env, first)
  {
    var leg := Recovery(env, fallback, first);
    match leg.fate
    case Lost => Close(NoReply, leg.at)
    case Refused(status) => Close(ErrorReply(status), leg.at)
    case Answered(k) => Delivery(env, stream, k, leg.at)
  }

  /** A request for a stream, or not, with a usable token in the cache, or not. */
  ghost function Serving(env: Env, fallback: bool, cached: bool, stream: bool, p: Point): Close {
    var look := FirstLook(env, cached, p, JWT_REFRESH_RETRIES);
    if !look.ok then Close(ErrorReply(401), look.at)
    else Settled(env, fallback, stream, FirstAnswer(env, look.at, TIMEOUT_RETRIES + 1))
  }

  // -------------------------------------------------- each function, one step on

  lemma FirstLookStep(env: Env, cached: bool, p: Point, n: nat)
    ensures FirstLook(env, cached, p, n)
            == if n == 0 then Look(false, p)
               else if cached then Look(true, p)
               else if p.Token(env) || p.Fetched(env).Empty() then Look(p.Token(env), p.Fetched(env))
               else FirstLook(env, false, p.Fetched(env).Turn(), n - 1)
  {
  }

  lemma FirstAnswerStep(env: Env, p: Point, n: nat)
    ensures FirstAnswer(env, p, n)
            == if n == 0 then Leg(Refused(502), p)
               else if p.Answer(env).Failed? then FirstAnswer(env, p.Sent().Turn(), n - 1)
               else Leg(Answered(p.forwards), p.Sent())
    ensures p.Sent().forwards == p.forwards + 1
  {
  }

  lemma Leg401Step(env: Env, p: Point, n: nat, have: bool)
    ensures var t := p.Turn();
            var q := t.Fetched(env);
            Leg401(env, p, n, have)
            == if n == 0 || p.Empty() then Leg(if have then Refused(401) else Lost, p)
               else if !t.Token(env) then Leg401(env, q, n - 1, have)
               else if !have then Leg(Lost, q)
               else if q.Answer(env).Failed? then Leg401(env, q.Sent(), n - 1, false)
               else if q.Answer(env).status != 401 then Leg(Answered(q.forwards), q.Sent())
               else Leg401(env, q.Sent(), n - 1, true)
  {
  }

  lemma Leg403Step(env: Env, p: Point)
    ensures var b := p.Forbid();
            var q := b.Fetched(env).Turn();
            Leg403(env, p)
            == if !b.Token(env) then Leg(Refused(401), b.Fetched(env))
               else if q.Answer(env).Failed? then Leg(Refused(502), q.Sent())
               else Leg(Answered(q.forwards), q.Sent())
  {
  }

  lemma Leg429Step(env: Env, fallback: bool, p: Point, n: nat, have: bool)
    ensures var t := p.Turn();
            var q := t.Fetched(env);
            Leg429(env, fallback, p, n, have)
            == if n == 0 then
                 if !have then Leg(Lost, p) else if fallback then Fallback(env, p) else Leg(Refused(429), p)
               else if !t.Token(env) then Leg429(env, fallback, q, n - 1, have)
               else if !have then Leg(Lost, q)
               else if q.Answer(env).Failed? then Leg429(env, fallback, q.Sent(), n - 1, false)
               else if q.Answer(env).status != 429 then Leg(Answered(q.forwards), q.Sent())
               else Leg429(env, fallback, q.Sent(), n - 1, true)
  {
  }

  lemma FallbackStep(env: Env, p: Point)
    ensures var q := p.Fetched(env);
            Fallback(env, p)
            == if q.Answer(env).Failed? || q.Answer(env).status == 429 then Leg(Refused(429), q.Sent())
               else Leg(Answered(q.forwards), q.Sent())
  {
  }

  lemma ChecksAre(env: Env, fallback: bool, leg: Leg)
    requires leg.fate.Answered? && Real(env, leg)
    ensures var status := env.world.upstream(leg.fate.k).status;
            && After401(env, leg) == (if status == 401 then Leg401(env, leg.at, JWT_REFRESH_RETRIES, true) else leg)
            && After403(env, leg) == (if status == 403 then Leg403(env, leg.at) else leg)
            && After429(env, fallback, leg)
               == (if status == 429 then Leg429(env, fallback, leg.at, RATE_LIMIT_RETRIES, true) else leg)
  {
    hide Leg401, Leg403, Leg429;
  }

  lemma RecoveryStops(env: Env, fallback: bool, leg: Leg)
    requires Real(env, leg)
    ensures var first := After401(env, leg);
            var second := After403(env, first);
            && (!leg.fate.Answered? ==> Recovery(env, fallback, leg) == leg)
            && (!first.fate.Answered? ==> Recovery(env, fallback, leg) == first)
            && (!second.fate.Answered? ==> Recovery(env, fallback, leg) == second)
            && Recovery(env, fallback, leg) == After429(env, fallback, second)
  {
    hide Leg401, Leg403, Leg429;
  }

  lemma PassedIs(env: Env, k: nat, p: Point)
    requires env.world.upstream(k).Reply?
    ensures var r := env.world.upstream(k);
            Passed(env, k, p)
            == if env.world.LooksLikeSSE(r) then Close(StreamReply(k), p.Relayed(env))
               else Close(BodyReply(k, r.Full()), p.Checked(env, r.Full()))
    ensures env.world.LooksLikeSSE(env.world.upstream(k)) ==> env.world.upstream(k).eventStream
  {
  }

  lemma StreamStep(env: Env, p: Point, n: nat, have: bool)
    ensures var q := p.Fetched(env);
            StreamRetries(env, p, n, have)
            == if n == 0 || p.Exhausted() then Close(ErrorReply(403), p)
               else if !p.Token(env) then StreamRetries(env, q.GiveUp(), n - 1, have)
               else if !have then Close(NoReply, q)
               else if q.Answer(env).Failed? then StreamRetries(env, q.Sent(), n - 1, false)
               else if env.world.Blocked(q.Answer(env).Prefix()) then
                 StreamRetries(env, q.Sent().Checked(env, q.Answer(env).Prefix()), n - 1, true)
               else Passed(env, q.forwards, q.Sent())
  {
  }

  lemma JSONStep(env: Env, p: Point, n: nat, original: Ending)
    ensures var q := p.Fetched(env);
            JSONRetries(env, p, n, original)
            == if n == 0 || p.Exhausted() then Close(original, p)
               else if !p.Token(env) then JSONRetries(env, q.GiveUp(), n - 1, original)
               else if q.Answer(env).Failed? then JSONRetries(env, q.Sent(), n - 1, original)
               else if q.Answer(env).eventStream then Close(StreamReply(q.forwards), q.Sent().Relayed(env))
               else if env.world.Blocked(q.Answer(env).body) then
                 JSONRetries(env, q.Sent().Checked(env, q.Answer(env).body), n - 1, original)
               else Close(BodyReply(q.forwards, q.Answer(env).body), q.Sent())
  {
  }

  lemma PlainStep(env: Env, p: Point, n: nat)
    ensures var q := p.Fetched(env);
            PlainRetries(env, p, n)
            == if n == 0 || p.Exhausted() then Close(ErrorReply(403), p)
               else if !p.Token(env) then PlainRetries(env, q.GiveUp(), n - 1)
               else if q.Answer(env).Failed? || q.Answer(env).readError then PlainRetries(env, q.Sent(), n - 1)
               else if env.world.Blocked(q.Answer(env).body) then
                 PlainRetries(env, q.Sent().Checked(env, q.Answer(env).body), n - 1)
               else Close(BodyReply(q.forwards, q.Answer(env).body), q.Sent())
  {
  }

  lemma WholeBodyIs(env: Env, k: nat, p: Point)
    requires env.world.upstream(k).Reply?
    ensures var full := env.world.upstream(k).Full();
            WholeBody(env, k, p)
            == if env.world.Blocked(full) then
                 JSONRetries(env, p.Checked(env, full), MAX_BLOCK_RETRIES, BodyReply(k, full))
               else Close(BodyReply(k, full), p)
  {
    hide JSONRetries;
  }

  lemma DeliveryIs(env: Env, stream: bool, k: nat, p: Point)
    requires env.world.upstream(k).Reply?
    ensures var r := env.world.upstream(k);
            Delivery(env, stream, k, p)
            == if stream then
                 if env.world.Blocked(r.Prefix()) then
                   StreamRetries(env, p.Checked(env, r.Prefix()), MAX_BLOCK_RETRIES, true)
                 else if env.world.LooksLikeSSE(r) then Close(StreamReply(k), p.Relayed(env))
                 else WholeBody(env, k, p)
               else if r.readError then Close(BareReply(k), p)
               else if env.world.Blocked(r.body) then PlainRetries(env, p.Checked(env, r.body), MAX_BLOCK_RETRIES)
               else Close(BodyReply(k, r.body), p)
  {
    hide StreamRetries, PlainRetries, WholeBody;
  }

  lemma SettledIs(env: Env, fallback: bool, stream: bool, first: Leg)
    requires Real(env, first)
    ensures var leg := Recovery(env, fallback, first);
            Settled(env, fallback, stream, first)
            == match leg.fate
               case Lost => Close(NoReply, leg.at)
               case Refused(status) => Close(ErrorReply(status), leg.at)
               case Answered(k) => Delivery(env, stream, k, leg.at)
  {
    hide Recovery, Delivery;
  }

  lemma ServingIs(env: Env, fallback: bool, cached: bool, stream: bool, p: Point)
    ensures var look := FirstLook(env, cached, p, JWT_REFRESH_RETRIES);
            var first := FirstAnswer(env, look.at, TIMEOUT_RETRIES + 1);
            && Serving(env, fallback, cached, stream, p)
               == (if look.ok then Settled(env, fallback, stream, first) else Close(ErrorReply(401), look.at))
            && (first.fate.Refused? ==>
                  Settled(env, fallback, stream, first) == Close(ErrorReply(first.fate.status), first.at))
  {
    hide FirstLook, FirstAnswer, Leg401, Leg403, Leg429, Delivery;
  }
}
