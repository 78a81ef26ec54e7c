// The chat handler: token, first attempt, the retries on 401, 403 and 429, and the
// retries on a block message, over the shared rotator, pool, router and blacklist.
module ChatServer {
  import opened Addresses
  import opened Blacklists
  import opened Fleets
  import opened Forecast
  import opened HandlerSteps
  import opened HandlerTrace
  import opened Pools
  import opened Routing
  import Compliance
  import Endings
  import RateLimit
  import Rotation
  import SSEFormat

  const MAX_CONCURRENT: nat := 8

  // On 401, 403 and 429 together, with the fallback's extra try.
  const MAX_RECOVERIES: nat := JWT_REFRESH_RETRIES + 1 + RATE_LIMIT_RETRIES + 1
  const MAX_FORWARDS: nat := TIMEOUT_RETRIES + 1 + MAX_RECOVERIES + MAX_BLOCK_RETRIES
  const MAX_GETS: nat := JWT_REFRESH_RETRIES + MAX_RECOVERIES + MAX_BLOCK_RETRIES

  /** What a phase of the handler ends in. */
  datatype Flow = Go(resp: Resp) | Finished | Panicked

  /** What one more try ends in. */
  datatype Attempt = NoToken | NilResponse | Unanswered | Got(resp: Resp) | StillBlocked(resp: Resp) | Delivered

  /** A request as it comes in, by how far it can be read. */
  datatype Incoming = Unreadable | BadJSON | NoMessages | NotInjectable | Chat(stream: bool)
  {
    predicate Streams() {
      Chat? && stream
    }
  }

  datatype ClientReply =
    | Error(status: int)
    | Bare(of: Forward, status: int)                      // the body could not be read
    | Relayed(of: Forward, status: int, body: string)
    | Streamed(of: Forward, status: int)

  class Client {
    var replies: seq<ClientReply>

    constructor ()
      ensures replies == []
    {
      replies := [];
    }

    method Reply(r: ClientReply)
      modifies this
      ensures replies == old(replies) + [r]
    {
      replies := replies + [r];
    }
  }

  /** What the client may be told: an error of the handler's own, or an upstream
      answer under its own status, which outside of streams never holds a block. */
  ghost predicate ReplyOk(world: World, stream: bool, r: ClientReply) {
    match r
    case Error(status) => status in {400, 401, 403, 429, 500, 502, 503}
    case Bare(f, status) =>
      !stream && world.upstream(f.k).Reply? && world.upstream(f.k).readError && status == world.upstream(f.k).status
    case Relayed(f, status, body) =>
      && CameFrom(body, world.upstream(f.k)) && status == world.upstream(f.k).status
      && (!stream ==> body == world.upstream(f.k).body && !world.Blocked(body))
    case Streamed(f, status) =>
      && stream && world.upstream(f.k).Reply? && status == world.upstream(f.k).status
      && world.upstream(f.k).eventStream
      && (f.phase.RetryJSON? || !world.Blocked(world.upstream(f.k).Prefix()))
  }

  /** What is passed on has been inspected: a body as a whole, a stream by its first
      lines, except for the stream that a retry of a blocked body brings. */
  ghost predicate Vetted(trace: seq<Event>, r: ClientReply) {
    match r
    case Relayed(f, _, body) => Inspected(f, body) in trace
    case Streamed(f, _) => f.phase.RetryJSON? || exists text :: Inspected(f, text) in trace
    case _ => true
  }

  /** The client got exactly one more reply, and a proper one. */
  ghost predicate OneReply(world: World, stream: bool, trace: seq<Event>,
                           before: seq<ClientReply>, after: seq<ClientReply>) {
    && |after| == |before| + 1 && after[..|before|] == before
    && ReplyOk(world, stream, after[|before|]) && Vetted(trace, after[|before|])
  }

  /** The reply is the foretold one. */
  ghost predicate Fits(ending: Ending, r: ClientReply) {
    match ending
    case NoReply => false
    case ErrorReply(status) => r == Error(status)
    case BareReply(k) => r.Bare? && r.of.k == k
    case BodyReply(k, body) => r.Relayed? && r.of.k == k && r.body == body
    case StreamReply(k) => r.Streamed? && r.of.k == k
  }

  /** What happened is what was foretold. */
  ghost predicate Ends(close: Close, panicked: bool, before: seq<ClientReply>, after: seq<ClientReply>, at: Point) {
    && at == close.at
    && if close.ending.NoReply? then panicked && after == before
       else
         && !panicked && |after| == |before| + 1 && after[..|before|] == before
         && Fits(close.ending, after[|before|])
  }

  /** The phase ended as foretold. */
  ghost predicate Matches(leg: Leg, flow: Flow, at: Point) {
    && at == leg.at
    && match leg.fate
       case Lost => flow.Panicked?
       case Refused(_) => flow.Finished?
       case Answered(k) => flow.Go? && flow.resp.of.k == k
  }

  lemma MatchesCases(leg: Leg, flow: Flow, at: Point)
    ensures leg.fate.Lost? ==> (Matches(leg, flow, at) <==> flow.Panicked? && at == leg.at)
    ensures leg.fate.Refused? ==> (Matches(leg, flow, at) <==> flow.Finished? && at == leg.at)
    ensures leg.fate.Answered? ==>
      (Matches(leg, flow, at) <==> flow.Go? && flow.resp.of.k == leg.fate.k && at == leg.at)
  {
  }

  lemma EndsWithError(close: Close, status: int, before: seq<ClientReply>, at: Point)
    requires close == Close(ErrorReply(status), at)
    ensures Ends(close, false, before, before + [Error(status)], at)
  {
  }

  lemma EndsWithReply(close: Close, r: ClientReply, before: seq<ClientReply>, at: Point)
    requires close.at == at
    requires match r
             case Error(status) => close.ending == ErrorReply(status)
             case Bare(f, _) => close.ending == BareReply(f.k)
             case Relayed(f, _, body) => close.ending == BodyReply(f.k, body)
             case Streamed(f, _) => close.ending == StreamReply(f.k)
    ensures Ends(close, false, before, before + [r], at)
  {
  }

  lemma EndsWithNothing(close: Close, before: seq<ClientReply>, at: Point)
    requires close == Close(NoReply, at)
    ensures Ends(close, true, before, before, at)
  {
  }

  /** What the handler answers by itself, without a word to the upstream. */
  ghost function Refusal(admitted: bool, inFlight: nat, request: Incoming): Option<int> {
    if !admitted then Some(429)
    else if inFlight >= MAX_CONCURRENT then Some(503)
    else
      match request
      case Chat(_) => None
      case NotInjectable => Some(500)
      case _ => Some(400)
  }

  /** The whole course of a request, refused or not. */
  ghost function Foretold(refusal: Option<int>, env: Env, fallback: bool, cached: bool, stream: bool, p: Point): Close {
    match refusal
    case Some(status) => Close(ErrorReply(status), p)
    case None => Serving(env, fallback, cached, stream, p)
  }

  class Server {
    const world: World
    const rotator: Rotation.Rotator?
    const pool: SSPool?
    const smart: SmartRouter?
    const blacklist: Blacklist?
    const limiter: RateLimit.RateLimiter?
    const hasFallback: bool
    var token: Option<Token>
    var forwards: nat
    var gets: nat
    var fetches: nat
    var inFlight: nat
    ghost var trace: seq<Event>
    ghost var begun: Snap          // the state in which the request at hand came in

    constructor (world: World, rotator: Rotation.Rotator?, pool: SSPool?, smart: SmartRouter?, blacklist: Blacklist?,
                 limiter: RateLimit.RateLimiter?, hasFallback: bool)
      requires rotator != null ==> rotator.Valid()
      requires smart != null ==> smart.filter == null || smart.filter == blacklist
      ensures Valid() && token == None && forwards == gets == fetches == inFlight == 0
      ensures this.world == world && this.rotator == rotator && this.pool == pool && this.smart == smart
      ensures this.blacklist == blacklist && this.limiter == limiter && this.hasFallback == hasFallback
    {
      this.world, this.rotator, this.pool, this.smart := world, rotator, pool, smart;
      this.blacklist, this.limiter, this.hasFallback := blacklist, limiter, hasFallback;
      token, forwards, gets, fetches, inFlight := None, 0, 0, 0, 0;
    }

    ghost predicate Valid()
      reads rotator
    {
      && (rotator != null ==> rotator.Valid())
      && (smart != null ==> smart.filter == null || smart.filter == blacklist)
    }

    ghost function Environment(): Env
      reads pool, smart
    {
      Env(world, if pool == null then [] else pool.servers, smart == null || smart.proxies == [],
          smart != null && smart.filter != null)
    }

    ghost function FleetNow(): Fleet
      reads rotator, smart, blacklist
    {
      Fleet(if rotator == null then None else Some(rotator.State()),
            if smart == null then [] else smart.proxies,
            if blacklist == null then None else Some(blacklist.Now()))
    }

    ghost function Now(): Snap
      reads this`trace, rotator, pool, smart, blacklist
    {
      Snap(Environment(), FleetNow(), if pool == null then None else Some(pool.deadAddrs), trace)
    }

    ghost function At(): Point
      reads this`fetches, this`forwards, rotator, smart, blacklist
    {
      Point(FleetNow(), fetches, forwards)
    }

    /** The request at hand has a usable token in the cache. */
    ghost predicate Cached()
      reads this`token, this`gets
    {
      token.Some? && world.unexpired(gets + 1)
    }

    /** What the contracts take from the definitions above. */
    lemma Here()
      ensures At() == Point(Now().fleet, fetches, forwards)
      ensures Now().env.world == world && Now().env == Environment()
      ensures At().Empty() <==> Now().Head().None?
    {
    }

    /** The outside is the one the request began with. */
    lemma SameWorld()
      requires Progress(begun, Now())
      ensures begun.env == Now().env && begun.env.world == world
    {
    }

    // ------------------------------------------------------ choosing a route

    method CreateSSDialer(addr: string) returns (ok: bool)
      ensures addr != "" ==> ok == Environment().Resolves(addr)
    {
      if pool == null {
        return false;
      }
      var cfg := pool.GetByAddr(addr);
      if cfg.None? {
        return false;
      }
      return world.dialable(cfg.value);
    }

    /** What the way a request goes hangs on, in terms of the objects it is read from. */
    lemma WaysAre()
      requires Valid()
      ensures var smartWay, tunnelWay := SmartWay(Environment(), FleetNow()), TunnelWay(Environment(), FleetNow());
              && Now().Route() == (if smartWay.Some? then smartWay.value
                                   else if tunnelWay.Some? then tunnelWay.value else Direct)
              && smartWay == SmartNow() && tunnelWay == TunnelNow()
    {
      assert !Environment().Resolves("");
      hide Best, Env.Resolves;
    }

    ghost function SmartNow(): Option<Route>
      reads rotator, smart, blacklist
      requires Valid()
    {
      if smart == null || smart.proxies == [] then None
      else
        var best := Best(smart.proxies, smart.Filter());
        if best.Some? && best.value.hasDialer then Some(Smart(best.value.address)) else None
    }

    ghost function TunnelNow(): Option<Route>
      reads rotator, pool, smart
      requires Valid()
    {
      if rotator == null || rotator.pool == [] || rotator.Cycle()[0] == "" then None
      else if Environment().Resolves(rotator.Cycle()[0]) then Some(Tunnel(rotator.Cycle()[0]))
      else None
    }

    /** How the bootstrap request picks its way. */
    method BootstrapRoute() returns (via: Route, proxyAddr: string, usedRotator: bool)
      requires Valid()
      ensures via == Now().Route()
      ensures proxyAddr == if via.Direct? then "" else via.addr
      ensures usedRotator <==> via.Tunnel?
    {
      WaysAre();
      hide Best, Env.Resolves, SmartWay, TunnelWay, Now, Rotation.View, Environment;
      var client: Option<Route> := None;
      proxyAddr := "";
      usedRotator := false;
      if smart != null {
        var n := smart.Len();
        if n > 0 {
          var best := smart.SelectBest();
          if best.Some? && best.value.hasDialer {
            proxyAddr := best.value.address;
            client := Some(Smart(proxyAddr));
          }
        }
      }
      if client.None? && rotator != null {
        var n := rotator.Len();
        if n > 0 {
          var upstreamAddr := rotator.Current();
          if upstreamAddr != "" {
            proxyAddr := upstreamAddr;
            var dialer := CreateSSDialer(upstreamAddr);
            if dialer {
              usedRotator := true;
              client := Some(Tunnel(upstreamAddr));
            }
          }
        }
      }
      if client.None? {
        proxyAddr := "";
        client := Some(Direct);
      }
      via := client.value;
    }

    /** How a chat request picks its way. */
    method ForwardRoute() returns (via: Route)
      requires Valid()
      ensures via == Now().Route()
    {
      WaysAre();
      hide Best, Env.Resolves, SmartWay, TunnelWay, Now, Rotation.View, Environment;
      if smart != null {
        var n := smart.Len();
        if n > 0 {
          var best := smart.SelectBest();
          if best.Some? && best.value.hasDialer {
            return Smart(best.value.address);
          }
        }
      }
      if rotator != null {
        var n := rotator.Len();
        if n > 0 {
          var upstreamAddr := rotator.Current();
          if upstreamAddr != "" {
            var dialer := CreateSSDialer(upstreamAddr);
            if dialer {
              return Tunnel(upstreamAddr);
            }
          }
        }
      }
      return Direct;
    }

    // ------------------------------------------------------ single steps

    ghost method Log(events: seq<Event>)
      requires Valid()
      modifies this`trace
      ensures Valid() && At() == old(At())
      ensures Now() == old(Now()).(trace := old(Now()).trace + events)
    {
      trace := trace + events;
    }

    method MarkSmartDead(addr: string)
      requires Valid() && addr != ""
      modifies smart
      ensures Valid()
      ensures Now() == old(Now()).(fleet := old(Now()).fleet.SmartDead(addr))
    {
      if smart != null {
        smart.MarkDead(addr);
      }
    }

    /** Marking dead what the smart router or the pool know under this address. */
    method MarkAddrDead(addr: string)
      requires Valid()
      modifies pool, smart
      ensures Valid()
      ensures Now() == AfterMark(old(Now()), addr)
      ensures addr != "" && DistinctProxies(old(Now()).fleet.proxies) ==> Now().Route() != Smart(addr)
    {
      if DistinctProxies(Now().fleet.proxies) && addr != "" {
        MarkIsAvoided(Now(), addr);
      }
      hide RouteOf, DistinctProxies;
      if addr == "" {
        return;
      }
      if smart != null {
        smart.MarkDead(addr);
      }
      if pool != null {
        pool.MarkDead(addr);
      }
    }

    /** The blacklist and the dead list get the address. */
    method BlacklistAddr(addr: string)
      requires Valid()
      modifies pool, blacklist
      ensures Valid()
      ensures Now() == old(Now()).(fleet := old(Now()).fleet.Blacklisted(addr), dead := Grown(old(Now()).dead, addr))
      ensures forall other :: old(Now()).env.filtered && addr != "" && old(Now()).fleet.SameIP(addr, other) ==>
        Now().Route() != Smart(other)
    {
      BlamedAreAvoided(Now(), addr);
      hide RouteOf;
      if addr == "" {
        return;
      }
      if blacklist != null {
        blacklist.Add(addr);
      }
      if pool != null {
        pool.MarkDead(addr);
      }
    }

    /** The current address leaves the rotator. */
    method TakeCurrent() returns (addr: string)
      requires Valid() && Now().Head().Some?
      modifies rotator
      ensures Valid() && Some(addr) == old(Now()).Head()
      ensures Now() == old(Now()).(fleet := old(Now()).fleet.Behead())
    {
      hide Rotation.Dropped, Rotation.Ring.Behead;
      addr := rotator.RemoveCurrent();
    }

    /** The address leaves the rotator. */
    method TakeAddr(addr: string)
      requires Valid()
      modifies rotator
      ensures Valid()
      ensures Now() == old(Now()).(fleet := old(Now()).fleet.Strike(addr))
    {
      hide Rotation.Dropped, Rotation.View, Rotation.Ring.Strike;
      if rotator != null {
        rotator.Remove(addr);
      }
    }

    method RotatorLen() returns (n: nat)
      requires Valid()
      ensures n > 0 <==> Now().Head().Some?
      ensures n > 0 <==> !At().Empty()
    {
      if rotator == null {
        return 0;
      }
      n := rotator.Len();
    }

    /** No rotator address is left to retry with; without any rotator there is always
        the direct way. */
    method Exhausted() returns (yes: bool)
      requires Valid()
      ensures yes <==> At().Exhausted()
    {
      if rotator == null {
        return false;
      }
      var n := rotator.Len();
      yes := n == 0;
    }

    method CurrentAddr() returns (current: Option<string>)
      requires Valid()
      ensures current == Now().Head()
    {
      if rotator != null {
        var n := rotator.Len();
        if n > 0 {
          var addr := rotator.Current();
          return Some(addr);
        }
      }
      return None;
    }

    /** `Next`, if there is anybody to move on to. */
    method Rotate()
      requires Valid() && Progress(begun, Now())
      modifies this`trace, rotator
      ensures Valid() && Progress(begun, Now())
      ensures Now() == AfterTurn(old(Now())) && At() == old(At()).Turn()
    {
      ghost var before := Now();
      ProgressTurn(before);
      hide Progress, Rotation.View, Rotation.Turned;
      if rotator != null {
        var n := rotator.Len();
        if n > 0 {
          var _ := rotator.Next();
          trace := trace + [Turned];
        }
      }
      ProgressTransitive(begun, before, Now());
    }

    // ------------------------------------------------------ token and request

    /** The bootstrap request of the token manager; a 403 costs the proxy it went
        through its place. */
    method Bootstrap() returns (answer: BootReply, via: Route)
      requires Valid()
      modifies this`fetches, this`trace, rotator, pool, smart
      ensures Valid()
      ensures via == old(Now()).Route()
      ensures answer == world.bootstrap(old(fetches)) && fetches == old(fetches) + 1
      ensures Now() == AfterBoot(old(Now()), old(fetches))
    {
      hide *;
      Here();
      BootCases(Now(), fetches);
      var proxyAddr, usedRotator;
      via, proxyAddr, usedRotator := BootstrapRoute();
      answer := world.bootstrap(fetches);
      ghost var k := fetches;
      fetches := fetches + 1;
      if answer.Answer? && answer.status == 403 && proxyAddr != "" {
        BanProxy(proxyAddr, usedRotator, k);
      }
    }

    /** What a 403 from the bootstrap endpoint does to the proxy it came through. */
    method BanProxy(proxyAddr: string, usedRotator: bool, ghost k: nat)
      requires Valid() && world.bootstrap(k).Forbids()
      requires !Now().Route().Direct? && Now().Route().addr == proxyAddr != ""
      requires usedRotator <==> Now().Route().Tunnel?
      modifies this`trace, rotator, pool, smart
      ensures Valid()
      ensures Now() == AfterBoot(old(Now()), k)
      ensures
        DistinctProxies(old(Now()).fleet.proxies) && (usedRotator ==> Rotation.Distinct(old(Now()).fleet.List())) ==>
        Now().Route() != old(Now()).Route() && Now().Route() != Smart(proxyAddr)
    {
      if DistinctProxies(Now().fleet.proxies) && (usedRotator ==> Rotation.Distinct(Now().fleet.List())) {
        BanIsAvoided(Now(), k);
      }
      assert pool == null ==> Now().dead == None;
      ghost var before, via := Now(), Now().Route();
      BanIs(before, via, k);
      Here();
      hide *;
      MarkSmartDead(proxyAddr);
      if pool != null {
        MarkAddrDead(proxyAddr);
      }
      if usedRotator {
        TakeAddr(proxyAddr);
        Log([Banned(k, via), Dropped(proxyAddr)]);
      } else {
        Log([Banned(k, via)]);
      }
    }

    /** Forgets the cached token. */
    method Invalidate()
      requires Valid()
      modifies this`token
      ensures Valid() && token == None && Now() == old(Now()) && At() == old(At())
    {
      token := None;
    }

    /** A fresh token, if the bootstrap request succeeds, and it is cached. */
    method Fetch() returns (t: Option<Token>)
      requires Valid()
      modifies this`token, this`fetches, this`trace, rotator, pool, smart
      ensures Valid()
      ensures fetches == old(fetches) + 1
      ensures Now() == AfterBoot(old(Now()), old(fetches))
      ensures t.Some? <==> world.bootstrap(old(fetches)).GivesToken()
      ensures t.Some? ==> token == t && t.value == Token(world.bootstrap(old(fetches)).jwt, old(Now()).Route())
      ensures t.None? ==> token == old(token)
    {
      hide AfterBoot, Now, Valid;
      var answer, via := Bootstrap();
      if answer.NoAnswer? || answer.status != 200 || answer.jwt == "" {
        return None;
      }
      token := Some(Token(answer.jwt, via));
      return token;
    }

    /** The cached token, or else a fresh one. */
    method Get() returns (t: Option<Token>)
      requires Valid()
      modifies this`token, this`gets, this`fetches, this`trace, rotator, pool, smart
      ensures Valid() && gets == old(gets) + 1
      ensures old(Cached()) ==>
        t == old(token) == token && fetches == old(fetches) && Now() == old(Now())
      ensures !old(Cached()) ==>
        && fetches == old(fetches) + 1 && Now() == AfterBoot(old(Now()), old(fetches))
        && (t.Some? <==> world.bootstrap(old(fetches)).GivesToken())
        && (t.Some? ==> token == t && t.value == Token(world.bootstrap(old(fetches)).jwt, old(Now()).Route()))
        && (t.None? ==> token == old(token))
    {
      hide AfterBoot, Now, Valid;
      gets := gets + 1;
      if token.Some? && world.unexpired(gets) {
        return token;
      }
      t := Fetch();
    }

    /** `Get`, noted down. */
    method GetToken(phase: Phase) returns (t: Option<Token>)
      requires Valid() && Progress(begun, Now())
      modifies this`token, this`gets, this`fetches, this`trace, rotator, pool, smart
      ensures Valid() && Progress(begun, Now()) && gets == old(gets) + 1
      ensures old(Now()).trace <= Now().trace && EndsWith(Now().trace, [Gotten(phase, t.Some?, Now().Head())])
      ensures old(Cached()) ==>
        t == old(token) == token && t.Some? && At() == old(At()) && Now() == AfterNote(old(Now()), phase, true)
      ensures !old(Cached()) ==>
        && At() == old(At()).Fetched(begun.env) && Now() == AfterLook(old(Now()), phase, old(fetches))
        && (t.Some? <==> old(At()).Token(begun.env))
        && (t.Some? ==> token == t && t.value.via == old(Now()).Route())
        && (t.None? ==> token == old(token))
    {
      NotCached();
      ghost var before, cached, k := Now(), Cached(), fetches;
      hide *;
      SameWorld();
      Here();
      t := Get();
      LookIsProgress(begun, before, Now(), phase, k, forwards, cached, t.Some?);
      Log([Gotten(phase, t.Some?, Now().Head())]);
      Here();
    }

    /** Drops the cached token and gets a fresh one, fetched the way of now. */
    method RefreshToken(phase: Phase) returns (t: Option<Token>)
      requires Valid() && Progress(begun, Now())
      modifies this`token, this`gets, this`fetches, this`trace, rotator, pool, smart
      ensures Valid() && Progress(begun, Now()) && gets == old(gets) + 1
      ensures old(Now()).trace <= Now().trace
      ensures At() == old(At()).Fetched(begun.env) && Now() == AfterLook(old(Now()), phase, old(fetches))
      ensures t.Some? <==> old(At()).Token(begun.env)
      ensures t.Some? ==> t.value.via == Now().Route() && Now() == AfterNote(old(Now()), phase, true)
      ensures t == token
      ensures EndsWith(Now().trace, [Gotten(phase, t.Some?, Now().Head())])
    {
      NotCached();
      ghost var before, k, p := Now(), fetches, At();
      hide *;
      SameWorld();
      Here();
      Invalidate();
      NotCached();
      t := GetToken(phase);
      PointCases(p, before);
      LookCases(before, phase, k);
    }

    lemma NotCached()
      ensures token == None ==> !Cached()
      ensures Cached() ==> token.Some?
    {
    }

    /** Routes a chat request and notes who is current at that moment. */
    method NewForward(phase: Phase, auth: Token) returns (of: Forward)
      requires Valid()
      requires Refreshed(phase) ==> auth.via == Now().Route()
      ensures of == Forward(forwards, phase, Now().Head(), Now().Route(), auth)
      ensures ForwardOk(Environment(), of)
    {
      RouteShape(Environment(), FleetNow());
      hide RouteOf, Env.Resolves;
      var route := ForwardRoute();
      var current := CurrentAddr();
      of := Forward(forwards, phase, current, route, auth);
    }

    /** One chat request. */
    method ForwardRequest(phase: Phase, auth: Token) returns (resp: Option<Resp>)
      requires Valid() && Progress(begun, Now())
      requires Refreshed(phase) ==> auth.via == Now().Route()
      requires Prepared(Now().trace, phase, Now().Head())
      modifies this`forwards, this`trace
      ensures Valid() && Progress(begun, Now()) && forwards == old(forwards) + 1
      ensures old(Now()).trace <= Now().trace
      ensures At() == old(At()).Sent()
      ensures Now() == AfterSend(old(Now()), Forward(old(forwards), phase, old(Now()).Head(), old(Now()).Route(), auth))
      ensures resp.None? <==> old(At()).Answer(begun.env).Failed?
      ensures resp.Some? ==> resp.value.of == Forward(old(forwards), phase, old(Now()).Head(), old(Now()).Route(), auth)
      ensures resp.Some? ==> Fresh(Now(), resp.value) && resp.value.of.k == old(At()).forwards
      ensures resp.Some? ==> resp.value.reply == old(At()).Answer(begun.env)
    {
      ghost var before, p := Now(), At();
      hide *;
      SameWorld();
      Here();
      var of := NewForward(phase, auth);
      var reply := world.upstream(forwards);
      forwards := forwards + 1;
      Log([Forwarded(of)]);
      Here();
      SendIs(before, of);
      PointCases(p, before);
      ProgressSend(before, of);
      ProgressTransitive(begun, before, Now());
      if reply.Reply? {
        resp := Some(Resp(of, reply));
        Received(before, of, reply);
      } else {
        resp := None;
      }
    }

    // ------------------------------------------------------ losing a proxy

    /** Checks a text of the answer at hand for the block message; if it is there, the
        current address loses its place and is blacklisted. */
    method Inspect(resp: Resp, text: string) returns (blocked: bool)
      requires Valid() && Progress(begun, Now()) && UpToDate(Now(), resp) && CameFrom(text, resp.reply)
      modifies this`trace, rotator, pool, blacklist
      ensures Valid() && Progress(begun, Now())
      ensures blocked == world.Blocked(text)
      ensures Now() == AfterText(old(Now()), resp.of, text) && At() == old(At()).Checked(begun.env, text)
      ensures old(Now()).trace <= Now().trace
      ensures !blocked ==> UpToDate(Now(), resp)
      ensures Inspected(resp.of, text) in Now().trace
    {
      hide *;
      SameWorld();
      Here();
      ghost var before, p := Now(), At();
      TextCases(before, resp, text);
      CheckedIs(p, before, resp.of, text);
      ProgressText(before, resp.of, text);
      blocked := world.Blocked(text);
      if blocked {
        var n := RotatorLen();
        if n > 0 {
          var deadAddr := TakeCurrent();
          if deadAddr != "" {
            BlacklistAddr(deadAddr);
          }
          Log([Inspected(resp.of, text), Dropped(deadAddr)]
              + if deadAddr == "" then [] else [Blamed(deadAddr, resp.of)]);
        } else {
          Log([Inspected(resp.of, text)]);
        }
      } else {
        Log([Inspected(resp.of, text)]);
      }
      Here();
      ProgressTransitive(begun, before, Now());
    }

    /** After a failed token refresh within a block retry: the current address loses
        its place and is marked dead. */
    method DropFailing(phase: Phase)
      requires Valid() && Progress(begun, Now())
      requires BlockRetry(phase) && EndsWith(Now().trace, [Gotten(phase, false, Now().Head())])
      modifies this`trace, rotator, pool, smart
      ensures Valid() && Progress(begun, Now())
      ensures Now() == AfterGivingUp(old(Now())) && At() == old(At()).GiveUp()
      ensures old(Now()).trace <= Now().trace
    {
      hide *;
      Here();
      ghost var before, p := Now(), At();
      GivingUpCases(before, p);
      ProgressGiveUp(before, phase);
      var n := RotatorLen();
      if n > 0 {
        var deadAddr := TakeCurrent();
        if deadAddr != "" {
          MarkAddrDead(deadAddr);
        }
        Log([Dropped(deadAddr)]);
      }
      Here();
      ProgressTransitive(begun, before, Now());
    }

    /** After a 403: the current address is removed and marked dead. */
    method DropForbidden(resp: Resp)
      requires Valid() && Progress(begun, Now()) && Fresh(Now(), resp) && resp.reply.status == 403
      modifies this`trace, rotator, pool, smart
      ensures Valid() && Progress(begun, Now())
      ensures Now() == AfterForbidding(old(Now())) && At() == old(At()).Forbid()
    {
      hide *;
      Here();
      ghost var before, p := Now(), At();
      ForbiddingCases(before, p);
      FreshForbidden(before, resp);
      var n := RotatorLen();
      if n > 0 {
        var current := CurrentAddr();
        var currentAddr := current.value;
        if currentAddr != "" {
          TakeAddr(currentAddr);
          MarkAddrDead(currentAddr);
          Log([Dropped(currentAddr)]);
        }
      }
      Here();
      ProgressTransitive(begun, before, Now());
    }

    /** A client that went away in the middle of a stream costs the current address
        its good standing, but not its place. */
    method MarkProxyDead(writeError: bool)
      requires Valid() && Progress(begun, Now())
      modifies pool, smart
      ensures Valid() && Progress(begun, Now())
      ensures Now() == if writeError && old(Now()).Head().Some? then AfterMark(old(Now()), old(Now()).Head().value)
                       else old(Now())
      ensures Now().trace == old(Now()).trace
    {
      ghost var before := Now();
      MarkCases(before);
      hide *;
      if !writeError {
        return;
      }
      var n := RotatorLen();
      if n == 0 {
        return;
      }
      var current := CurrentAddr();
      var addr := current.value;
      if addr == "" {
        return;
      }
      MarkAddrDead(addr);
      ProgressMark(before, addr);
      ProgressTransitive(begun, before, Now());
    }

    // ------------------------------------------------------ the phases

    /** The first token: up to five looks, moving on after each that fails. */
    method FirstToken() returns (t: Option<Token>)
      requires Valid() && Progress(begun, Now())
      modifies this`token, this`gets, this`fetches, this`trace, rotator, pool, smart
      ensures Valid() && Progress(begun, Now())
      ensures gets <= old(gets) + JWT_REFRESH_RETRIES
      ensures Look(t.Some?, At()) == FirstLook(begun.env, old(Cached()), old(At()), JWT_REFRESH_RETRIES)
      ensures t.Some? ==> EndsWith(Now().trace, [Gotten(First, true, Now().Head())])
      ensures t.None? ==> gets == old(gets) + JWT_REFRESH_RETRIES || Now().Head().None?
    {
      hide *;
      t := None;
      var attempt := 0;
      while attempt < JWT_REFRESH_RETRIES
        invariant Valid() && gets == old(gets) + attempt && attempt <= JWT_REFRESH_RETRIES
        invariant Progress(begun, Now()) && t.None?
        invariant FirstLook(begun.env, Cached(), At(), JWT_REFRESH_RETRIES - attempt)
                  == FirstLook(begun.env, old(Cached()), old(At()), JWT_REFRESH_RETRIES)
      {
        FirstLookStep(begun.env, Cached(), At(), JWT_REFRESH_RETRIES - attempt);
        attempt := attempt + 1;
        t := GetToken(First);
        if t.Some? {
          return;
        }
        var poolLen := RotatorLen();
        if poolLen == 0 {
          return;
        }
        Rotate();
        Invalidate();
        NotCached();
      }
      FirstLookStep(begun.env, Cached(), At(), 0);
    }

    /** The first request: up to six attempts, moving on after each that fails. It
        returns the first answer there is. */
    method FirstForward(auth: Token) returns (resp: Option<Resp>)
      requires Valid() && Progress(begun, Now()) && EndsWith(Now().trace, [Gotten(First, true, Now().Head())])
      modifies this`forwards, this`trace, rotator
      ensures Valid() && Progress(begun, Now())
      ensures forwards <= old(forwards) + TIMEOUT_RETRIES + 1
      ensures var leg := FirstAnswer(begun.env, old(At()), TIMEOUT_RETRIES + 1);
              && At() == leg.at && (resp.None? <==> leg.fate == Refused(502))
              && (resp.Some? ==> leg.fate == Answered(resp.value.of.k))
      ensures resp.Some? ==> Fresh(Now(), resp.value) && resp.value.of.phase == First
    {
      hide *;
      PreparedFirst(Now().trace, Now().Head());
      NotRefreshed(First);
      resp := None;
      var retry := 0;
      while retry <= TIMEOUT_RETRIES
        invariant Valid() && forwards == old(forwards) + retry && retry <= TIMEOUT_RETRIES + 1
        invariant Progress(begun, Now()) && resp.None?
        invariant Prepared(Now().trace, First, Now().Head())
        invariant FirstAnswer(begun.env, At(), TIMEOUT_RETRIES + 1 - retry)
                  == FirstAnswer(begun.env, old(At()), TIMEOUT_RETRIES + 1)
      {
        FirstAnswerStep(begun.env, At(), TIMEOUT_RETRIES + 1 - retry);
        resp := ForwardRequest(First, auth);
        if resp.Some? {
          return;
        }
        ghost var failed := Now();
        Rotate();
        PreparedToTry(failed, First);
        retry := retry + 1;
      }
      FirstAnswerStep(begun.env, At(), 0);
    }

    /** On 401 and 429: one more try with a fresh token after moving on. The previous
        response is closed right before the request, so there must still be one. */
    method MoveOn(phase: Phase, haveResp: bool) returns (a: Attempt)
      requires Valid() && Progress(begun, Now())
      requires phase.Retry429? || (phase.Retry401? && !At().Empty())
      modifies this`token, this`gets, this`fetches, this`forwards, this`trace, rotator, pool, smart
      ensures Valid() && Progress(begun, Now())
      ensures gets == old(gets) + 1 && forwards <= old(forwards) + 1
      ensures a.NoToken? || a.NilResponse? || a.Unanswered? || a.Got?
      ensures var t := old(At()).Turn();
              var q := t.Fetched(begun.env);
              && (a.NoToken? <==> !t.Token(begun.env))
              && (a.NilResponse? <==> t.Token(begun.env) && !haveResp)
              && (a.Unanswered? <==> t.Token(begun.env) && haveResp && q.Answer(begun.env).Failed?)
              && At() == (if a.NoToken? || a.NilResponse? then q else q.Sent())
              && (a.Got? ==> a.resp.of.k == q.forwards && a.resp.reply == q.Answer(begun.env))
      ensures a.Got? ==> Fresh(Now(), a.resp) && a.resp.of.phase == phase
    {
      hide *;
      ghost var start := Now();
      Here();
      Rotate();
      ghost var turned := Now();
      var t := RefreshToken(phase);
      if t.None? {
        return NoToken;
      }
      if !haveResp {
        return NilResponse;
      }
      PreparedAfterTurn(start, turned, phase);
      var resp := ForwardRequest(phase, t.value);
      return if resp.None? then Unanswered else Got(resp.value);
    }

    /** Status 401: move on and refresh the token, up to five times. */
    method Recover401(resp0: Resp, client: Client) returns (flow: Flow)
      requires Valid() && Progress(begun, Now()) && resp0.reply.status == 401
      modifies this`token, this`gets, this`fetches, this`forwards, this`trace, rotator, pool, smart, client
      ensures Valid() && Progress(begun, Now())
      ensures gets <= old(gets) + JWT_REFRESH_RETRIES && forwards <= old(forwards) + JWT_REFRESH_RETRIES
      ensures Matches(Leg401(begun.env, old(At()), JWT_REFRESH_RETRIES, true), flow, At())
      ensures flow.Finished? ==> client.replies == old(client.replies) + [Error(401)]
      ensures !flow.Finished? ==> client.replies == old(client.replies)
      ensures flow.Finished? ==> Leg401(begun.env, old(At()), JWT_REFRESH_RETRIES, true).fate == Refused(401)
      ensures flow.Go? ==> Fresh(Now(), flow.resp) && flow.resp.reply.status != 401 && flow.resp.of.phase == Retry401
      ensures flow.Finished? ==> gets == old(gets) + JWT_REFRESH_RETRIES || Now().Head().None?
    {
      hide *;
      ghost var leg := Leg401(begun.env, At(), JWT_REFRESH_RETRIES, true);
      var resp := Some(resp0);
      var attempt := 0;
      while attempt < JWT_REFRESH_RETRIES
        invariant Valid() && Progress(begun, Now()) && client.replies == old(client.replies)
        invariant attempt <= JWT_REFRESH_RETRIES
        invariant gets == old(gets) + attempt && forwards <= old(forwards) + attempt
        invariant resp.Some? ==> resp.value.reply.status == 401
        invariant leg == Leg401(begun.env, At(), JWT_REFRESH_RETRIES - attempt, resp.Some?)
      {
        var poolLen := RotatorLen();
        if poolLen == 0 {
          break;
        }
        Leg401Step(begun.env, At(), JWT_REFRESH_RETRIES - attempt, resp.Some?);
        attempt := attempt + 1;
        var a := MoveOn(Retry401, resp.Some?);
        if a.NilResponse? {
          MatchesCases(leg, Panicked, At());
          return Panicked;
        }
        if a.Unanswered? {
          resp := None;
        } else if a.Got? {
          resp := Some(a.resp);
          if a.resp.reply.status != 401 {
            MatchesCases(leg, Go(a.resp), At());
            return Go(a.resp);
          }
        }
      }
      Leg401Step(begun.env, At(), JWT_REFRESH_RETRIES - attempt, resp.Some?);
      if resp.None? {
        MatchesCases(leg, Panicked, At());
        return Panicked;
      }
      MatchesCases(leg, Finished, At());
      client.Reply(Error(401));
      return Finished;
    }

    /** Status 403: the current upstream goes, the token is refreshed, and after
        moving on there is one more try. */
    method Recover403(resp0: Resp, client: Client) returns (flow: Flow)
      requires Valid() && Progress(begun, Now()) && Fresh(Now(), resp0) && resp0.reply.status == 403
      modifies this`token, this`gets, this`fetches, this`forwards, this`trace, rotator, pool, smart, client
      ensures Valid() && Progress(begun, Now())
      ensures gets == old(gets) + 1 && forwards <= old(forwards) + 1
      ensures Matches(Leg403(begun.env, old(At())), flow, At())
      ensures flow.Finished? ==> Leg403(begun.env, old(At())).fate in {Refused(401), Refused(502)}
      ensures flow.Finished? ==>
        client.replies == old(client.replies) + [Error(Leg403(begun.env, old(At())).fate.status)]
      ensures !flow.Finished? ==> client.replies == old(client.replies)
      ensures flow.Go? ==> Fresh(Now(), flow.resp) && flow.resp.of.phase == Retry403
    {
      hide *;
      ghost var leg := Leg403(begun.env, At());
      Leg403Step(begun.env, At());
      DropForbidden(resp0);
      var t := RefreshToken(Retry403);
      if t.None? {
        MatchesCases(leg, Finished, At());
        client.Reply(Error(401));
        return Finished;
      }
      var resp := TryBehind(t.value);
      if resp.None? {
        MatchesCases(leg, Finished, At());
        client.Reply(Error(502));
        return Finished;
      }
      MatchesCases(leg, Go(resp.value), At());
      return Go(resp.value);
    }

    /** One try through the next upstream but one. */
    method TryBehind(auth: Token) returns (resp: Option<Resp>)
      requires Valid() && Progress(begun, Now())
      modifies this`forwards, this`trace, rotator
      ensures Valid() && Progress(begun, Now()) && forwards == old(forwards) + 1
      ensures At() == old(At()).Turn().Sent()
      ensures resp.None? <==> old(At()).Turn().Answer(begun.env).Failed?
      ensures resp.Some? ==> Fresh(Now(), resp.value) && resp.value.of.phase == Retry403
      ensures resp.Some? ==> resp.value.of.k == old(At()).Turn().forwards
    {
      hide *;
      ghost var start := Now();
      Rotate();
      PreparedToTry(start, Retry403);
      NotRefreshed(Retry403);
      resp := ForwardRequest(Retry403, auth);
    }

    /** Status 429: move on and refresh the token, up to twice, and with a fallback
        configured one more time without moving on. */
    method Recover429(resp0: Resp, client: Client) returns (flow: Flow)
      requires Valid() && Progress(begun, Now()) && resp0.reply.status == 429
      modifies this`token, this`gets, this`fetches, this`forwards, this`trace, rotator, pool, smart, client
      ensures Valid() && Progress(begun, Now())
      ensures gets <= old(gets) + RATE_LIMIT_RETRIES + 1 && forwards <= old(forwards) + RATE_LIMIT_RETRIES + 1
      ensures Matches(Leg429(begun.env, hasFallback, old(At()), RATE_LIMIT_RETRIES, true), flow, At())
      ensures flow.Finished? ==> client.replies == old(client.replies) + [Error(429)]
      ensures !flow.Finished? ==> client.replies == old(client.replies)
      ensures flow.Finished? ==>
        Leg429(begun.env, hasFallback, old(At()), RATE_LIMIT_RETRIES, true).fate == Refused(429)
      ensures flow.Go? ==> Fresh(Now(), flow.resp) && flow.resp.reply.status != 429
      ensures flow.Go? ==> flow.resp.of.phase == Retry429 || flow.resp.of.phase == Fallback429
      ensures flow.Finished? ==> gets == old(gets) + RATE_LIMIT_RETRIES + if hasFallback then 1 else 0
    {
      hide *;
      ghost var leg := Leg429(begun.env, hasFallback, At(), RATE_LIMIT_RETRIES, true);
      var resp := Some(resp0);
      var attempt := 0;
      while attempt < RATE_LIMIT_RETRIES
        invariant Valid() && Progress(begun, Now()) && client.replies == old(client.replies)
        invariant attempt <= RATE_LIMIT_RETRIES
        invariant gets == old(gets) + attempt && forwards <= old(forwards) + attempt
        invariant resp.Some? ==> resp.value.reply.status == 429
        invariant leg == Leg429(begun.env, hasFallback, At(), RATE_LIMIT_RETRIES - attempt, resp.Some?)
      {
        Leg429Step(begun.env, hasFallback, At(), RATE_LIMIT_RETRIES - attempt, resp.Some?);
        attempt := attempt + 1;
        var a := MoveOn(Retry429, resp.Some?);
        if a.NilResponse? {
          MatchesCases(leg, Panicked, At());
          return Panicked;
        }
        if a.Unanswered? {
          resp := None;
        } else if a.Got? {
          resp := Some(a.resp);
          if a.resp.reply.status != 429 {
            MatchesCases(leg, Go(a.resp), At());
            return Go(a.resp);
          }
        }
      }
      Leg429Step(begun.env, hasFallback, At(), 0, resp.Some?);
      if resp.None? {
        MatchesCases(leg, Panicked, At());
        return Panicked;
      }
      if hasFallback {
        resp := TryFallback(resp.value);
        if resp.Some? {
          MatchesCases(leg, Go(resp.value), At());
          return Go(resp.value);
        }
      }
      MatchesCases(leg, Finished, At());
      client.Reply(Error(429));
      return Finished;
    }

    /** The fallback's try, with a fresh token or else the previous one; only an answer
        other than 429 is any good. */
    method TryFallback(given: Resp) returns (resp: Option<Resp>)
      requires Valid() && Progress(begun, Now())
      modifies this`token, this`gets, this`fetches, this`forwards, this`trace, rotator, pool, smart
      ensures Valid() && Progress(begun, Now())
      ensures gets == old(gets) + 1 && forwards == old(forwards) + 1
      ensures var leg := Fallback(begun.env, old(At()));
              At() == leg.at && leg.fate == if resp.Some? then Answered(resp.value.of.k) else Refused(429)
      ensures resp.Some? ==>
        Fresh(Now(), resp.value) && resp.value.reply.status != 429 && resp.value.of.phase == Fallback429
      ensures token.Some? <==> old(At()).Token(begun.env)
      ensures var auth := if token.Some? then token.value else given.of.token;
              EndsWith(Now().trace, [Forwarded(Forward(old(forwards), Fallback429, Now().Head(), Now().Route(), auth))])
    {
      hide *;
      FallbackStep(begun.env, At());
      var t := RefreshToken(Fallback429);
      PreparedFallback(Now().trace, t.Some?, Now().Head());
      NotRefreshed(Fallback429);
      ghost var before := Now();
      var auth := if t.Some? then t.value else given.of.token;
      resp := ForwardRequest(Fallback429, auth);
      SendIs(before, Forward(old(forwards), Fallback429, before.Head(), before.Route(), auth));
      if resp.Some? {
        FreshIsUpToDate(Now(), resp.value);
        if resp.value.reply.status == 429 {
          resp := None;
        }
      }
    }

    method ReplyError(status: int, stream: bool, client: Client)
      requires Valid() && status in {400, 401, 403, 429, 500, 502, 503}
      modifies client
      ensures client.replies == old(client.replies) + [Error(status)]
      ensures OneReply(world, stream, Now().trace, old(client.replies), client.replies)
    {
      client.Reply(Error(status));
    }

    /** A relayed event stream, and what a client's disappearance does to the proxy. */
    method RelayStream(resp: Resp, client: Client)
      requires Valid() && Progress(begun, Now()) && Genuine(world, resp) && resp.reply.eventStream
      requires resp.of.phase.RetryJSON?
               || (!world.Blocked(resp.reply.Prefix()) && Inspected(resp.of, resp.reply.Prefix()) in Now().trace)
      modifies pool, smart, client
      ensures Valid() && Progress(begun, Now())
      ensures client.replies == old(client.replies) + [Streamed(resp.of, resp.reply.status)]
      ensures OneReply(world, true, Now().trace, old(client.replies), client.replies)
      ensures At() == old(At()).Relayed(begun.env) && Now().trace == old(Now()).trace
    {
      ghost var before := client.replies;
      client.Reply(Streamed(resp.of, resp.reply.status));
      assert OneReply(world, true, Now().trace, before, client.replies) by {
        hide Compliance.Detect;
      }
      hide *;
      SameWorld();
      Here();
      RelayedIs(At(), Now());
      MarkProxyDead(world.relayWriteError);
      Here();
    }

    method RelayBody(resp: Resp, body: string, stream: bool, client: Client)
      requires Valid() && Genuine(world, resp) && CameFrom(body, resp.reply)
      requires Inspected(resp.of, body) in Now().trace
      requires !stream ==> body == resp.reply.body && !world.Blocked(body)
      modifies client
      ensures client.replies == old(client.replies) + [Relayed(resp.of, resp.reply.status, body)]
      ensures OneReply(world, stream, Now().trace, old(client.replies), client.replies)
    {
      hide Compliance.Detect;
      client.Reply(Relayed(resp.of, resp.reply.status, body));
    }

    method ReplyBare(resp: Resp, client: Client)
      requires Valid() && Genuine(world, resp) && resp.reply.readError
      modifies client
      ensures client.replies == old(client.replies) + [Bare(resp.of, resp.reply.status)]
      ensures OneReply(world, false, Now().trace, old(client.replies), client.replies)
    {
      client.Reply(Bare(resp.of, resp.reply.status));
    }

    // ------------------------------------------------------ block messages

    /** One more try with a fresh token; an upstream that gets none loses its place.
        The streaming loop closes the previous response right before the request, so
        there it must still have one. */
    method TryAgain(phase: Phase, haveResp: bool) returns (a: Attempt)
      requires Valid() && Progress(begun, Now()) && BlockRetry(phase) && !At().Exhausted()
      modifies this`token, this`gets, this`fetches, this`forwards, this`trace, rotator, pool, smart
      ensures Valid() && Progress(begun, Now())
      ensures old(Now()).trace <= Now().trace
      ensures gets == old(gets) + 1 && forwards <= old(forwards) + 1
      ensures a.NoToken? || a.NilResponse? || a.Unanswered? || a.Got?
      ensures var p := old(At());
              var q := p.Fetched(begun.env);
              && (a.NoToken? <==> !p.Token(begun.env))
              && (a.NilResponse? <==> p.Token(begun.env) && !haveResp)
              && (a.Unanswered? <==> p.Token(begun.env) && haveResp && q.Answer(begun.env).Failed?)
              && At() == (if a.NoToken? then q.GiveUp() else if a.NilResponse? then q else q.Sent())
              && (a.Got? ==> a.resp.of.k == q.forwards && a.resp.reply == q.Answer(begun.env))
      ensures a.NoToken? ==> Now() == AfterGivingUp(AfterLook(old(Now()), phase, old(fetches)))
      ensures a.Got? ==> UpToDate(Now(), a.resp) && a.resp.of.phase == phase
      ensures a.Unanswered? || a.Got? ==> !At().Exhausted()
    {
      hide *;
      ghost var start, p := Now(), At();
      TokenKeepsFleet(begun.env, p);
      var t := RefreshToken(phase);
      if t.None? {
        DropFailing(phase);
        return NoToken;
      }
      if !haveResp {
        return NilResponse;
      }
      PreparedAfterToken(start, phase);
      var resp := ForwardRequest(phase, t.value);
      if resp.None? {
        return Unanswered;
      }
      FreshIsUpToDate(Now(), resp.value);
      return Got(resp.value);
    }

    /** One more try for a stream, delivered if its first lines are clean. */
    method TryStream(haveResp: bool, client: Client) returns (a: Attempt)
      requires Valid() && Progress(begun, Now()) && !At().Exhausted()
      modifies this`token, this`gets, this`fetches, this`forwards, this`trace,
               rotator, pool, smart, blacklist, client
      ensures Valid() && Progress(begun, Now())
      ensures gets == old(gets) + 1 && forwards <= old(forwards) + 1
      ensures !a.Got?
      ensures var p := old(At());
              var q := p.Fetched(begun.env);
              var r := q.Answer(begun.env);
              && (a.NoToken? <==> !p.Token(begun.env))
              && (a.NilResponse? <==> p.Token(begun.env) && !haveResp)
              && (a.Unanswered? <==> p.Token(begun.env) && haveResp && r.Failed?)
              && (a.Delivered? || a.StillBlocked? ==> r.Reply? && (a.StillBlocked? <==> world.Blocked(r.Prefix())))
              && (a.NoToken? ==> At() == q.GiveUp())
              && (a.Unanswered? ==> At() == q.Sent())
              && (a.StillBlocked? ==> At() == q.Sent().Checked(begun.env, r.Prefix()))
              && (a.NilResponse? ==> At() == q)
              && (a.Delivered? ==>
                    Ends(Passed(begun.env, q.forwards, q.Sent()), false, old(client.replies), client.replies, At()))
      ensures if a.Delivered? then OneReply(world, true, Now().trace, old(client.replies), client.replies)
              else client.replies == old(client.replies)
    {
      hide *;
      ghost var q := At().Fetched(begun.env);
      BlockRetries();
      a := TryAgain(RetryStream, haveResp);
      if a.Got? {
        var r := a.resp;
        SameWorld();
        TextsOf(Now(), r);
        CleanStays(q.Sent(), begun.env, r.reply.Prefix());
        var blocked := Inspect(r, r.reply.Prefix());
        if blocked {
          a := StillBlocked(r);
        } else {
          DeliverRetry(r, client);
          a := Delivered;
        }
      }
    }

    /** A stream that starts with a block message: up to five more tries, each with a
        fresh token, through whoever is current after the blamed one has gone. */
    method RetryBlockedStream(client: Client) returns (panicked: bool)
      requires Valid() && Progress(begun, Now())
      modifies this`token, this`gets, this`fetches, this`forwards, this`trace,
               rotator, pool, smart, blacklist, client
      ensures Valid() && Progress(begun, Now())
      ensures gets <= old(gets) + MAX_BLOCK_RETRIES && forwards <= old(forwards) + MAX_BLOCK_RETRIES
      ensures Ends(StreamRetries(begun.env, old(At()), MAX_BLOCK_RETRIES, true),
                   panicked, old(client.replies), client.replies, At())
      ensures !panicked ==> OneReply(world, true, Now().trace, old(client.replies), client.replies)
    {
      hide *;
      SameWorld();
      ghost var close := StreamRetries(begun.env, At(), MAX_BLOCK_RETRIES, true);
      var have := true;
      var retry := 0;
      while retry < MAX_BLOCK_RETRIES
        invariant Valid() && Progress(begun, Now()) && client.replies == old(client.replies)
        invariant retry <= MAX_BLOCK_RETRIES
        invariant gets == old(gets) + retry && forwards <= old(forwards) + retry
        invariant close == StreamRetries(begun.env, At(), MAX_BLOCK_RETRIES - retry, have)
      {
        StreamStep(begun.env, At(), MAX_BLOCK_RETRIES - retry, have);
        var done := Exhausted();
        if done {
          break;
        }
        retry := retry + 1;
        var a := TryStream(have, client);
        if a.Delivered? {
          return false;
        }
        if a.NilResponse? {
          EndsWithNothing(close, client.replies, At());
          return true;
        }
        if a.Unanswered? {
          have := false;
        } else if a.StillBlocked? {
          have := true;
        }
      }
      StreamStep(begun.env, At(), MAX_BLOCK_RETRIES - retry, have);
      EndsWithError(close, 403, client.replies, At());
      ReplyError(403, true, client);
      return false;
    }

    /** What the content type and the buffered lines make of an answer. */
    method LooksLikeSSE(r: ActualReply) returns (isSSE: bool)
      ensures isSSE == world.LooksLikeSSE(r)
    {
      hide SSEFormat.ValidSSE;
      isSSE := false;
      var buffered := r.Prefix();
      if r.eventStream && buffered != "" {
        isSSE := SSEFormat.IsValidSSEBuffer(world.chars, buffered);
      }
    }

    /** A retried answer whose first lines are clean. Its whole body is inspected too
        if it is no event stream, but passed on in any case. */
    method DeliverRetry(r: Resp, client: Client)
      requires Valid() && Progress(begun, Now()) && UpToDate(Now(), r)
      requires !world.Blocked(r.reply.Prefix()) && Inspected(r.of, r.reply.Prefix()) in Now().trace
      modifies this`trace, rotator, pool, smart, blacklist, client
      ensures Valid() && Progress(begun, Now())
      ensures client.replies == old(client.replies) + [
        if world.LooksLikeSSE(r.reply) then Streamed(r.of, r.reply.status)
        else Relayed(r.of, r.reply.status, r.reply.Full())]
      ensures !world.LooksLikeSSE(r.reply) ==> Now() == AfterText(old(Now()), r.of, r.reply.Full())
      ensures Ends(Passed(begun.env, r.of.k, old(At())), false, old(client.replies), client.replies, At())
      ensures OneReply(world, true, Now().trace, old(client.replies), client.replies)
    {
      hide *;
      SameWorld();
      TextsOf(Now(), r);
      PassedIs(begun.env, r.of.k, At());
      ghost var close := Passed(begun.env, r.of.k, At());
      var isSSE := LooksLikeSSE(r.reply);
      if !isSSE {
        var full := r.reply.Full();
        var _ := Inspect(r, full);
        RelayBody(r, full, true, client);
        EndsWithReply(close, Relayed(r.of, r.reply.status, full), old(client.replies), At());
        return;
      }
      RelayStream(r, client);
      EndsWithReply(close, Streamed(r.of, r.reply.status), old(client.replies), At());
    }

    /** One more try for a blocked body on a stream; an event stream that comes back is
        relayed as it is. */
    method TryJSON(client: Client) returns (done: bool)
      requires Valid() && Progress(begun, Now()) && !At().Exhausted()
      modifies this`token, this`gets, this`fetches, this`forwards, this`trace,
               rotator, pool, smart, blacklist, client
      ensures Valid() && Progress(begun, Now())
      ensures old(Now()).trace <= Now().trace
      ensures gets == old(gets) + 1 && forwards <= old(forwards) + 1
      ensures var p := old(At());
              var q := p.Fetched(begun.env);
              var r := q.Answer(begun.env);
              && (done <==> p.Token(begun.env) && r.Reply? && (r.eventStream || !world.Blocked(r.body)))
              && (!done ==> At() == if !p.Token(begun.env) then q.GiveUp() else if r.Failed? then q.Sent()
                                    else q.Sent().Checked(begun.env, r.body))
              && (done ==> Ends(if r.eventStream then Close(StreamReply(q.forwards), q.Sent().Relayed(begun.env))
                                else Close(BodyReply(q.forwards, r.body), q.Sent()),
                                false, old(client.replies), client.replies, At()))
      ensures if done then OneReply(world, true, Now().trace, old(client.replies), client.replies)
              else client.replies == old(client.replies)
    {
      hide *;
      ghost var q := At().Fetched(begun.env);
      BlockRetries();
      var a := TryAgain(RetryJSON, true);
      if !a.Got? {
        return false;
      }
      var r := a.resp;
      SameWorld();
      TextsOf(Now(), r);
      if r.reply.eventStream {
        RelayStream(r, client);
        EndsWithReply(Close(StreamReply(q.forwards), q.Sent().Relayed(begun.env)), Streamed(r.of, r.reply.status),
                      old(client.replies), At());
        return true;
      }
      CleanStays(q.Sent(), begun.env, r.reply.body);
      var stillBlocked := Inspect(r, r.reply.body);
      if stillBlocked {
        return false;
      }
      RelayBody(r, r.reply.body, true, client);
      EndsWithReply(Close(BodyReply(q.forwards, r.reply.body), q.Sent()), Relayed(r.of, r.reply.status, r.reply.body),
                    old(client.replies), At());
      return true;
    }

    /** An answer on a stream that is no event stream: inspected as a whole, and if it
        is blocked, tried again up to five times before it is passed on after all. */
    method ReplyWithBody(resp: Resp, client: Client)
      requires Valid() && Progress(begun, Now()) && UpToDate(Now(), resp)
      modifies this`token, this`gets, this`fetches, this`forwards, this`trace,
               rotator, pool, smart, blacklist, client
      ensures Valid() && Progress(begun, Now())
      ensures gets <= old(gets) + MAX_BLOCK_RETRIES && forwards <= old(forwards) + MAX_BLOCK_RETRIES
      ensures Ends(WholeBody(begun.env, resp.of.k, old(At())), false, old(client.replies), client.replies, At())
      ensures OneReply(world, true, Now().trace, old(client.replies), client.replies)
    {
      hide *;
      SameWorld();
      TextsOf(Now(), resp);
      var full := resp.reply.Full();
      WholeBodyIs(begun.env, resp.of.k, At());
      ghost var close := WholeBody(begun.env, resp.of.k, At());
      CleanStays(At(), begun.env, full);
      var blocked := Inspect(resp, full);
      if blocked {
        RetryBlockedJSON(resp, full, client);
      } else {
        RelayBody(resp, full, true, client);
        EndsWithReply(close, Relayed(resp.of, resp.reply.status, full), old(client.replies), At());
      }
    }

    /** The five more tries, and the blocked body itself if they bring nothing. */
    method RetryBlockedJSON(resp: Resp, full: string, client: Client)
      requires Valid() && Progress(begun, Now()) && Genuine(world, resp) && CameFrom(full, resp.reply)
      requires Inspected(resp.of, full) in Now().trace
      modifies this`token, this`gets, this`fetches, this`forwards, this`trace,
               rotator, pool, smart, blacklist, client
      ensures Valid() && Progress(begun, Now())
      ensures gets <= old(gets) + MAX_BLOCK_RETRIES && forwards <= old(forwards) + MAX_BLOCK_RETRIES
      ensures Ends(JSONRetries(begun.env, old(At()), MAX_BLOCK_RETRIES, BodyReply(resp.of.k, full)),
                   false, old(client.replies), client.replies, At())
      ensures OneReply(world, true, Now().trace, old(client.replies), client.replies)
    {
      hide *;
      SameWorld();
      ghost var original := BodyReply(resp.of.k, full);
      ghost var close := JSONRetries(begun.env, At(), MAX_BLOCK_RETRIES, original);
      var retry := 0;
      while retry < MAX_BLOCK_RETRIES
        invariant Valid() && Progress(begun, Now()) && client.replies == old(client.replies)
        invariant Inspected(resp.of, full) in Now().trace
        invariant retry <= MAX_BLOCK_RETRIES
        invariant gets == old(gets) + retry && forwards <= old(forwards) + retry
        invariant close == JSONRetries(begun.env, At(), MAX_BLOCK_RETRIES - retry, original)
      {
        JSONStep(begun.env, At(), MAX_BLOCK_RETRIES - retry, original);
        var done := Exhausted();
        if done {
          break;
        }
        retry := retry + 1;
        var delivered := TryJSON(client);
        if delivered {
          return;
        }
      }
      JSONStep(begun.env, At(), MAX_BLOCK_RETRIES - retry, original);
      RelayBody(resp, full, true, client);
      EndsWithReply(close, Relayed(resp.of, resp.reply.status, full), old(client.replies), At());
    }

    /** A blocked answer outside of streams: up to five more tries. */
    method RetryBlockedBody(client: Client)
      requires Valid() && Progress(begun, Now())
      modifies this`token, this`gets, this`fetches, this`forwards, this`trace,
               rotator, pool, smart, blacklist, client
      ensures Valid() && Progress(begun, Now())
      ensures gets <= old(gets) + MAX_BLOCK_RETRIES && forwards <= old(forwards) + MAX_BLOCK_RETRIES
      ensures Ends(PlainRetries(begun.env, old(At()), MAX_BLOCK_RETRIES),
                   false, old(client.replies), client.replies, At())
      ensures OneReply(world, false, Now().trace, old(client.replies), client.replies)
    {
      hide *;
      SameWorld();
      ghost var close := PlainRetries(begun.env, At(), MAX_BLOCK_RETRIES);
      var retry := 0;
      while retry < MAX_BLOCK_RETRIES
        invariant Valid() && Progress(begun, Now()) && client.replies == old(client.replies)
        invariant retry <= MAX_BLOCK_RETRIES
        invariant gets == old(gets) + retry && forwards <= old(forwards) + retry
        invariant close == PlainRetries(begun.env, At(), MAX_BLOCK_RETRIES - retry)
      {
        PlainStep(begun.env, At(), MAX_BLOCK_RETRIES - retry);
        var done := Exhausted();
        if done {
          break;
        }
        retry := retry + 1;
        var delivered := TryPlain(client);
        if delivered {
          return;
        }
      }
      PlainStep(begun.env, At(), MAX_BLOCK_RETRIES - retry);
      EndsWithError(close, 403, client.replies, At());
      ReplyError(403, false, client);
    }

    /** One more try for it, delivered if it can be read and is clean. */
    method TryPlain(client: Client) returns (done: bool)
      requires Valid() && Progress(begun, Now()) && !At().Exhausted()
      modifies this`token, this`gets, this`fetches, this`forwards, this`trace,
               rotator, pool, smart, blacklist, client
      ensures Valid() && Progress(begun, Now())
      ensures gets == old(gets) + 1 && forwards <= old(forwards) + 1
      ensures var p := old(At());
              var q := p.Fetched(begun.env);
              var r := q.Answer(begun.env);
              && (done <==> p.Token(begun.env) && r.Reply? && !r.readError && !world.Blocked(r.body))
              && (!done ==> At() == if !p.Token(begun.env) then q.GiveUp()
                                    else if r.Failed? || r.readError then q.Sent()
                                    else q.Sent().Checked(begun.env, r.body))
              && (done ==> Ends(Close(BodyReply(q.forwards, r.body), q.Sent()),
                                false, old(client.replies), client.replies, At()))
      ensures if done then OneReply(world, false, Now().trace, old(client.replies), client.replies)
              else client.replies == old(client.replies)
    {
      hide *;
      ghost var q := At().Fetched(begun.env);
      BlockRetries();
      var a := TryAgain(RetryPlain, true);
      if !a.Got? {
        return false;
      }
      var r := a.resp;
      if r.reply.readError {
        return false;
      }
      SameWorld();
      TextsOf(Now(), r);
      CleanStays(q.Sent(), begun.env, r.reply.body);
      var blocked := Inspect(r, r.reply.body);
      if blocked {
        return false;
      }
      RelayBody(r, r.reply.body, false, client);
      EndsWithReply(Close(BodyReply(q.forwards, r.reply.body), q.Sent()), Relayed(r.of, r.reply.status, r.reply.body),
                    old(client.replies), At());
      return true;
    }

    // ------------------------------------------------------ the whole request

    /** For a client that wants a stream: only the first lines are inspected, and
        what does not look like an event stream goes on as a body. */
    method DeliverStream(resp: Resp, client: Client) returns (panicked: bool)
      requires Valid() && Progress(begun, Now()) && UpToDate(Now(), resp)
      modifies this`token, this`gets, this`fetches, this`forwards, this`trace,
               rotator, pool, smart, blacklist, client
      ensures Valid() && Progress(begun, Now())
      ensures gets <= old(gets) + MAX_BLOCK_RETRIES && forwards <= old(forwards) + MAX_BLOCK_RETRIES
      ensures Genuine(begun.env.world, resp)
      ensures Ends(Delivery(begun.env, true, resp.of.k, old(At())),
                   panicked, old(client.replies), client.replies, At())
      ensures !panicked ==> OneReply(world, true, Now().trace, old(client.replies), client.replies)
    {
      hide *;
      SameWorld();
      TextsOf(Now(), resp);
      DeliveryIs(begun.env, true, resp.of.k, At());
      ghost var close := Delivery(begun.env, true, resp.of.k, At());
      panicked := false;
      CleanStays(At(), begun.env, resp.reply.Prefix());
      var blocked := Inspect(resp, resp.reply.Prefix());
      if blocked {
        panicked := RetryBlockedStream(client);
        return;
      }
      var isSSE := LooksLikeSSE(resp.reply);
      if isSSE {
        SSEIsEventStream(world, resp.reply);
        RelayStream(resp, client);
        EndsWithReply(close, Streamed(resp.of, resp.reply.status), old(client.replies), At());
      } else {
        ReplyWithBody(resp, client);
      }
    }

    /** The answer that made it through the status checks goes to the client, unless
        it is a block. */
    method Deliver(resp: Resp, stream: bool, client: Client) returns (panicked: bool)
      requires Valid() && Progress(begun, Now()) && UpToDate(Now(), resp)
      modifies this`token, this`gets, this`fetches, this`forwards, this`trace,
               rotator, pool, smart, blacklist, client
      ensures Valid() && Progress(begun, Now())
      ensures gets <= old(gets) + MAX_BLOCK_RETRIES && forwards <= old(forwards) + MAX_BLOCK_RETRIES
      ensures Genuine(begun.env.world, resp)
      ensures Ends(Delivery(begun.env, stream, resp.of.k, old(At())),
                   panicked, old(client.replies), client.replies, At())
      ensures !panicked ==> OneReply(world, stream, Now().trace, old(client.replies), client.replies)
    {
      hide *;
      SameWorld();
      TextsOf(Now(), resp);
      DeliveryIs(begun.env, stream, resp.of.k, At());
      ghost var close := Delivery(begun.env, stream, resp.of.k, At());
      panicked := false;
      if stream {
        panicked := DeliverStream(resp, client);
      } else if resp.reply.readError {
        ReplyBare(resp, client);
        EndsWithReply(close, Bare(resp.of, resp.reply.status), old(client.replies), At());
      } else {
        CleanStays(At(), begun.env, resp.reply.body);
        var blocked := Inspect(resp, resp.reply.body);
        if blocked {
          RetryBlockedBody(client);
        } else {
          RelayBody(resp, resp.reply.body, false, client);
          EndsWithReply(close, Relayed(resp.of, resp.reply.status, resp.reply.body), old(client.replies), At());
        }
      }
    }

    /** The three status checks, one after the other. */
    method Recover(first: Resp, stream: bool, client: Client) returns (flow: Flow)
      requires Valid() && Progress(begun, Now()) && Fresh(Now(), first)
      modifies this`token, this`gets, this`fetches, this`forwards, this`trace, rotator, pool, smart, client
      ensures Valid() && Progress(begun, Now())
      ensures gets <= old(gets) + MAX_RECOVERIES && forwards <= old(forwards) + MAX_RECOVERIES
      ensures Real(begun.env, Leg(Answered(first.of.k), old(At())))
      ensures var leg := Recovery(begun.env, hasFallback, Leg(Answered(first.of.k), old(At())));
              && Matches(leg, flow, At())
              && (flow.Finished? ==>
                    leg.fate.Refused? && client.replies == old(client.replies) + [Error(leg.fate.status)])
      ensures !flow.Finished? ==> client.replies == old(client.replies)
      ensures flow.Finished? ==> OneReply(world, stream, Now().trace, old(client.replies), client.replies)
      ensures flow.Go? ==> UpToDate(Now(), flow.resp) && flow.resp.reply.status != 429
    {
      hide *;
      Budget();
      SameWorld();
      FreshIsUpToDate(Now(), first);
      GenuineIs(begun.env, first, At());
      ghost var leg := Leg(Answered(first.of.k), At());
      RecoveryStops(begun.env, hasFallback, leg);
      ChecksAre(begun.env, hasFallback, leg);
      flow := Go(first);
      MatchesCases(leg, flow, At());
      if flow.resp.reply.status == 401 {
        flow := Recover401(flow.resp, client);
      }
      leg := After401(begun.env, leg);
      MatchesCases(leg, flow, At());
      if !flow.Go? {
        ErrorIsOneReply(world, stream, Now().trace, old(client.replies), 401);
        return;
      }
      SameWorld();
      FreshIsUpToDate(Now(), flow.resp);
      GenuineIs(begun.env, flow.resp, At());
      ChecksAre(begun.env, hasFallback, leg);
      if flow.resp.reply.status == 403 {
        flow := Recover403(flow.resp, client);
      }
      leg := After403(begun.env, leg);
      MatchesCases(leg, flow, At());
      if !flow.Go? {
        ErrorIsOneReply(world, stream, Now().trace, old(client.replies), 401);
        ErrorIsOneReply(world, stream, Now().trace, old(client.replies), 502);
        return;
      }
      SameWorld();
      FreshIsUpToDate(Now(), flow.resp);
      GenuineIs(begun.env, flow.resp, At());
      ChecksAre(begun.env, hasFallback, leg);
      if flow.resp.reply.status == 429 {
        flow := Recover429(flow.resp, client);
      }
      leg := After429(begun.env, hasFallback, leg);
      MatchesCases(leg, flow, At());
      if flow.Go? {
        FreshIsUpToDate(Now(), flow.resp);
      }
      ErrorIsOneReply(world, stream, Now().trace, old(client.replies), 429);
    }

    /** The whole way of an accepted request, from the first token to the reply. */
    method Serve(stream: bool, client: Client) returns (panicked: bool)
      requires Valid() && Progress(begun, Now())
      modifies this`token, this`gets, this`fetches, this`forwards, this`trace,
               rotator, pool, smart, blacklist, client
      ensures Valid() && Progress(begun, Now())
      ensures gets <= old(gets) + MAX_GETS && forwards <= old(forwards) + MAX_FORWARDS
      ensures Ends(Serving(begun.env, hasFallback, old(Cached()), stream, old(At())),
                   panicked, old(client.replies), client.replies, At())
      ensures !panicked ==> OneReply(world, stream, Now().trace, old(client.replies), client.replies)
    {
      hide *;
      Budget();
      ghost var cached, p := Cached(), At();
      ghost var close := Serving(begun.env, hasFallback, cached, stream, p);
      ServingIs(begun.env, hasFallback, cached, stream, p);
      var token := FirstToken();
      if token.None? {
        ReplyError(401, stream, client);
        EndsWithError(close, 401, old(client.replies), At());
        return false;
      }
      var first := FirstForward(token.value);
      if first.None? {
        ReplyError(502, stream, client);
        EndsWithError(close, 502, old(client.replies), At());
        return false;
      }
      ghost var look := FirstLook(begun.env, cached, p, JWT_REFRESH_RETRIES);
      FirstAnswerIs(FirstAnswer(begun.env, look.at, TIMEOUT_RETRIES + 1), first.value.of.k, At());
      panicked := Settle(first.value, stream, client);
    }

    /** From the first answer to the reply. */
    method Settle(first: Resp, stream: bool, client: Client) returns (panicked: bool)
      requires Valid() && Progress(begun, Now()) && Fresh(Now(), first)
      modifies this`token, this`gets, this`fetches, this`forwards, this`trace,
               rotator, pool, smart, blacklist, client
      ensures Valid() && Progress(begun, Now())
      ensures gets <= old(gets) + MAX_RECOVERIES + MAX_BLOCK_RETRIES
      ensures forwards <= old(forwards) + MAX_RECOVERIES + MAX_BLOCK_RETRIES
      ensures Real(begun.env, Leg(Answered(first.of.k), old(At())))
      ensures Ends(Settled(begun.env, hasFallback, stream, Leg(Answered(first.of.k), old(At()))),
                   panicked, old(client.replies), client.replies, At())
      ensures !panicked ==> OneReply(world, stream, Now().trace, old(client.replies), client.replies)
    {
      hide *;
      ghost var start := Leg(Answered(first.of.k), At());
      var flow := Recover(first, stream, client);
      SettledIs(begun.env, hasFallback, stream, start);
      ghost var leg, close := Recovery(begun.env, hasFallback, start), Settled(begun.env, hasFallback, stream, start);
      MatchesCases(leg, flow, At());
      match flow
      case Finished =>
        EndsWithError(close, leg.fate.status, old(client.replies), At());
        return false;
      case Panicked =>
        EndsWithNothing(close, client.replies, At());
        return true;
      case Go(resp) => panicked := Deliver(resp, stream, client);
    }

    /** One chat request from a client, arriving at `now`: the rate limit, a free slot,
        a readable body, and then `Serve`. The slot is given back in every case. */
    method HandleChat(request: Incoming, now: int, client: Client) returns (panicked: bool)
      requires Valid()
      requires limiter != null ==> limiter.Valid() && limiter.InOrder(now)
      modifies this`token, this`gets, this`fetches, this`forwards, this`trace, this`begun, this`inFlight,
               limiter, rotator, pool, smart, blacklist, client
      ensures Valid() && (limiter != null ==> limiter.Valid())
      ensures Progress(old(Now()), Now())
      ensures gets <= old(gets) + MAX_GETS && forwards <= old(forwards) + MAX_FORWARDS
      ensures inFlight == old(inFlight)
      ensures Ends(Foretold(Refusal(old(Admitted(now)), old(inFlight), request), old(Environment()), hasFallback,
                            old(Cached()), request.Streams(), old(At())),
                   panicked, old(client.replies), client.replies, At())
      ensures Refusal(old(Admitted(now)), old(inFlight), request).Some? ==> Now() == old(Now()) && gets == old(gets)
      ensures !panicked ==> OneReply(world, request.Streams(), Now().trace, old(client.replies), client.replies)
    {
      hide *;
      Here();
      begun := Now();
      ProgressMark(begun, "");
      panicked := Handle(request, now, client);
    }

    /** The request, once its beginning has been noted. */
    method Handle(request: Incoming, now: int, client: Client) returns (panicked: bool)
      requires Valid() && Progress(begun, Now())
      requires limiter != null ==> limiter.Valid() && limiter.InOrder(now)
      modifies this`token, this`gets, this`fetches, this`forwards, this`trace, this`inFlight,
               limiter, rotator, pool, smart, blacklist, client
      ensures Valid() && (limiter != null ==> limiter.Valid())
      ensures Progress(begun, Now())
      ensures gets <= old(gets) + MAX_GETS && forwards <= old(forwards) + MAX_FORWARDS
      ensures inFlight == old(inFlight)
      ensures Ends(Foretold(Refusal(old(Admitted(now)), old(inFlight), request), begun.env, hasFallback,
                            old(Cached()), request.Streams(), old(At())),
                   panicked, old(client.replies), client.replies, At())
      ensures Refusal(old(Admitted(now)), old(inFlight), request).Some? ==> Now() == old(Now()) && gets == old(gets)
      ensures !panicked ==> OneReply(world, request.Streams(), Now().trace, old(client.replies), client.replies)
    {
      hide *;
      Budget();
      RefusalCases(Admitted(now), inFlight, request);
      ForetoldIs(Refusal(Admitted(now), inFlight, request), begun.env, hasFallback, Cached(), request.Streams(), At());
      var allowed := Admit(now);
      if !allowed {
        panicked := Refuse(429, request, client);
      } else if inFlight >= MAX_CONCURRENT {
        panicked := Refuse(503, request, client);
      } else {
        inFlight := inFlight + 1;
        panicked := HandleBody(request, client);
        inFlight := inFlight - 1;
      }
    }

    /** An error of the handler's own. */
    method Refuse(status: int, request: Incoming, client: Client) returns (panicked: bool)
      requires Valid() && status in {400, 429, 500, 503}
      modifies client
      ensures Ends(Close(ErrorReply(status), At()), panicked, old(client.replies), client.replies, At())
      ensures OneReply(world, request.Streams(), Now().trace, old(client.replies), client.replies)
    {
      hide *;
      ReplyError(status, request.Streams(), client);
      EndsWithError(Close(ErrorReply(status), At()), status, old(client.replies), At());
      return false;
    }

    /** The rate limit, if there is one. */
    method Admit(now: int) returns (allowed: bool)
      requires Valid()
      requires limiter != null ==> limiter.Valid() && limiter.InOrder(now)
      modifies limiter
      ensures Valid() && Now() == old(Now()) && At() == old(At()) && Cached() == old(Cached())
      ensures limiter != null ==> limiter.Valid()
      ensures allowed == old(Admitted(now))
    {
      hide RateLimit.Admits;
      allowed := true;
      if limiter != null {
        allowed := limiter.Allow(now);
      }
    }

    /** What happens to a request once it holds a slot. */
    method HandleBody(request: Incoming, client: Client) returns (panicked: bool)
      requires Valid() && Progress(begun, Now())
      modifies this`token, this`gets, this`fetches, this`forwards, this`trace,
               rotator, pool, smart, blacklist, client
      ensures Valid() && Progress(begun, Now())
      ensures gets <= old(gets) + MAX_GETS && forwards <= old(forwards) + MAX_FORWARDS
      ensures request.Chat? ==>
        Ends(Serving(begun.env, hasFallback, old(Cached()), request.Streams(), old(At())),
             panicked, old(client.replies), client.replies, At())
      ensures !request.Chat? ==>
        && Ends(Close(ErrorReply(if request.NotInjectable? then 500 else 400), old(At())),
                panicked, old(client.replies), client.replies, At())
        && Now() == old(Now()) && At() == old(At()) && gets == old(gets)
      ensures !panicked ==> OneReply(world, request.Streams(), Now().trace, old(client.replies), client.replies)
    {
      StreamsIs(request);
      hide *;
      Budget();
      if request.Chat? {
        panicked := Serve(request.stream, client);
      } else {
        panicked := Refuse(if request.NotInjectable? then 500 else 400, request, client);
      }
    }

    /** A server without proxies, limits and a cached token. */
    lemma NobodyKnown()
      requires rotator == null && pool == null && smart == null && blacklist == null && limiter == null
      ensures Environment().world == world
      ensures At() == Point(Fleet(None, [], None), fetches, forwards)
      ensures token == None ==> !Cached()
      ensures Admitted(0)
    {
    }

    ghost predicate Admitted(now: int)
      reads limiter
    {
      limiter == null || RateLimit.Admits(limiter.limits, limiter.history, now)
    }
  }

  /** A run that ends without a reply: one upstream, tokens at will, a 401 to the first
      request and no answer to the next. */
  method CrashingRun(stream: bool) returns (panicked: bool)
    ensures panicked
  {
    var world := World((k: nat) => if k == 0 then Reply(401, false, [], "", "", false) else Failed,
                       (k: nat) => Answer(200, "token"), (k: nat) => false, (c: SSConfig) => true,
                       Compliance.Chars((c: char) => c, (c: char) => c == ' '), false);
    var rotator := new Rotation.Rotator(["203.0.113.1:443"]);
    var server := new Server(world, rotator, null, null, null, null, false);
    var client := new Client();
    ghost var env, p := server.Environment(), server.At();
    assert env.world == world && p == Point(Fleet(Some(Rotation.Ring(["203.0.113.1:443"], 0)), [], None), 0, 0);
    assert !p.Fetched(env).Empty();
    Endings.FirstRetryFails(env, false, stream, p);
    RefusalCases(true, 0, Chat(stream));
    ForetoldIs(None, env, false, false, stream, p);
    assert !server.Cached() && server.Admitted(0);
    hide Serving, Progress, Compliance.Detect;
    panicked := server.HandleChat(Chat(stream), 0, client);
  }

  /** One token, and one answer, in which the message comes after the lines that are
      inspected first. */
  function SilentWorld(): World {
    World((k: nat) => if k == 0 then Endings.SuchAnAnswer() else Failed,
          (k: nat) => if k == 0 then Answer(200, "token") else NoAnswer, (k: nat) => false, (c: SSConfig) => true,
          Compliance.Chars((c: char) => c, (c: char) => c == ' '), false)
  }

  lemma SilentWorldIsReceived()
    ensures forall k :: Receivable(SilentWorld().upstream(k))
  {
    Endings.SuchAnAnswerIsReceived();
    hide Endings.SuchAnAnswer;
    assert Receivable(Failed);
  }

  lemma SilentAnswers(w: World)
    requires w == SilentWorld()
    ensures w.upstream(0) == Endings.SuchAnAnswer()
    ensures w.bootstrap(0).GivesToken() && forall i: nat :: i > 0 ==> !w.bootstrap(i).GivesToken()
  {
    hide Endings.SuchAnAnswer;
  }

  lemma AnswerBlocks(env: Env, p: Point)
    requires p.fetches == p.forwards == 0 && env.world.upstream(0) == Endings.SuchAnAnswer()
    requires env.world.bootstrap(0).GivesToken() && forall i: nat :: i > 0 ==> !env.world.bootstrap(i).GivesToken()
    ensures var ending := Serving(env, false, false, true, p).ending;
            ending.BodyReply? && env.world.Blocked(ending.body)
  {
    Endings.SuchAnAnswerHidesBlock(env);
    assert Endings.SuchAnAnswer().status == 200;
    hide Serving, Compliance.Detect, Endings.SuchAnAnswer, Endings.HidesBlock, Reply.Full;
    Endings.LastTokenPassesBlock(env, false, p);
  }

  lemma BlockedServing(env: Env, p: Point)
    requires env.world == SilentWorld() && p.fetches == p.forwards == 0
    ensures var ending := Foretold(Refusal(true, 0, Chat(true)), env, false, false, true, p).ending;
            ending.BodyReply? && SilentWorld().Blocked(ending.body)
  {
    hide *;
    SilentAnswers(env.world);
    AnswerBlocks(env, p);
    SomeSlotFree(Chat(true));
    ForetoldIs(None, env, false, false, true, p);
  }

  lemma SomeSlotFree(request: Incoming)
    requires request.Chat?
    ensures Refusal(true, 0, request) == None
  {
  }

  lemma EndsWithBody(close: Close, panicked: bool, before: seq<ClientReply>, after: seq<ClientReply>, at: Point)
    requires Ends(close, panicked, before, after, at) && close.ending.BodyReply?
    ensures |after| == |before| + 1 && after[|before|].Relayed? && after[|before|].body == close.ending.body
  {
  }

  /** A run on which a block message goes out on a stream, with neither rotator nor
      smart router and with answers that can be received. */
  method BlockedRun() returns (client: Client)
    ensures forall k :: Receivable(SilentWorld().upstream(k))
    ensures |client.replies| == 1 && client.replies[0].Relayed? && SilentWorld().Blocked(client.replies[0].body)
  {
    hide *;
    SilentWorldIsReceived();
    var server := new Server(SilentWorld(), null, null, null, null, null, false);
    client := new Client();
    server.NobodyKnown();
    ghost var env, p := server.Environment(), server.At();
    BlockedServing(env, p);
    ghost var close := Foretold(Refusal(true, 0, Chat(true)), env, false, false, true, p);
    StreamsIs(Chat(true));
    var panicked := server.HandleChat(Chat(true), 0, client);
    EndsWithBody(close, panicked, [], client.replies, server.At());
  }

  lemma StreamsIs(request: Incoming)
    ensures request.Chat? ==> request.Streams() == request.stream
  {
  }

  lemma RefusalCases(admitted: bool, inFlight: nat, request: Incoming)
    ensures !admitted ==> Refusal(admitted, inFlight, request) == Some(429)
    ensures admitted && inFlight >= MAX_CONCURRENT ==> Refusal(admitted, inFlight, request) == Some(503)
    ensures admitted && inFlight < MAX_CONCURRENT ==>
      Refusal(admitted, inFlight, request)
      == if request.Chat? then None else Some(if request.NotInjectable? then 500 else 400)
  {
  }

  lemma ForetoldIs(refusal: Option<int>, env: Env, fallback: bool, cached: bool, stream: bool, p: Point)
    ensures Foretold(refusal, env, fallback, cached, stream, p)
            == if refusal.Some? then Close(ErrorReply(refusal.value), p) else Serving(env, fallback, cached, stream, p)
  {
  }

  lemma FirstAnswerIs(leg: Leg, k: nat, at: Point)
    requires leg.fate == Answered(k) && leg.at == at
    ensures leg == Leg(Answered(k), at)
  {
  }

  lemma Budget()
    ensures MAX_FORWARDS == 20 && MAX_GETS == 19 && MAX_RECOVERIES == 9
    ensures TIMEOUT_RETRIES == 5 && JWT_REFRESH_RETRIES == 5 && RATE_LIMIT_RETRIES == 2 && MAX_BLOCK_RETRIES == 5
  {
  }

  lemma ErrorIsOneReply(world: World, stream: bool, trace: seq<Event>, before: seq<ClientReply>, status: int)
    requires status in {400, 401, 403, 429, 500, 502, 503}
    ensures OneReply(world, stream, trace, before, before + [Error(status)])
  {
  }
}
