// The steps of a request's state, case by case: what the handler's methods need to know
// of them, and when a request is prepared to go out.
module HandlerSteps {
  import opened Addresses
  import opened Blacklists
  import opened Fleets
  import opened Forecast
  import opened HandlerTrace
  import opened Rotation
  import opened Routing
  import Compliance

  /** The answer to a chat request, with the request it answers. */
  datatype Resp = Resp(of: Forward, reply: ActualReply)

  type ActualReply = r: Reply | r.Reply? witness Reply(200, false, [], "", "", false)

  /** The response at hand answers a request made while the address now current was
      current. */
  ghost predicate UpToDate(s: Snap, r: Resp) {
    && r.of.current == s.Head() && Forwarded(r.of) in s.trace && ForwardOk(s.env, r.of)
    && r.reply == s.env.world.upstream(r.of.k)
  }

  /** And it has just come in. */
  ghost predicate Fresh(s: Snap, r: Resp) {
    UpToDate(s, r) && EndsWith(s.trace, [Forwarded(r.of)])
  }

  ghost predicate Genuine(world: World, r: Resp) {
    r.reply == world.upstream(r.of.k)
  }

  lemma TextsOf(s: Snap, r: Resp)
    requires UpToDate(s, r)
    ensures Genuine(s.env.world, r)
    ensures CameFrom(r.reply.Prefix(), r.reply) && CameFrom(r.reply.Full(), r.reply) && CameFrom(r.reply.body, r.reply)
  {
  }

  lemma FreshIsUpToDate(s: Snap, r: Resp)
    requires Fresh(s, r)
    ensures UpToDate(s, r) && Genuine(s.env.world, r)
  {
  }

  // ---------------------------------------- the steps of a state, case by case

  lemma BootCases(s: Snap, k: nat)
    ensures var b := s.env.world.bootstrap(k);
            && (b.Forbids() <==> b.Answer? && b.status == 403)
            && (!b.Forbids() || s.Route().Direct? || s.Route().addr == "" ==> AfterBoot(s, k) == s)
  {
    hide RouteOf;
  }

  lemma BanIs(s: Snap, via: Route, k: nat)
    requires s.env.world.bootstrap(k).Forbids() && via == s.Route() && !via.Direct? && via.addr != ""
    ensures var a := s.(fleet := s.fleet.SmartDead(via.addr));
            var b := AfterMark(a, via.addr);
            && (s.dead.None? ==> a == b)
            && AfterBoot(s, k)
               == if via.Tunnel? then
                    b.(fleet := b.fleet.Strike(via.addr), trace := b.trace + [Banned(k, via), Dropped(via.addr)])
                  else b.(trace := b.trace + [Banned(k, via)])
  {
    WithDeadTwice(s.fleet.proxies, via.addr);
    hide RouteOf, WithDead;
    assert [Banned(k, via)] + [Dropped(via.addr)] == [Banned(k, via), Dropped(via.addr)];
  }

  /** After a ban, the next request goes another way. */
  lemma BanIsAvoided(s: Snap, k: nat)
    requires s.env.world.bootstrap(k).Forbids() && !s.Route().Direct? && s.Route().addr != ""
    requires DistinctProxies(s.fleet.proxies) && (s.Route().Smart? || Distinct(s.fleet.List()))
    ensures AfterBoot(s, k).Route() != s.Route() && AfterBoot(s, k).Route() != Smart(s.Route().addr)
  {
    BannedIsAvoided(s.env, s.fleet, s.env.world.bootstrap(k));
    hide RouteOf, BootEvents;
  }

  /** A proxy that was marked dead is not taken by the next request. */
  lemma MarkIsAvoided(s: Snap, addr: string)
    requires addr != "" && DistinctProxies(s.fleet.proxies)
    ensures AfterMark(s, addr).Route() != Smart(addr)
  {
    DeadIsAvoided(s.env, s.fleet, addr);
    hide RouteOf;
  }

  /** Nor is a proxy that shares the IP of a blacklisted address. */
  lemma BlamedAreAvoided(s: Snap, addr: string)
    ensures forall other :: s.env.filtered && addr != "" && s.fleet.SameIP(addr, other) ==>
      RouteOf(s.env, s.fleet.Blacklisted(addr)) != Smart(other)
  {
    forall other | s.env.filtered && addr != "" && s.fleet.SameIP(addr, other)
      ensures RouteOf(s.env, s.fleet.Blacklisted(addr)) != Smart(other)
    {
      BlamedIsAvoided(s.env, s.fleet, addr, other);
    }
  }

  lemma NoteIs(s: Snap, phase: Phase, ok: bool)
    ensures s.(trace := s.trace + [Gotten(phase, ok, s.Head())]) == AfterNote(s, phase, ok)
    ensures s.trace <= AfterNote(s, phase, ok).trace && AfterNote(s, phase, ok).fleet == s.fleet
  {
  }

  lemma LookCases(s: Snap, phase: Phase, k: nat)
    ensures var t, b := AfterLook(s, phase, k), s.env.world.bootstrap(k);
            && t.fleet == s.fleet.Booted(s.Route(), b) && s.trace <= t.trace
            && EndsWith(t.trace, [Gotten(phase, b.GivesToken(), t.Head())])
            && (b.GivesToken() ==> t == AfterNote(s, phase, true) && t.Route() == s.Route())
  {
    hide RouteOf;
    BootCases(s, k);
  }

  lemma NoteEnds(s: Snap, phase: Phase)
    ensures var t := AfterNote(s, phase, true); EndsWith(t.trace, [Gotten(phase, true, t.Head())])
  {
  }

  /** Everything about a look for a token: the state it leaves, and that it is progress. */
  lemma LookIsProgress(begun: Snap, s: Snap, got: Snap, phase: Phase, k: nat, forwards: nat, cached: bool, ok: bool)
    requires Progress(begun, s)
    requires got == if cached then s else AfterBoot(s, k)
    requires ok <==> cached || s.env.world.bootstrap(k).GivesToken()
    ensures var t := got.(trace := got.trace + [Gotten(phase, ok, got.Head())]);
            && Progress(begun, t) && s.trace <= t.trace && EndsWith(t.trace, [Gotten(phase, ok, t.Head())])
            && t == (if cached then AfterNote(s, phase, true) else AfterLook(s, phase, k))
            && (cached ==> t.fleet == s.fleet)
            && (!cached ==>
                  && Point(t.fleet, k + 1, forwards) == Point(s.fleet, k, forwards).Fetched(s.env)
                  && (ok <==> Point(s.fleet, k, forwards).Token(s.env)))
  {
    hide *;
    NoteIs(got, phase, ok);
    if cached {
      NoteEnds(s, phase);
      ProgressNote(s, phase, true);
      ProgressTransitive(begun, s, AfterNote(s, phase, true));
    } else {
      LookIsNote(s, phase, k);
      LookCases(s, phase, k);
      PointCases(Point(s.fleet, k, forwards), s);
      ProgressLook(s, phase, k);
      ProgressTransitive(begun, s, AfterLook(s, phase, k));
    }
  }

  lemma PointCases(p: Point, s: Snap)
    requires p.fleet == s.fleet
    ensures p.Fetched(s.env)
            == Point(s.fleet.Booted(s.Route(), s.env.world.bootstrap(p.fetches)), p.fetches + 1, p.forwards)
    ensures p.Token(s.env) <==> s.env.world.bootstrap(p.fetches).GivesToken()
    ensures p.Sent() == Point(s.fleet, p.fetches, p.forwards + 1)
    ensures p.Answer(s.env) == s.env.world.upstream(p.forwards)
  {
    hide RouteOf;
  }

  lemma SendIs(s: Snap, f: Forward)
    ensures s.(trace := s.trace + [Forwarded(f)]) == AfterSend(s, f) && s.trace <= AfterSend(s, f).trace
    ensures AfterSend(s, f).Head() == s.Head() && AfterSend(s, f).Route() == s.Route()
    ensures EndsWith(AfterSend(s, f).trace, [Forwarded(f)])
  {
    hide RouteOf;
  }

  lemma Received(s: Snap, f: Forward, reply: ActualReply)
    requires f.current == s.Head() && ForwardOk(s.env, f) && reply == s.env.world.upstream(f.k)
    ensures Fresh(AfterSend(s, f), Resp(f, reply))
  {
    hide ForwardOk;
    assert AfterSend(s, f).trace[|s.trace|] == Forwarded(f);
  }

  lemma TextCases(s: Snap, r: Resp, text: string)
    requires UpToDate(s, r)
    ensures Forwarded(r.of) in s.trace && ForwardOk(s.env, r.of) && r.of.current == s.Head()
    ensures r.reply == s.env.world.upstream(r.of.k)
    ensures !s.env.world.Blocked(text) || s.Head().None? ==>
      AfterText(s, r.of, text) == s.(trace := s.trace + [Inspected(r.of, text)])
    ensures !s.env.world.Blocked(text) ==> UpToDate(AfterText(s, r.of, text), r)
    ensures s.env.world.Blocked(text) && s.Head().Some? ==>
      var a := s.Head().value;
      && AfterText(s, r.of, text)
         == s.(fleet := s.fleet.Behead().Blacklisted(a), dead := Grown(s.dead, a),
               trace := s.trace + ([Inspected(r.of, text), Dropped(a)] + if a == "" then [] else [Blamed(a, r.of)]))
      && (a == "" ==> s.fleet.Behead().Blacklisted(a) == s.fleet.Behead() && Grown(s.dead, a) == s.dead)
  {
    hide Compliance.Detect, ForwardOk;
    if s.env.world.Blocked(text) && s.Head().Some? {
      var a := s.Head().value;
      var last := if a == "" then [] else [Blamed(a, r.of)];
      assert [Inspected(r.of, text)] + ([Dropped(a)] + last) == [Inspected(r.of, text), Dropped(a)] + last;
    } else {
      assert TextEvents(s, r.of, text) == [Inspected(r.of, text)];
    }
  }

  lemma CheckedIs(p: Point, s: Snap, f: Forward, text: string)
    requires p.fleet == s.fleet
    ensures p.Checked(s.env, text) == Point(AfterText(s, f, text).fleet, p.fetches, p.forwards)
  {
    hide Compliance.Detect;
  }

  lemma GivingUpCases(s: Snap, p: Point)
    requires p.fleet == s.fleet
    ensures p.GiveUp() == Point(AfterGivingUp(s).fleet, p.fetches, p.forwards) && s.trace <= AfterGivingUp(s).trace
    ensures s.Head().None? ==> AfterGivingUp(s) == s
    ensures s.Head().Some? ==>
      var a, t := s.Head().value, s.(fleet := s.fleet.Behead());
      && AfterGivingUp(s) == AfterMark(t, a).(trace := t.trace + [Dropped(a)])
      && AfterMark(t, a).trace == t.trace && (a == "" ==> AfterMark(t, a) == t)
  {
  }

  lemma ForbiddingCases(s: Snap, p: Point)
    requires p.fleet == s.fleet
    ensures p.Forbid() == Point(AfterForbidding(s).fleet, p.fetches, p.forwards)
    ensures s.Head().None? || s.Head().value == "" ==> AfterForbidding(s) == s
    ensures s.Head().Some? && s.Head().value != "" ==>
      var a := s.Head().value;
      var t := s.(fleet := s.fleet.Strike(a));
      AfterForbidding(s) == AfterMark(t, a).(trace := t.trace + [Dropped(a)]) && AfterMark(t, a).trace == t.trace
  {
  }

  lemma FreshForbidden(s: Snap, r: Resp)
    requires Fresh(s, r) && r.reply.status == 403
    ensures Progress(s, AfterForbidding(s))
  {
    hide Progress, AfterForbidding;
    ProgressForbid(s, r.of);
  }

  lemma BlockRetries()
    ensures BlockRetry(RetryStream) && BlockRetry(RetryJSON) && BlockRetry(RetryPlain)
  {
  }

  lemma MarkCases(s: Snap)
    ensures AfterMark(s, "") == s && forall a :: AfterMark(s, a).trace == s.trace
  {
  }

  lemma RelayedIs(p: Point, s: Snap)
    requires p.fleet == s.fleet
    ensures p.Relayed(s.env)
            == Point((if s.env.world.relayWriteError && s.Head().Some? then AfterMark(s, s.Head().value) else s).fleet,
                     p.fetches, p.forwards)
  {
  }

  lemma CleanStays(p: Point, env: Env, text: string)
    ensures !env.world.Blocked(text) ==> p.Checked(env, text) == p
  {
    hide Compliance.Detect;
  }

  lemma TokenKeepsFleet(env: Env, p: Point)
    ensures p.Token(env) ==> p.Fetched(env).Sent().Exhausted() == p.Exhausted()
  {
  }

  lemma SSEIsEventStream(world: World, r: Reply)
    requires world.LooksLikeSSE(r)
    ensures r.eventStream
  {
  }

  lemma GenuineIs(env: Env, r: Resp, at: Point)
    requires Genuine(env.world, r)
    ensures Real(env, Leg(Answered(r.of.k), at)) && env.world.upstream(r.of.k) == r.reply
  {
  }

  // ----------------------------------------- when a request is prepared to go out

  lemma NotRefreshed(phase: Phase)
    requires phase.First? || phase.Retry403? || phase.Fallback429?
    ensures !Refreshed(phase)
  {
  }

  lemma PreparedFirst(trace: seq<Event>, current: Option<string>)
    requires EndsWith(trace, [Gotten(First, true, current)])
    ensures Prepared(trace, First, current)
  {
  }

  lemma PreparedFallback(trace: seq<Event>, ok: bool, current: Option<string>)
    requires EndsWith(trace, [Gotten(Fallback429, ok, current)])
    ensures Prepared(trace, Fallback429, current)
  {
  }

  lemma PreparedToTry(s: Snap, phase: Phase)
    requires phase.First? || phase.Retry403?
    ensures Prepared(AfterTurn(s).trace, phase, AfterTurn(s).Head())
  {
    if s.Head().Some? {
      assert AfterTurn(s).trace[|s.trace|..] == [Turned];
    }
  }

  lemma PreparedAfterTurn(s: Snap, turned: Snap, phase: Phase)
    requires phase.Retry429? || (phase.Retry401? && s.Head().Some?)
    requires turned == AfterTurn(s)
    ensures var t := AfterNote(turned, phase, true);
            Prepared(t.trace, phase, t.Head()) && (Refreshed(phase) ==> t.Route() == turned.Route())
  {
    hide RouteOf;
    var t := AfterNote(turned, phase, true);
    assert t.trace[|turned.trace|..] == [Gotten(phase, true, t.Head())];
    if s.Head().Some? {
      assert t.trace[|s.trace|..] == [Turned, Gotten(phase, true, t.Head())];
    }
  }

  lemma PreparedAfterToken(s: Snap, phase: Phase)
    requires BlockRetry(phase)
    ensures var t := AfterNote(s, phase, true); Prepared(t.trace, phase, t.Head())
  {
    var t := AfterNote(s, phase, true);
    assert t.trace[|s.trace|..] == [Gotten(phase, true, t.Head())];
  }
}
