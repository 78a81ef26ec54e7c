// What one request handler does to the shared state, as values: the events it leaves
// behind, the state after each kind of step, and the relation between the state before
// and after any part of a request.
module HandlerTrace {
  import opened Addresses
  import opened Blacklists
  import opened Compliance
  import opened Fleets
  import opened Routing
  import opened Sequences
  import Rotation

  /** A bearer token and the route over which it was fetched. */
  datatype Token = Token(value: string, via: Route)

  datatype Phase = First | Retry401 | Retry403 | Retry429 | Fallback429 | RetryStream | RetryJSON | RetryPlain

  /** The k-th chat request: who was current in the rotator, which way it really
      went, and the token it carried. */
  datatype Forward = Forward(k: nat, phase: Phase, current: Option<string>, route: Route, token: Token)

  datatype Event =
    | Gotten(phase: Phase, ok: bool, current: Option<string>)  // a look for a token, and who is current after it
    | Banned(k: nat, via: Route)                // the k-th bootstrap request got a 403 through a proxy
    | Turned                                    // the rotator moved on
    | Forwarded(of: Forward)
    | Inspected(of: Forward, text: string)      // a text checked for the block message
    | Dropped(addr: string)                     // taken out of the rotator
    | Blamed(addr: string, of: Forward)         // put on the blacklist

  /** The shared state as far as it matters here. */
  datatype Snap = Snap(env: Env, fleet: Fleet, dead: Option<set<string>>, trace: seq<Event>) {
    ghost function Head(): Option<string> {
      fleet.Head()
    }

    ghost function Route(): Route {
      RouteOf(env, fleet)
    }
  }

  ghost predicate CameFrom(text: string, reply: Reply) {
    reply.Reply? && (text == reply.Prefix() || text == reply.Full() || text == reply.body)
  }

  /** The token of a retry must have travelled the way the retry itself goes. */
  ghost predicate Refreshed(phase: Phase) {
    phase.Retry401? || phase.Retry429? || BlockRetry(phase)
  }

  ghost predicate BlockRetry(phase: Phase) {
    phase.RetryStream? || phase.RetryJSON? || phase.RetryPlain?
  }

  ghost predicate ForwardOk(env: Env, f: Forward) {
    && (Refreshed(f.phase) ==> f.token.via == f.route)
    && (f.route.Tunnel? ==> f.current == Some(f.route.addr))
    && (env.smartless ==>
          f.route == if f.current.Some? && env.Resolves(f.current.value) then Tunnel(f.current.value) else Direct)
  }

  ghost predicate EndsWith(events: seq<Event>, last: seq<Event>) {
    |last| <= |events| && events[|events| - |last|..] == last
  }

  /** What has to happen right before a request goes out, with the same address
      current: a token for the first one, a move to the next upstream, if there is any,
      for every further one, and a token fetched in between for the retries on 401 and
      429; a retry on a block message only takes a token, because the blamed upstream
      has gone. */
  ghost predicate Prepared(before: seq<Event>, phase: Phase, current: Option<string>) {
    match phase
    case First =>
      EndsWith(before, [Gotten(First, true, current)]) || (current.Some? ==> EndsWith(before, [Turned]))
    case Fallback429 =>
      EndsWith(before, [Gotten(phase, true, current)]) || EndsWith(before, [Gotten(phase, false, current)])
    case Retry401 => EndsWith(before, [Turned, Gotten(phase, true, current)])
    case Retry403 => current.Some? ==> EndsWith(before, [Turned])
    case Retry429 =>
      if current.Some? then EndsWith(before, [Turned, Gotten(phase, true, current)])
      else EndsWith(before, [Gotten(phase, true, current)])
    case _ => EndsWith(before, [Gotten(phase, true, current)])
  }

  /** Why an address leaves the rotator: the event right before is a block message
      while it was current, a failed token refresh of a block retry after which it is
      current, a 403 to the request made while it was current, or a 403 to a bootstrap
      request that went through it. */
  ghost predicate Justifies(env: Env, cause: Event, addr: string) {
    match cause
    case Inspected(f, text) => f.current == Some(addr) && env.world.Blocked(text)
    case Gotten(phase, ok, current) => BlockRetry(phase) && !ok && current == Some(addr)
    case Forwarded(f) =>
      f.current == Some(addr) && env.world.upstream(f.k).Reply? && env.world.upstream(f.k).status == 403
    case Banned(_, via) => via == Tunnel(addr)
    case _ => false
  }

  /** The event at `i` is in order: requests go out as they should, every text found
      blocked costs the rotator its current address and puts it on the blacklist, a
      banned tunnel goes, and nothing else leaves or is blamed. */
  ghost predicate EventOk(env: Env, trace: seq<Event>, i: nat)
    requires i < |trace|
  {
    match trace[i]
    case Gotten(_, _, _) => true
    case Turned => true
    case Banned(k, via) =>
      && env.world.bootstrap(k).Forbids()
      && (via.Tunnel? ==> i + 1 < |trace| && trace[i + 1] == Dropped(via.addr))
    case Forwarded(f) => ForwardOk(env, f) && Prepared(trace[..i], f.phase, f.current)
    case Inspected(f, text) =>
      && Forwarded(f) in trace[..i] && ForwardOk(env, f)
      && CameFrom(text, env.world.upstream(f.k))
      && (env.world.Blocked(text) && f.current.Some? ==>
            && i + 1 < |trace| && trace[i + 1] == Dropped(f.current.value)
            && (f.current.value != "" ==> i + 2 < |trace| && trace[i + 2] == Blamed(f.current.value, f)))
    case Dropped(addr) => i > 0 && Justifies(env, trace[i - 1], addr)
    case Blamed(addr, f) =>
      && addr != "" && f.current == Some(addr) && Forwarded(f) in trace[..i] && ForwardOk(env, f)
      && i >= 2 && trace[i - 2].Inspected? && trace[i - 2].of == f
      && env.world.Blocked(trace[i - 2].text) && CameFrom(trace[i - 2].text, env.world.upstream(f.k))
  }

  ghost function DroppedIn(events: seq<Event>): multiset<string> {
    if events == [] then multiset{}
    else
      var n := |events| - 1;
      DroppedIn(events[..n]) + if events[n].Dropped? then multiset{events[n].addr} else multiset{}
  }

  ghost function BlamedIPs(ipOf: string -> string, events: seq<Event>): set<string> {
    if events == [] then {}
    else
      var n := |events| - 1;
      BlamedIPs(ipOf, events[..n])
      + if events[n].Blamed? && ipOf(events[n].addr) != "" then {ipOf(events[n].addr)} else {}
  }

  lemma {:induction false} EventsConcat(ipOf: string -> string, a: seq<Event>, b: seq<Event>)
    ensures DroppedIn(a + b) == DroppedIn(a) + DroppedIn(b)
    ensures BlamedIPs(ipOf, a + b) == BlamedIPs(ipOf, a) + BlamedIPs(ipOf, b)
  {
    if b == [] {
      assert a + b == a;
    } else {
      var n := |b| - 1;
      EventsConcat(ipOf, a, b[..n]);
      assert (a + b)[..|a + b| - 1] == a + b[..n];
    }
  }

  /** The rotator's list loses exactly the dropped addresses and keeps its order, and
      whatever was dropped is on the dead list. */
  ghost predicate Conserved(a: Snap, b: Snap, events: seq<Event>) {
    && (a.fleet.ring.None? <==> b.fleet.ring.None?) && (a.dead.None? <==> b.dead.None?)
    && IsSubsequence(b.fleet.List(), a.fleet.List())
    && multiset(a.fleet.List()) == multiset(b.fleet.List()) + DroppedIn(events)
    && (a.dead.Some? ==>
          && a.dead.value <= b.dead.value
          && forall x :: x in DroppedIn(events) && x != "" ==> x in b.dead.value)
  }

  /** The blacklist gains exactly the IPs of the blamed addresses. */
  ghost predicate OnlyBlamed(a: Snap, b: Snap, events: seq<Event>) {
    && (a.fleet.black.None? <==> b.fleet.black.None?)
    && (a.fleet.black.Some? ==>
          && a.fleet.black.value.ipOf == b.fleet.black.value.ipOf
          && b.fleet.black.value.entries
             == a.fleet.black.value.entries + BlamedIPs(a.fleet.black.value.ipOf, events))
  }

  ghost predicate Progress(a: Snap, b: Snap) {
    && a.env == b.env
    && a.trace <= b.trace
    && Conserved(a, b, b.trace[|a.trace|..])
    && OnlyBlamed(a, b, b.trace[|a.trace|..])
    && forall i :: |a.trace| <= i < |b.trace| ==> EventOk(b.env, b.trace, i)
  }

  lemma EventStaysOk(env: Env, trace: seq<Event>, longer: seq<Event>, i: nat)
    requires i < |trace| && trace <= longer && EventOk(env, trace, i)
    ensures EventOk(env, longer, i)
  {
    assert longer[..i] == trace[..i];
    assert forall j :: 0 <= j < |trace| ==> longer[j] == trace[j];
  }

  lemma ConservedTransitive(a: Snap, b: Snap, c: Snap, ab: seq<Event>, bc: seq<Event>)
    requires Conserved(a, b, ab) && Conserved(b, c, bc)
    ensures Conserved(a, c, ab + bc)
  {
    EventsConcat((addr: string) => "", ab, bc);
    hide IsSubsequence, DroppedIn;
    SubsequenceTransitive(c.fleet.List(), b.fleet.List(), a.fleet.List());
  }

  lemma BlamedTransitive(a: Snap, b: Snap, c: Snap, ab: seq<Event>, bc: seq<Event>)
    requires OnlyBlamed(a, b, ab) && OnlyBlamed(b, c, bc)
    ensures OnlyBlamed(a, c, ab + bc)
  {
    if a.fleet.black.Some? {
      EventsConcat(a.fleet.black.value.ipOf, ab, bc);
    }
    hide BlamedIPs;
  }

  lemma ProgressTransitive(a: Snap, b: Snap, c: Snap)
    requires Progress(a, b) && Progress(b, c)
    ensures Progress(a, c) && b.trace <= c.trace
  {
    hide Conserved, OnlyBlamed, EventOk;
    var ab, bc := b.trace[|a.trace|..], c.trace[|b.trace|..];
    assert c.trace[|a.trace|..] == ab + bc;
    ConservedTransitive(a, b, c, ab, bc);
    BlamedTransitive(a, b, c, ab, bc);
    forall i | |a.trace| <= i < |c.trace| ensures EventOk(c.env, c.trace, i) {
      if i < |b.trace| {
        EventStaysOk(b.env, b.trace, c.trace, i);
      }
    }
  }

  // ------------------------------------------------------ the steps, as values

  ghost function Grown(dead: Option<set<string>>, addr: string): Option<set<string>> {
    if dead.None? || addr == "" then dead else Some(dead.value + {addr})
  }

  /** Dead for the pool and for the smart router. */
  ghost function AfterMark(s: Snap, addr: string): Snap {
    s.(dead := Grown(s.dead, addr), fleet := s.fleet.SmartDead(addr))
  }

  ghost function AfterTurn(s: Snap): Snap {
    if s.Head().None? then s else s.(fleet := s.fleet.Turn(), trace := s.trace + [Turned])
  }

  ghost function AfterSend(s: Snap, f: Forward): Snap {
    s.(trace := s.trace + [Forwarded(f)])
  }

  /** What the k-th bootstrap request leaves behind. */
  ghost function BootEvents(s: Snap, k: nat): seq<Event> {
    var via := s.Route();
    if !s.env.world.bootstrap(k).Forbids() || via.Direct? || via.addr == "" then []
    else [Banned(k, via)] + if via.Tunnel? then [Dropped(via.addr)] else []
  }

  ghost function AfterBoot(s: Snap, k: nat): Snap {
    var via := s.Route();
    Snap(s.env, s.fleet.Booted(via, s.env.world.bootstrap(k)),
         if BootEvents(s, k) == [] then s.dead else Grown(s.dead, via.addr),
         s.trace + BootEvents(s, k))
  }

  /** And with the outcome of the look for a token noted. */
  ghost function AfterLook(s: Snap, phase: Phase, k: nat): Snap {
    var t := AfterBoot(s, k);
    t.(trace := t.trace + [Gotten(phase, s.env.world.bootstrap(k).GivesToken(), t.Head())])
  }

  ghost function TextEvents(s: Snap, f: Forward, text: string): seq<Event> {
    [Inspected(f, text)]
    + if !s.env.world.Blocked(text) || s.Head().None? then []
      else [Dropped(s.Head().value)] + if s.Head().value == "" then [] else [Blamed(s.Head().value, f)]
  }

  ghost function AfterText(s: Snap, f: Forward, text: string): Snap {
    if !s.env.world.Blocked(text) || s.Head().None? then s.(trace := s.trace + TextEvents(s, f, text))
    else
      Snap(s.env, s.fleet.Blame(), Grown(s.dead, s.Head().value), s.trace + TextEvents(s, f, text))
  }

  ghost function AfterGivingUp(s: Snap): Snap {
    if s.Head().None? then s
    else Snap(s.env, s.fleet.GiveUp(), Grown(s.dead, s.Head().value), s.trace + [Dropped(s.Head().value)])
  }

  ghost function AfterForbidding(s: Snap): Snap {
    if s.Head().None? || s.Head().value == "" then s
    else Snap(s.env, s.fleet.Forbid(), Grown(s.dead, s.Head().value), s.trace + [Dropped(s.Head().value)])
  }

  // --------------------------------------------------- each of them is progress

  lemma ProgressBy(a: Snap, b: Snap, events: seq<Event>)
    requires a.env == b.env && b.trace == a.trace + events
    requires Conserved(a, b, events) && OnlyBlamed(a, b, events)
    requires forall i :: |a.trace| <= i < |b.trace| ==> EventOk(b.env, b.trace, i)
    ensures Progress(a, b)
  {
    hide Conserved, OnlyBlamed, EventOk;
    assert b.trace[|a.trace|..] == events;
  }

  lemma OneEvent(ipOf: string -> string, e: Event)
    ensures DroppedIn([e]) == if e.Dropped? then multiset{e.addr} else multiset{}
    ensures BlamedIPs(ipOf, [e]) == if e.Blamed? && ipOf(e.addr) != "" then {ipOf(e.addr)} else {}
  {
    assert [e][..0] == [];
  }

  /** Nobody left, nobody was blamed. */
  lemma NobodyLeft(a: Snap, b: Snap, events: seq<Event>)
    requires a.fleet.List() == b.fleet.List() && (a.fleet.ring.None? <==> b.fleet.ring.None?)
    requires a.fleet.black == b.fleet.black
    requires (a.dead.None? <==> b.dead.None?) && (a.dead.Some? ==> a.dead.value <= b.dead.value)
    requires events == [] || (|events| == 1 && !events[0].Dropped? && !events[0].Blamed?)
    ensures Conserved(a, b, events) && OnlyBlamed(a, b, events)
  {
    if events != [] {
      OneEvent(if a.fleet.black.Some? then a.fleet.black.value.ipOf else (x: string) => "", events[0]);
      assert events == [events[0]];
    }
    SubsequenceSelf(a.fleet.List());
    hide IsSubsequence;
  }

  lemma ProgressMark(s: Snap, addr: string)
    ensures Progress(s, AfterMark(s, addr)) && Progress(s, s)
  {
    NobodyLeft(s, AfterMark(s, addr), []);
    NobodyLeft(s, s, []);
    hide Conserved, OnlyBlamed, EventOk;
    assert s.trace + [] == s.trace;
    ProgressBy(s, AfterMark(s, addr), []);
    ProgressBy(s, s, []);
  }

  lemma ProgressTurn(s: Snap)
    ensures Progress(s, AfterTurn(s))
  {
    ProgressMark(s, "");
    if s.Head().Some? {
      NobodyLeft(s, AfterTurn(s), [Turned]);
      hide Conserved, OnlyBlamed;
      ProgressBy(s, AfterTurn(s), [Turned]);
    }
  }

  lemma ProgressSend(s: Snap, f: Forward)
    requires ForwardOk(s.env, f) && Prepared(s.trace, f.phase, f.current)
    ensures Progress(s, AfterSend(s, f))
  {
    var t := AfterSend(s, f);
    NobodyLeft(s, t, [Forwarded(f)]);
    assert t.trace[..|s.trace|] == s.trace;
    hide Conserved, OnlyBlamed, ForwardOk, Prepared;
    ProgressBy(s, t, [Forwarded(f)]);
  }

  lemma MultisetWithout(list: seq<string>, k: nat)
    requires k < |list|
    ensures multiset(list) == multiset(list[..k] + list[k + 1..]) + multiset{list[k]}
  {
    assert list == list[..k] + [list[k]] + list[k + 1..];
  }

  /** One address left the list, and it is on the dead list. */
  lemma OneLeft(a: Snap, b: Snap, addr: string, k: nat, events: seq<Event>)
    requires k < |a.fleet.List()| && a.fleet.List()[k] == addr
    requires b.fleet.List() == a.fleet.List()[..k] + a.fleet.List()[k + 1..]
    requires a.fleet.ring.None? <==> b.fleet.ring.None?
    requires b.dead == Grown(a.dead, addr) && DroppedIn(events) == multiset{addr}
    ensures Conserved(a, b, events)
  {
    hide IsSubsequence, DroppedIn;
    SubsequenceWithout(a.fleet.List(), k);
    MultisetWithout(a.fleet.List(), k);
  }

  /** Taking out the head, or its first occurrence, is taking out one address. */
  lemma HeadLeaves(s: Snap) returns (k: nat, j: nat)
    requires s.Head().Some?
    ensures var list, addr := s.fleet.List(), s.Head().value;
            && k < |list| && list[k] == addr && s.fleet.Behead().List() == list[..k] + list[k + 1..]
            && j < |list| && list[j] == addr && s.fleet.Strike(addr).List() == list[..j] + list[j + 1..]
  {
    k := s.fleet.ring.value.index;
    j := Rotation.FirstIndex(s.fleet.List(), s.Head().value);
  }

  lemma ProgressBoot(s: Snap, k: nat)
    ensures Progress(s, AfterBoot(s, k))
  {
    var via, t := s.Route(), AfterBoot(s, k);
    RouteShape(s.env, s.fleet);
    hide RouteOf, Progress;
    if BootEvents(s, k) == [] {
      ProgressMark(s, "");
      assert s.trace + [] == s.trace;
    } else if via.Tunnel? {
      var _, j := HeadLeaves(s);
      ProgressBan(s, t, k, via.addr, j);
    } else {
      ProgressSmartBan(s, t, k, via);
    }
  }

  lemma ProgressSmartBan(s: Snap, t: Snap, k: nat, via: Route)
    requires via.Smart? && s.env.world.bootstrap(k).Forbids()
    requires t == AfterMark(s, via.addr).(trace := s.trace + [Banned(k, via)])
    ensures Progress(s, t)
  {
    NobodyLeft(s, t, [Banned(k, via)]);
    hide Conserved, OnlyBlamed;
    ProgressBy(s, t, [Banned(k, via)]);
  }

  lemma ProgressBan(s: Snap, t: Snap, k: nat, addr: string, j: nat)
    requires s.env.world.bootstrap(k).Forbids()
    requires j < |s.fleet.List()| && s.fleet.List()[j] == addr
    requires t.env == s.env && t.dead == Grown(s.dead, addr) && t.fleet.black == s.fleet.black
    requires t.fleet.List() == s.fleet.List()[..j] + s.fleet.List()[j + 1..]
    requires s.fleet.ring.Some? && t.fleet.ring.Some?
    requires t.trace == s.trace + [Banned(k, Tunnel(addr)), Dropped(addr)]
    ensures Progress(s, t)
  {
    var events := [Banned(k, Tunnel(addr)), Dropped(addr)];
    DropEvents(if s.fleet.black.Some? then s.fleet.black.value.ipOf else (x: string) => "", events[0], addr);
    OneLeft(s, t, addr, j, events);
    hide Conserved, DroppedIn, BlamedIPs;
    assert t.trace[|s.trace|] == events[0] && t.trace[|s.trace| + 1] == events[1];
    ProgressBy(s, t, events);
  }

  lemma DropEvents(ipOf: string -> string, cause: Event, addr: string)
    requires !cause.Dropped? && !cause.Blamed?
    ensures DroppedIn([cause, Dropped(addr)]) == multiset{addr} && BlamedIPs(ipOf, [cause, Dropped(addr)]) == {}
  {
    EventsConcat(ipOf, [cause], [Dropped(addr)]);
    OneEvent(ipOf, cause);
    OneEvent(ipOf, Dropped(addr));
    assert [cause] + [Dropped(addr)] == [cause, Dropped(addr)];
  }

  lemma ProgressLook(s: Snap, phase: Phase, k: nat)
    ensures Progress(s, AfterLook(s, phase, k)) && s.trace <= AfterLook(s, phase, k).trace
  {
    var t := AfterBoot(s, k);
    ProgressBoot(s, k);
    ProgressNote(t, phase, s.env.world.bootstrap(k).GivesToken());
    hide *;
    LookIsNote(s, phase, k);
    ProgressTransitive(s, t, AfterLook(s, phase, k));
    ProgressGrows(s, t);
  }

  ghost function AfterNote(s: Snap, phase: Phase, ok: bool): Snap {
    s.(trace := s.trace + [Gotten(phase, ok, s.Head())])
  }

  lemma LookIsNote(s: Snap, phase: Phase, k: nat)
    ensures AfterLook(s, phase, k) == AfterNote(AfterBoot(s, k), phase, s.env.world.bootstrap(k).GivesToken())
  {
  }

  lemma ProgressGrows(a: Snap, b: Snap)
    requires Progress(a, b)
    ensures a.trace <= b.trace && a.env == b.env
  {
  }

  lemma ProgressNote(s: Snap, phase: Phase, ok: bool)
    ensures Progress(s, AfterNote(s, phase, ok))
  {
    var t := AfterNote(s, phase, ok);
    NobodyLeft(s, t, [Gotten(phase, ok, s.Head())]);
    hide Conserved, OnlyBlamed;
    ProgressBy(s, t, [Gotten(phase, ok, s.Head())]);
  }

  /** A drop whose cause is the last event. */
  lemma ProgressDrop(s: Snap, t: Snap, k: nat)
    requires s.Head().Some? && s.trace != [] && Justifies(s.env, s.trace[|s.trace| - 1], s.Head().value)
    requires k < |s.fleet.List()| && s.fleet.List()[k] == s.Head().value
    requires t.env == s.env && t.dead == Grown(s.dead, s.Head().value) && t.fleet.black == s.fleet.black
    requires t.fleet.List() == s.fleet.List()[..k] + s.fleet.List()[k + 1..] && t.fleet.ring.Some?
    requires t.trace == s.trace + [Dropped(s.Head().value)]
    ensures Progress(s, t)
  {
    var addr := s.Head().value;
    OneEvent(if s.fleet.black.Some? then s.fleet.black.value.ipOf else (x: string) => "", Dropped(addr));
    OneLeft(s, t, addr, k, [Dropped(addr)]);
    hide Conserved, DroppedIn, BlamedIPs, Justifies;
    assert t.trace[|s.trace| - 1] == s.trace[|s.trace| - 1];
    ProgressBy(s, t, [Dropped(addr)]);
  }

  lemma ProgressGiveUp(s: Snap, phase: Phase)
    requires BlockRetry(phase) && EndsWith(s.trace, [Gotten(phase, false, s.Head())])
    ensures Progress(s, AfterGivingUp(s))
  {
    if s.Head().None? {
      ProgressMark(s, "");
    } else {
      assert s.trace[|s.trace| - 1] == Gotten(phase, false, s.Head());
      var k, _ := HeadLeaves(s);
      hide Progress;
      ProgressDrop(s, AfterGivingUp(s), k);
    }
  }

  lemma ProgressForbid(s: Snap, f: Forward)
    requires EndsWith(s.trace, [Forwarded(f)]) && f.current == s.Head()
    requires s.env.world.upstream(f.k).Reply? && s.env.world.upstream(f.k).status == 403
    ensures Progress(s, AfterForbidding(s))
  {
    if s.Head().None? || s.Head().value == "" {
      ProgressMark(s, "");
    } else {
      assert s.trace[|s.trace| - 1] == Forwarded(f);
      var _, j := HeadLeaves(s);
      hide Progress;
      ProgressDrop(s, AfterForbidding(s), j);
    }
  }

  lemma BlameEvents(ipOf: string -> string, f: Forward, text: string, addr: string)
    ensures var events := [Inspected(f, text)] + ([Dropped(addr)] + if addr == "" then [] else [Blamed(addr, f)]);
      && DroppedIn(events) == multiset{addr}
      && BlamedIPs(ipOf, events) == if addr != "" && ipOf(addr) != "" then {ipOf(addr)} else {}
  {
    var first, second, third := [Inspected(f, text)], [Dropped(addr)], if addr == "" then [] else [Blamed(addr, f)];
    OneEvent(ipOf, Inspected(f, text));
    OneEvent(ipOf, Dropped(addr));
    OneEvent(ipOf, Blamed(addr, f));
    EventsConcat(ipOf, second, third);
    EventsConcat(ipOf, first, second + third);
  }

  lemma BlameEventsOk(env: Env, before: seq<Event>, f: Forward, text: string, addr: string)
    requires Forwarded(f) in before && ForwardOk(env, f) && CameFrom(text, env.world.upstream(f.k))
    requires env.world.Blocked(text) && f.current == Some(addr)
    ensures var events := [Inspected(f, text)] + ([Dropped(addr)] + if addr == "" then [] else [Blamed(addr, f)]);
      var after := before + events;
      forall i :: |before| <= i < |after| ==> EventOk(env, after, i)
  {
    hide ForwardOk, CameFrom, Detect;
    var after := before + ([Inspected(f, text)] + ([Dropped(addr)] + if addr == "" then [] else [Blamed(addr, f)]));
    var n := |before|;
    assert after[..n] == before && after[n] == Inspected(f, text) && after[n + 1] == Dropped(addr);
    if addr != "" {
      assert after[n + 2] == Blamed(addr, f);
      assert after[..n + 2][..n] == before;
    }
  }

  lemma ProgressText(s: Snap, f: Forward, text: string)
    requires Forwarded(f) in s.trace && ForwardOk(s.env, f) && f.current == s.Head()
    requires CameFrom(text, s.env.world.upstream(f.k))
    ensures Progress(s, AfterText(s, f, text))
    ensures Inspected(f, text) in AfterText(s, f, text).trace && s.trace <= AfterText(s, f, text).trace
  {
    hide Detect, ForwardOk, CameFrom, Progress;
    var t := AfterText(s, f, text);
    assert t.trace[|s.trace|] == Inspected(f, text);
    if s.env.world.Blocked(text) && s.Head().Some? {
      var k, _ := HeadLeaves(s);
      ProgressBlame(s, t, f, text, s.Head().value, k);
    } else {
      assert TextEvents(s, f, text) == [Inspected(f, text)];
      ProgressClean(s, f, text);
    }
  }

  lemma ProgressClean(s: Snap, f: Forward, text: string)
    requires Forwarded(f) in s.trace && ForwardOk(s.env, f) && f.current == s.Head()
    requires CameFrom(text, s.env.world.upstream(f.k))
    requires !s.env.world.Blocked(text) || s.Head().None?
    ensures Progress(s, s.(trace := s.trace + [Inspected(f, text)]))
  {
    var t := s.(trace := s.trace + [Inspected(f, text)]);
    NobodyLeft(s, t, [Inspected(f, text)]);
    hide Conserved, OnlyBlamed, Detect, ForwardOk, CameFrom;
    assert t.trace[..|s.trace|] == s.trace;
    ProgressBy(s, t, [Inspected(f, text)]);
  }

  lemma ProgressBlame(s: Snap, t: Snap, f: Forward, text: string, addr: string, k: nat)
    requires Forwarded(f) in s.trace && ForwardOk(s.env, f) && f.current == Some(addr)
    requires CameFrom(text, s.env.world.upstream(f.k)) && s.env.world.Blocked(text)
    requires k < |s.fleet.List()| && s.fleet.List()[k] == addr
    requires t.env == s.env && t.dead == Grown(s.dead, addr) && t.fleet.black == s.fleet.Blacklisted(addr).black
    requires t.fleet.List() == s.fleet.List()[..k] + s.fleet.List()[k + 1..]
    requires s.fleet.ring.Some? && t.fleet.ring.Some?
    requires t.trace == s.trace
                        + ([Inspected(f, text)] + ([Dropped(addr)] + if addr == "" then [] else [Blamed(addr, f)]))
    ensures Progress(s, t)
  {
    hide EventOk, ForwardOk, CameFrom, Detect;
    var events := [Inspected(f, text)] + ([Dropped(addr)] + if addr == "" then [] else [Blamed(addr, f)]);
    BlameEvents(if s.fleet.black.Some? then s.fleet.black.value.ipOf else (x: string) => "", f, text, addr);
    hide DroppedIn, BlamedIPs;
    OneLeft(s, t, addr, k, events);
    assert OnlyBlamed(s, t, events);
    hide Conserved, OnlyBlamed;
    BlameEventsOk(s.env, s.trace, f, text, addr);
    ProgressBy(s, t, events);
  }

  // -------------------------------------------------------- what follows from it

  ghost predicate Happened(a: Snap, b: Snap, e: Event)
  {
    a.trace <= b.trace && e in b.trace[|a.trace|..]
  }

  /** Correct blame. An address is only ever blamed for a text that was found blocked
      in the answer to a request sent before, while that address was current; without
      a smart router it is the address that carried the answer exactly if it resolves. */
  lemma BlameIsRight(a: Snap, b: Snap, addr: string, f: Forward)
    requires Progress(a, b) && Happened(a, b, Blamed(addr, f))
    ensures f.current == Some(addr) && Forwarded(f) in b.trace
    ensures exists text :: CameFrom(text, b.env.world.upstream(f.k)) && b.env.world.Blocked(text)
    ensures f.route != Tunnel(addr) ==> !f.route.Tunnel?
    ensures b.env.smartless ==> (f.route == Tunnel(addr) <==> b.env.Resolves(addr))
  {
    var i :| |a.trace| <= i < |b.trace| && b.trace[i] == Blamed(addr, f);
    assert EventOk(b.env, b.trace, i);
    var text := b.trace[i - 2].text;
    assert CameFrom(text, b.env.world.upstream(f.k)) && b.env.world.Blocked(text);
  }

  /** And every block found while the rotator has a current address is acted upon. */
  lemma BlocksAreBlamed(a: Snap, b: Snap, f: Forward, text: string)
    requires Progress(a, b) && Happened(a, b, Inspected(f, text)) && b.env.world.Blocked(text)
    requires f.current.Some? && f.current.value != ""
    ensures Happened(a, b, Blamed(f.current.value, f)) && Happened(a, b, Dropped(f.current.value))
  {
    var i :| |a.trace| <= i < |b.trace| && b.trace[i] == Inspected(f, text);
    assert EventOk(b.env, b.trace, i);
    assert b.trace[|a.trace|..][i + 1 - |a.trace|] == Dropped(f.current.value);
    assert b.trace[|a.trace|..][i + 2 - |a.trace|] == Blamed(f.current.value, f);
  }

  /** No address leaves the rotator but for one of the four causes, which is the event
      right before. */
  lemma DropsAreJustified(a: Snap, b: Snap, i: nat)
    requires Progress(a, b) && |a.trace| <= i < |b.trace| && b.trace[i].Dropped?
    ensures i > 0 && Justifies(b.env, b.trace[i - 1], b.trace[i].addr)
  {
    assert EventOk(b.env, b.trace, i);
  }

  /** A block retry that gets no token drops an address to which not even its bootstrap
      request went, exactly if somebody is current afterwards who is not the tunnel that
      was used: the successor of a banned one, or anybody if another way was taken. */
  lemma UncontactedDrop(s: Snap, phase: Phase, k: nat)
    requires !s.env.world.bootstrap(k).GivesToken()
    ensures var t, next := AfterGivingUp(AfterLook(s, phase, k)), AfterBoot(s, k).Head();
            && s.trace <= t.trace
            && ((exists addr :: Dropped(addr) in t.trace[|s.trace|..] && s.Route() != Tunnel(addr))
                <==> next.Some? && s.Route() != Tunnel(next.value))
  {
    hide RouteOf;
    var t, next := AfterGivingUp(AfterLook(s, phase, k)), AfterBoot(s, k).Head();
    var last := [Gotten(phase, false, next)] + if next.Some? then [Dropped(next.value)] else [];
    assert t.trace == s.trace + (BootEvents(s, k) + last);
    assert t.trace[|s.trace|..] == BootEvents(s, k) + last;
    if next.Some? {
      assert (BootEvents(s, k) + last)[|BootEvents(s, k)| + 1] == Dropped(next.value);
    }
  }

  lemma BannedHead(s: Snap, k: nat)
    requires s.fleet.proxies == [] && s.Head().Some? && s.env.Resolves(s.Head().value)
    ensures s.Route() == Tunnel(s.Head().value)
    ensures AfterBoot(s, k).Head()
            == if s.env.world.bootstrap(k).Forbids() then s.fleet.ring.value.Strike(s.Head().value).Head() else s.Head()
  {
    RouteShape(s.env, s.fleet);
    hide RouteOf;
  }

  /** With a dialer for everybody, no smart router and no address twice: exactly if the
      bootstrap request was answered 403 and there is a successor, and it is that one. */
  lemma SuccessorGoesToo(s: Snap, phase: Phase, k: nat)
    requires !s.env.world.bootstrap(k).GivesToken() && s.fleet.proxies == []
    requires s.fleet.ring.Some? && s.fleet.ring.value.index < |s.fleet.List()| && Rotation.Distinct(s.fleet.List())
    requires forall a :: a in s.fleet.List() ==> s.env.Resolves(a)
    ensures var t := AfterGivingUp(AfterLook(s, phase, k));
            && s.trace <= t.trace
            && ((exists addr :: Dropped(addr) in t.trace[|s.trace|..] && s.Route() != Tunnel(addr))
                <==> s.env.world.bootstrap(k).Forbids() && |s.fleet.List()| > 1)
    ensures s.env.world.bootstrap(k).Forbids() && |s.fleet.List()| > 1 ==>
      AfterBoot(s, k).Head() == s.fleet.Turn().Head()
  {
    assert s.Head().value in s.fleet.List();
    UncontactedDrop(s, phase, k);
    BannedHead(s, k);
    Rotation.StruckHead(s.fleet.ring.value);
    hide RouteOf, AfterLook, AfterGivingUp, AfterBoot, Env.Resolves, Rotation.Ring.Strike, Rotation.Distinct;
  }

  /** Every request was prepared as its phase demands. */
  lemma RetriesArePrepared(a: Snap, b: Snap, i: nat)
    requires Progress(a, b) && |a.trace| <= i < |b.trace| && b.trace[i].Forwarded?
    ensures Prepared(b.trace[..i], b.trace[i].of.phase, b.trace[i].of.current)
  {
    assert EventOk(b.env, b.trace, i);
  }

  /** A retry after a token refresh goes the way its token came. */
  lemma TokenSharesRoute(a: Snap, b: Snap, f: Forward)
    requires Progress(a, b) && Happened(a, b, Forwarded(f)) && Refreshed(f.phase)
    ensures f.token.via == f.route
  {
    var i :| |a.trace| <= i < |b.trace| && b.trace[i] == Forwarded(f);
    assert EventOk(b.env, b.trace, i);
  }

  /** Conservation: what the rotator lost is what was dropped, in place, and it is on
      the dead list. */
  lemma LostIsDropped(a: Snap, b: Snap, addr: string)
    requires Progress(a, b)
    requires addr in a.fleet.List() && addr !in b.fleet.List() && addr != ""
    ensures IsSubsequence(b.fleet.List(), a.fleet.List())
    ensures Happened(a, b, Dropped(addr))
    ensures a.dead.Some? ==> addr in b.dead.value
  {
    var events := b.trace[|a.trace|..];
    assert multiset(a.fleet.List())[addr] > 0 && multiset(b.fleet.List())[addr] == 0;
    assert addr in DroppedIn(events);
    DroppedWasEvent(events, addr);
  }

  lemma {:induction false} DroppedWasEvent(events: seq<Event>, addr: string)
    ensures addr in DroppedIn(events) <==> Dropped(addr) in events
  {
    if events != [] {
      var n := |events| - 1;
      DroppedWasEvent(events[..n], addr);
      assert events == events[..n] + [events[n]];
    }
  }
}
