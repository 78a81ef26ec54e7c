// The servers and proxies that requests can go through, as a value: the rotator's ring,
// the smart router's proxies and the blacklist, which way they send a request, and
// what becomes of them when a proxy is banned, blamed or given up.
module Fleets {
  import opened Addresses
  import opened Blacklists
  import opened Compliance
  import opened Rotation
  import opened Routing
  import Stream
  import Pools
  import SSEFormat

  // Where a request goes out: directly, through the rotator's current upstream, or
  // through the smart router's choice.
  datatype Route = Direct | Tunnel(addr: string) | Smart(addr: string)

  /** The upstream's answer to a chat request. `body` is what reading everything at once
      gives, `lines` are those the line scanner finds in it, and `rest` is what can still
      be read after the first lines have been buffered. */
  datatype Reply = Failed
    | Reply(status: int, eventStream: bool, lines: seq<string>, rest: string, body: string, readError: bool)
  {
    /** What is inspected before a stream is relayed: the start of what will be sent. */
    function Prefix(): string
      requires Reply?
    {
      Stream.Text(Stream.Buffered(lines))
    }

    /** The buffered lines and what could be read after them. */
    function Full(): string
      requires Reply?
    {
      Prefix() + if readError then "" else rest
    }
  }

  /** How these go together in an answer that is received: the scanner may have read
      ahead of the lines it has delivered, at most eleven, and what it has is lost. */
  ghost predicate Receivable(r: Reply) {
    r.Reply? ==>
      && r.lines == Stream.ScanLines(r.body)
      && var unscanned := Stream.AfterLines(r.body, Stream.CHECK_LINES + 1);
         exists n :: 0 <= n <= |unscanned| && r.rest == unscanned[n..]
  }

  datatype BootReply = NoAnswer | Answer(status: int, jwt: string)
  {
    /** What a bootstrap request must bring. */
    predicate GivesToken() {
      Answer? && status == 200 && jwt != ""
    }

    predicate Forbids() {
      Answer? && status == 403
    }
  }

  /** Everything outside: the answers to the k-th chat request and to the k-th
      bootstrap request, whether the k-th look at the token cache finds it unexpired,
      which servers a dialer can be built for, and library verdicts on texts. */
  datatype World = World(
    upstream: nat -> Reply, bootstrap: nat -> BootReply, unexpired: nat -> bool,
    dialable: SSConfig -> bool, chars: Chars, relayWriteError: bool)
  {
    predicate Blocked(text: string) {
      Detect(chars, text)
    }

    /** The answer is an event stream, as far as its first lines show. */
    predicate LooksLikeSSE(r: Reply) {
      r.Reply? && r.eventStream && r.Prefix() != "" && SSEFormat.ValidSSE(chars, r.Prefix())
    }
  }

  /** What does not change while a request is handled. */
  datatype Env = Env(world: World, servers: seq<SSConfig>, smartless: bool, filtered: bool) {

    /** The rotator address leads to a server for which a dialer can be built. */
    ghost predicate Resolves(addr: string) {
      addr != "" && LookupAddr(addr).Some? && world.dialable(LookupAddr(addr).value)
    }

    ghost function LookupAddr(addr: string): Option<SSConfig> {
      Pools.LookupAddr(servers, addr)
    }
  }

  datatype Fleet = Fleet(ring: Option<Ring>, proxies: seq<ProxyInfo>, black: Option<Verdicts>) {

    ghost function List(): seq<string> {
      if ring.Some? then ring.value.list else []
    }

    /** The rotator's current address. */
    ghost function Head(): Option<string> {
      if ring.Some? then ring.value.Head() else None
    }

    ghost function Turn(): Fleet {
      if ring.Some? then this.(ring := Some(ring.value.Turn())) else this
    }

    ghost function Behead(): Fleet {
      if ring.Some? then this.(ring := Some(ring.value.Behead())) else this
    }

    ghost function Strike(addr: string): Fleet {
      if ring.Some? then this.(ring := Some(ring.value.Strike(addr))) else this
    }

    ghost function SmartDead(addr: string): Fleet {
      if addr == "" then this else this.(proxies := WithDead(proxies, addr))
    }

    ghost function Blacklisted(addr: string): Fleet {
      if addr == "" || black.None? then this else this.(black := Some(black.value.With(addr)))
    }

    /** Two addresses of one IP, as far as the blacklist can tell. */
    ghost predicate SameIP(addr: string, other: string) {
      black.Some? && black.value.ipOf(addr) != "" && black.value.ipOf(other) == black.value.ipOf(addr)
    }

    /** A block retry got no token: the current address goes. */
    ghost function GiveUp(): Fleet {
      if Head().None? then this else Behead().SmartDead(Head().value)
    }

    /** A block message was found: the current address goes and is blacklisted. */
    ghost function Blame(): Fleet {
      if Head().None? then this else Behead().Blacklisted(Head().value)
    }

    /** The upstream answered 403: the current address goes, unless it is empty. */
    ghost function Forbid(): Fleet {
      if Head().None? || Head().value == "" then this else Strike(Head().value).SmartDead(Head().value)
    }

    /** The bootstrap request that went this way was answered. */
    ghost function Booted(via: Route, answer: BootReply): Fleet {
      if !answer.Forbids() || via.Direct? || via.addr == "" then this
      else if via.Tunnel? then SmartDead(via.addr).Strike(via.addr)
      else SmartDead(via.addr)
    }
  }

  ghost function FilterOf(env: Env, fleet: Fleet): Verdicts {
    if env.filtered && fleet.black.Some? then fleet.black.value else NOBODY
  }

  /** The smart router's way, if it has one. */
  ghost function SmartWay(env: Env, fleet: Fleet): Option<Route> {
    var best := Best(fleet.proxies, FilterOf(env, fleet));
    if best.Some? && best.value.hasDialer then Some(Smart(best.value.address)) else None
  }

  /** The rotator's way, if its current address leads anywhere. */
  ghost function TunnelWay(env: Env, fleet: Fleet): Option<Route> {
    var head := fleet.Head();
    if head.Some? && env.Resolves(head.value) then Some(Tunnel(head.value)) else None
  }

  /** Which way a request goes. */
  ghost function RouteOf(env: Env, fleet: Fleet): Route {
    if SmartWay(env, fleet).Some? then SmartWay(env, fleet).value
    else if TunnelWay(env, fleet).Some? then TunnelWay(env, fleet).value
    else Direct
  }

  /** The smart router goes first, with the first of its fastest proxies that are alive
      and not blacklisted, unless that one has no dialer; then the rotator's current
      address, if a dialer can be built for it; and then nobody. */
  lemma RouteExactly(env: Env, fleet: Fleet, best: Option<ProxyInfo>)
    requires IsBest(fleet.proxies, FilterOf(env, fleet), best)
    ensures RouteOf(env, fleet)
            == if best.Some? && best.value.hasDialer then Smart(best.value.address)
               else if fleet.Head().Some? && env.Resolves(fleet.Head().value) then Tunnel(fleet.Head().value)
               else Direct
  {
    var proxies, filter := fleet.proxies, FilterOf(env, fleet);
    BestIsBest(proxies, filter);
    OneBest(proxies, filter, best, Best(proxies, filter));
    hide FilterOf, Env.Resolves, Best, IsBest;
  }

  lemma OneBest(proxies: seq<ProxyInfo>, filter: Verdicts, a: Option<ProxyInfo>, b: Option<ProxyInfo>)
    requires IsBest(proxies, filter, a) && IsBest(proxies, filter, b)
    ensures a == b
  {
    if a.Some? && b.Some? {
      var i: nat :| BestAt(proxies, filter, i) && proxies[i] == a.value;
      var j: nat :| BestAt(proxies, filter, j) && proxies[j] == b.value;
      assert i == j;
    }
  }

  /** No address is proxied twice. */
  ghost predicate DistinctProxies(proxies: seq<ProxyInfo>) {
    forall i, j :: 0 <= i < j < |proxies| ==> proxies[i].address != proxies[j].address
  }

  /** A proxy that was marked dead is not taken again. */
  lemma DeadIsAvoided(env: Env, fleet: Fleet, addr: string)
    requires addr != "" && DistinctProxies(fleet.proxies)
    ensures RouteOf(env, fleet.SmartDead(addr)) != Smart(addr)
  {
    var i := FirstWith(fleet.proxies, addr);
    DeadAt(fleet.proxies, addr, i);
    var later := fleet.SmartDead(addr);
    BestIsBest(later.proxies, FilterOf(env, later));
    hide FilterOf, Env.Resolves, Best;
    assert forall k: nat :: k < |later.proxies| && later.proxies[k].address == addr ==> !later.proxies[k].alive;
  }

  /** A route that the bootstrap endpoint answered with a 403 is not taken next: with
      distinct proxies, a proxy of the smart router is passed over, and with distinct
      addresses, one of the rotator has made room for its successor. */
  lemma BannedIsAvoided(env: Env, fleet: Fleet, answer: BootReply)
    requires answer.Forbids() && !RouteOf(env, fleet).Direct? && RouteOf(env, fleet).addr != ""
    requires DistinctProxies(fleet.proxies)
    ensures RouteOf(env, fleet).Smart? || Distinct(fleet.List()) ==>
              var next := RouteOf(env, fleet.Booted(RouteOf(env, fleet), answer));
              next != RouteOf(env, fleet) && next != Smart(RouteOf(env, fleet).addr)
  {
    var via := RouteOf(env, fleet);
    var later := fleet.SmartDead(via.addr);
    RouteShape(env, fleet);
    DeadIsAvoided(env, fleet, via.addr);
    if via.Tunnel? {
      DeadIsAvoided(env, fleet.Strike(via.addr), via.addr);
      RouteShape(env, later.Strike(via.addr));
      assert later.Strike(via.addr) == fleet.Strike(via.addr).SmartDead(via.addr);
      if Distinct(fleet.List()) {
        StruckHead(fleet.ring.value);
      }
    }
    hide RouteOf, WithDead, Ring.Strike, Distinct, DistinctProxies;
  }

  /** Nor is an address taken next, over the rotator or by the smart router, that was
      current when a block retry got no token or when the upstream answered 403. */
  lemma DroppedIsAvoided(env: Env, fleet: Fleet)
    requires fleet.Head().Some? && fleet.Head().value != ""
    requires DistinctProxies(fleet.proxies) && Distinct(fleet.List())
    ensures var head := fleet.Head().value;
            && RouteOf(env, fleet.GiveUp()) !in {Tunnel(head), Smart(head)}
            && RouteOf(env, fleet.Forbid()) !in {Tunnel(head), Smart(head)}
            && RouteOf(env, fleet.Blame()) != Tunnel(head)
  {
    var head := fleet.Head().value;
    DeadIsAvoided(env, fleet.Behead(), head);
    DeadIsAvoided(env, fleet.Strike(head), head);
    RouteShape(env, fleet.GiveUp());
    RouteShape(env, fleet.Forbid());
    RouteShape(env, fleet.Blame());
    StruckHead(fleet.ring.value);
    BeheadIsStrike(fleet.ring.value);
    hide RouteOf, WithDead, Ring.Strike, Ring.Behead, Distinct, DistinctProxies;
  }

  /** An answer other than 403 to a bootstrap request leaves everything as it is, and so
      does any answer that came directly. */
  lemma BootedOnly(fleet: Fleet, via: Route, answer: BootReply)
    requires via.Direct? || answer.NoAnswer? || answer.status != 403
    ensures fleet.Booted(via, answer) == fleet
  {
  }

  /** A proxy whose address was blacklisted, on whatever port, is not taken either. */
  lemma BlamedIsAvoided(env: Env, fleet: Fleet, addr: string, other: string)
    requires env.filtered && addr != "" && fleet.SameIP(addr, other)
    ensures RouteOf(env, fleet.Blacklisted(addr)) != Smart(other)
  {
    var later := fleet.Blacklisted(addr);
    BlocksAfterAdding(fleet.black.value, addr, other);
    BestIsBest(later.proxies, FilterOf(env, later));
    hide Env.Resolves, Best, Verdicts.Blocks;
  }

  /** So a block message keeps the smart router off every port of the IP it came from. */
  lemma BlamedHeadIsAvoided(env: Env, fleet: Fleet, other: string)
    requires env.filtered && fleet.Head().Some? && fleet.Head().value != "" && fleet.SameIP(fleet.Head().value, other)
    ensures RouteOf(env, fleet.Blame()) != Smart(other)
  {
    BlamedIsAvoided(env, fleet.Behead(), fleet.Head().value, other);
    hide RouteOf;
  }

  /** A rotator address leads somewhere only if the pool has a server with its host and
      port, and does if a dialer can be built for all of these. */
  lemma ResolvesOnly(env: Env, addr: string)
    requires env.Resolves(addr)
    ensures exists c :: c in env.servers && ParseAddr(addr) == Some((c.server, c.port)) && env.world.dialable(c)
  {
    var (host, port) := ParseAddr(addr).value;
    Pools.LookupFinds(env.servers, host, port);
  }

  lemma ResolvesSurely(env: Env, addr: string, c: SSConfig)
    requires addr != "" && c in env.servers && ParseAddr(addr) == Some((c.server, c.port))
    requires forall d :: d in env.servers && d.server == c.server && d.port == c.port ==> env.world.dialable(d)
    ensures env.Resolves(addr)
  {
    Pools.LookupFinds(env.servers, c.server, c.port);
  }

  /** Before there was exactly one place more, and it was `addr`'s. */
  ghost predicate OneLess(before: Fleet, after: Fleet, addr: string) {
    multiset(before.List()) == multiset(after.List()) + multiset{addr}
  }

  /** Whoever is banned over the rotator, given up, blamed or forbidden loses exactly one
      place, and nobody else does. */
  lemma HeadLosesPlace(fleet: Fleet, answer: BootReply)
    requires fleet.Head().Some?
    ensures var head := fleet.Head().value;
            && OneLess(fleet, fleet.GiveUp(), head) && OneLess(fleet, fleet.Blame(), head)
            && (head != "" ==> OneLess(fleet, fleet.Forbid(), head))
            && (head != "" && answer.Forbids() ==> OneLess(fleet, fleet.Booted(Tunnel(head), answer), head))
  {
    var head := fleet.Head().value;
    BeheadedOne(fleet);
    StruckOne(fleet);
    SameList(fleet.Behead(), head);
    SameList(fleet.Strike(head), head);
    SameAround(fleet, head);
    hide WithDead, Fleet.List, Fleet.Strike, Fleet.Behead, Fleet.Blacklisted, Fleet.SmartDead;
  }

  lemma BeheadedOne(fleet: Fleet)
    requires fleet.Head().Some?
    ensures OneLess(fleet, fleet.Behead(), fleet.Head().value)
  {
    OneOut(fleet.ring.value.list, fleet.ring.value.index);
  }

  lemma StruckOne(fleet: Fleet)
    requires fleet.Head().Some?
    ensures OneLess(fleet, fleet.Strike(fleet.Head().value), fleet.Head().value)
  {
    var ring := fleet.ring.value;
    var i := FirstIndex(ring.list, fleet.Head().value);
    assert ring.list[..|ring.list|] == ring.list && ring.list[ring.index] in ring.list;
    OneOut(ring.list, i);
    hide FirstIndex;
  }

  lemma SameAround(fleet: Fleet, addr: string)
    ensures fleet.SmartDead(addr).Strike(addr) == fleet.Strike(addr).SmartDead(addr)
  {
    hide WithDead, Ring.Strike;
  }

  lemma SameList(fleet: Fleet, addr: string)
    ensures fleet.SmartDead(addr).List() == fleet.List() == fleet.Blacklisted(addr).List()
  {
  }

  lemma OneOut(list: seq<string>, k: nat)
    requires k < |list|
    ensures multiset(list) == multiset(list[..k] + list[k + 1..]) + multiset{list[k]}
  {
    assert list == list[..k] + [list[k]] + list[k + 1..];
  }

  lemma RouteShape(env: Env, fleet: Fleet)
    ensures RouteOf(env, fleet).Tunnel? ==>
      fleet.Head() == Some(RouteOf(env, fleet).addr) && RouteOf(env, fleet).addr != ""
    ensures fleet.proxies == [] ==>
      RouteOf(env, fleet)
      == if fleet.Head().Some? && env.Resolves(fleet.Head().value) then Tunnel(fleet.Head().value) else Direct
  {
  }
}
