// The pool of upstream servers: deduplication, the round-robin index, the dead list,
// and the loops that walk the pool once around.
module Pools {
  import opened Addresses
  import opened Blacklists
  import opened Sequences

  // ------------------------------------------------- duplicates, by dedup key

  ghost predicate HasKey(servers: seq<SSConfig>, key: string) {
    exists c :: c in servers && c.Key() == key
  }

  ghost predicate UniqueKeys(servers: seq<SSConfig>) {
    forall i, j :: 0 <= i < j < |servers| ==> servers[i].Key() != servers[j].Key()
  }

  /** The servers whose key does not occur earlier in the list, in order. */
  ghost function FirstOccurrences(servers: seq<SSConfig>): seq<SSConfig> {
    if servers == [] then []
    else
      var n := |servers| - 1;
      FirstOccurrences(servers[..n]) + if HasKey(servers[..n], servers[n].Key()) then [] else [servers[n]]
  }

  ghost function WithServer(servers: seq<SSConfig>, s: SSConfig): seq<SSConfig> {
    if HasKey(servers, s.Key()) then servers else servers + [s]
  }

  /** What `Add` makes of the list. */
  ghost function Offered(servers: seq<SSConfig>, filter: Verdicts, s: SSConfig): seq<SSConfig> {
    if filter.Blocks(s.Addr()) then servers else WithServer(servers, s)
  }

  /** However many addresses were blamed before: a server is added exactly when none of
      them, on whatever port, shares its IP, it was not blocked already, and its key is
      new. Otherwise the list stays as it is. */
  lemma AddedExactly(servers: seq<SSConfig>, v: Verdicts, blamed: seq<string>, s: SSConfig)
    ensures Offered(servers, WithAll(v, blamed), s)
            == if v.Blocks(s.Addr()) || HasKey(servers, s.Key())
                  || (exists a :: a in blamed && v.ipOf(a) != "" && v.ipOf(s.Addr()) == v.ipOf(a))
               then servers else servers + [s]
  {
    BlocksExactly(v, blamed, s.Addr());
    hide SSConfig.Addr, SSConfig.Key, Verdicts.Blocks, WithAll;
  }

  lemma {:induction false} FirstOccurrencesKeys(servers: seq<SSConfig>)
    ensures UniqueKeys(FirstOccurrences(servers))
    ensures forall key :: HasKey(FirstOccurrences(servers), key) <==> HasKey(servers, key)
    ensures forall c :: c in FirstOccurrences(servers) ==> c in servers
  {
    if servers != [] {
      var n := |servers| - 1;
      FirstOccurrencesKeys(servers[..n]);
      var kept := FirstOccurrences(servers[..n]);
      assert servers == servers[..n] + [servers[n]];
      forall key ensures HasKey(FirstOccurrences(servers), key) <==> HasKey(servers, key) {
        HasKeyAppend(servers[..n], servers[n], key);
        HasKeyAppend(kept, servers[n], key);
      }
      if !HasKey(servers[..n], servers[n].Key()) {
        UniqueAppend(kept, servers[n]);
      }
    }
  }

  lemma HasKeyAppend(servers: seq<SSConfig>, s: SSConfig, key: string)
    ensures HasKey(servers + [s], key) <==> HasKey(servers, key) || s.Key() == key
  {
    assert s in servers + [s];
    if HasKey(servers, key) {
      var c :| c in servers && c.Key() == key;
      assert c in servers + [s];
    }
  }

  lemma UniqueAppend(servers: seq<SSConfig>, s: SSConfig)
    requires UniqueKeys(servers)
    ensures UniqueKeys(WithServer(servers, s))
  {
    if !HasKey(servers, s.Key()) {
      forall i | 0 <= i < |servers| ensures servers[i].Key() != s.Key() {
        assert servers[i] in servers;
      }
    }
  }

  /** The one-step form in which every deduplicating loop uses it. */
  lemma FirstOccurrencesStep(servers: seq<SSConfig>, n: nat)
    requires n < |servers|
    ensures FirstOccurrences(servers[..n + 1]) == WithServer(FirstOccurrences(servers[..n]), servers[n])
    ensures HasKey(FirstOccurrences(servers[..n]), servers[n].Key()) <==> HasKey(servers[..n], servers[n].Key())
  {
    assert servers[..n + 1][..n] == servers[..n];
    FirstOccurrencesKeys(servers[..n]);
  }

  /** A duplicate-free list is its own deduplication, and only such a list is. */
  lemma {:induction false} UniqueIsFixed(servers: seq<SSConfig>)
    ensures UniqueKeys(servers) <==> FirstOccurrences(servers) == servers
  {
    hide SSConfig.Key;
    FirstOccurrencesKeys(servers);
    if UniqueKeys(servers) && servers != [] {
      var n := |servers| - 1;
      UniqueIsFixed(servers[..n]);
      assert !HasKey(servers[..n], servers[n].Key());
    }
  }

  /** What the servers of a list become when the blacklist filter is on. */
  ghost function Unblocked(servers: seq<SSConfig>, filter: Verdicts): seq<SSConfig> {
    if servers == [] then []
    else
      var n := |servers| - 1;
      Unblocked(servers[..n], filter) + if filter.Blocks(servers[n].Addr()) then [] else [servers[n]]
  }

  /** The servers not on the dead list, in order. */
  function Alive(servers: seq<SSConfig>, dead: set<string>): seq<SSConfig> {
    if servers == [] then []
    else
      var n := |servers| - 1;
      Alive(servers[..n], dead) + if servers[n].Addr() in dead then [] else [servers[n]]
  }

  lemma {:induction false} AliveShape(servers: seq<SSConfig>, dead: set<string>)
    ensures forall c :: c in Alive(servers, dead) <==> c in servers && c.Addr() !in dead
    ensures UniqueKeys(servers) ==> UniqueKeys(Alive(servers, dead))
  {
    if servers != [] {
      var n := |servers| - 1;
      AliveShape(servers[..n], dead);
      assert servers == servers[..n] + [servers[n]];
      if UniqueKeys(servers) {
        assert !HasKey(servers[..n], servers[n].Key());
        UniqueAppend(Alive(servers[..n], dead), servers[n]);
      }
    }
  }

  /** The server that an address leads to: the first with its host and port. */
  ghost function Living(dead: set<string>): SSConfig -> bool {
    (c: SSConfig) => c.Addr() !in dead
  }

  ghost function Passing(filter: Verdicts): SSConfig -> bool {
    (c: SSConfig) => !filter.Blocks(c.Addr())
  }

  lemma {:induction false} AliveIsFilter(servers: seq<SSConfig>, dead: set<string>)
    ensures IsFilter(Alive(servers, dead), servers, Living(dead))
  {
    var keep := Living(dead);
    hide IsFilter, SSConfig.Addr;
    if servers == [] {
      FilterNothing(keep);
    } else {
      var n := |servers| - 1;
      AliveIsFilter(servers[..n], dead);
      FilterStep(Alive(servers[..n], dead), servers[..n], keep, servers[n]);
      assert servers == servers[..n] + [servers[n]];
    }
  }

  lemma {:induction false} UnblockedIsFilter(servers: seq<SSConfig>, filter: Verdicts)
    ensures IsFilter(Unblocked(servers, filter), servers, Passing(filter))
  {
    var keep := Passing(filter);
    hide IsFilter, SSConfig.Addr, Verdicts.Blocks;
    if servers == [] {
      FilterNothing(keep);
    } else {
      var n := |servers| - 1;
      UnblockedIsFilter(servers[..n], filter);
      FilterStep(Unblocked(servers[..n], filter), servers[..n], keep, servers[n]);
      assert servers == servers[..n] + [servers[n]];
    }
  }

  /** The server at `i` is the first with its key. */
  ghost predicate FirstWithKey(servers: seq<SSConfig>, i: nat) {
    i < |servers| && forall j :: 0 <= j < i ==> servers[j].Key() != servers[i].Key()
  }

  ghost predicate IsFirst(servers: seq<SSConfig>, c: SSConfig) {
    exists i: nat :: FirstWithKey(servers, i) && servers[i] == c
  }

  /** Deduplication keeps, of every key, the first server and no other, in order. */
  lemma {:induction false} FirstOccurrencesExactly(servers: seq<SSConfig>)
    ensures IsSubsequence(FirstOccurrences(servers), servers)
    ensures forall c :: c in FirstOccurrences(servers) <==> IsFirst(servers, c)
  {
    hide IsSubsequence, IsFirst, HasKey, SSConfig.Key;
    if servers == [] {
      NoFirst();
      SubsequenceSelf(servers);
    } else {
      var n := |servers| - 1;
      var before, s := servers[..n], servers[n];
      FirstOccurrencesExactly(before);
      SubsequenceAppend(FirstOccurrences(before), before, s);
      assert servers == before + [s] && FirstOccurrences(before) + [] == FirstOccurrences(before);
      forall c ensures IsFirst(servers, c) <==> IsFirst(before, c) || (c == s && !HasKey(before, s.Key())) {
        IsFirstStep(servers, c);
      }
    }
  }

  lemma NoFirst()
    ensures forall c :: !IsFirst([], c)
  {
  }

  lemma IsFirstStep(servers: seq<SSConfig>, c: SSConfig)
    requires servers != []
    ensures var before, s := servers[..|servers| - 1], servers[|servers| - 1];
            IsFirst(servers, c) <==> IsFirst(before, c) || (c == s && !HasKey(before, s.Key()))
  {
    hide FirstWithKey, HasKey, SSConfig.Key;
    FirstWithKeyStep(servers);
    var n := |servers| - 1;
    if i: nat :| FirstWithKey(servers[..n], i) && servers[..n][i] == c {
      assert FirstWithKey(servers, i) && servers[i] == c;
    }
    if i: nat :| FirstWithKey(servers, i) && servers[i] == c {
      assert i < n ==> FirstWithKey(servers[..n], i) && servers[..n][i] == c;
    }
  }

  lemma FirstWithKeyStep(servers: seq<SSConfig>)
    requires servers != []
    ensures var n := |servers| - 1;
            && (FirstWithKey(servers, n) <==> !HasKey(servers[..n], servers[n].Key()))
            && (forall i: nat :: FirstWithKey(servers, i) ==> i < |servers|)
            && (forall i: nat :: FirstWithKey(servers[..n], i) ==> i < n)
            && (forall i: nat :: i < n ==> (FirstWithKey(servers, i) <==> FirstWithKey(servers[..n], i)))
  {
    hide SSConfig.Key;
    var n := |servers| - 1;
    assert forall j :: 0 <= j < n ==> servers[j] == servers[..n][j];
  }

  function Lookup(servers: seq<SSConfig>, host: string, port: GoInt): Option<SSConfig> {
    if servers == [] then None
    else if servers[0].server == host && servers[0].port == port then Some(servers[0])
    else Lookup(servers[1..], host, port)
  }

  function LookupAddr(servers: seq<SSConfig>, addr: string): Option<SSConfig> {
    match ParseAddr(addr)
    case None => None
    case Some((host, port)) => Lookup(servers, host, port)
  }

  /** Of several servers with one host and port the first is found. */
  lemma {:induction false} LookupFirst(servers: seq<SSConfig>, i: nat)
    requires i < |servers|
    requires forall j :: 0 <= j < i ==> servers[j].server != servers[i].server || servers[j].port != servers[i].port
    ensures Lookup(servers, servers[i].server, servers[i].port) == Some(servers[i])
  {
    if i > 0 {
      assert servers[1..][i - 1] == servers[i];
      assert forall j :: 0 <= j < i - 1 ==> servers[1..][j] == servers[j + 1];
      LookupFirst(servers[1..], i - 1);
    }
  }

  lemma {:induction false} LookupFinds(servers: seq<SSConfig>, host: string, port: GoInt)
    ensures Lookup(servers, host, port).Some?
            <==> exists c :: c in servers && c.server == host && c.port == port
    ensures var r := Lookup(servers, host, port);
            r.Some? ==> r.value in servers && r.value.server == host && r.value.port == port
  {
    if servers != [] {
      LookupFinds(servers[1..], host, port);
      assert servers == [servers[0]] + servers[1..];
    }
  }

  /** The address of a server in the pool leads back to a server with that very host
      and port, exactly when the host is plain; an IPv6 upstream is never found so. */
  lemma AddrFindsServer(servers: seq<SSConfig>, c: SSConfig)
    requires c in servers
    ensures (var r := LookupAddr(servers, c.Addr());
             r.Some? && r.value.server == c.server && r.value.port == c.port)
            <==> PlainHost(c.server)
  {
    AddrRoundTrip(c);
    match ParseAddr(c.Addr()) {
      case None =>
      case Some((host, port)) => LookupFinds(servers, host, port);
    }
  }

  /** What `Remove` makes of the list. */
  ghost function Without(servers: seq<SSConfig>, key: string): seq<SSConfig> {
    if servers == [] then []
    else if servers[0].Key() == key then servers[1..]
    else [servers[0]] + Without(servers[1..], key)
  }

  lemma {:induction false} WithoutAt(servers: seq<SSConfig>, key: string, i: nat)
    requires i <= |servers| && forall j :: 0 <= j < i ==> servers[j].Key() != key
    requires i < |servers| ==> servers[i].Key() == key
    ensures Without(servers, key) == if i < |servers| then servers[..i] + servers[i + 1..] else servers
  {
    hide SSConfig.Key;
    if i > 0 {
      var rest := servers[1..];
      WithoutAt(rest, key, i - 1);
      assert Without(servers, key) == [servers[0]] + Without(rest, key);
      hide Without;
      assert i < |servers| ==> [servers[0]] + (rest[..i - 1] + rest[i..]) == servers[..i] + servers[i + 1..];
      assert [servers[0]] + rest == servers;
    }
  }

  lemma {:induction false} WithoutShape(servers: seq<SSConfig>, key: string)
    ensures |Without(servers, key)| == if HasKey(servers, key) then |servers| - 1 else |servers|
    ensures forall c :: c in Without(servers, key) ==> c in servers
    ensures UniqueKeys(servers) ==> UniqueKeys(Without(servers, key)) && !HasKey(Without(servers, key), key)
  {
    hide SSConfig.Key;
    if servers != [] {
      var rest := servers[1..];
      WithoutShape(rest, key);
      assert servers == [servers[0]] + rest;
      assert HasKey(servers, key) <==> servers[0].Key() == key || HasKey(rest, key);
      assert UniqueKeys(servers) ==> UniqueKeys(rest) && !HasKey(rest, servers[0].Key());
    }
  }

  // -------------------------------------------------------------- the pool

  class SSPool {
    var servers: seq<SSConfig>
    var index: nat
    var deadAddrs: set<string>
    var filter: Blacklist?

    /** `Get` and `Rotate` never need their modulo. */
    ghost predicate Valid()
      reads this
    {
      index == 0 || index < |servers|
    }

    ghost function Filter(): Verdicts
      reads this, filter
    {
      if filter == null then NOBODY else filter.Now()
    }

    constructor ()
      ensures Valid() && servers == [] && index == 0 && deadAddrs == {} && filter == null
    {
      servers, index, deadAddrs, filter := [], 0, {}, null;
    }

    method Len() returns (n: nat)
      ensures n == |servers|
    {
      n := |servers|;
    }

    method Add(s: SSConfig)
      requires Valid()
      modifies this`servers
      ensures Valid() && Filter() == old(Filter())
      ensures servers == Offered(old(servers), Filter(), s)
      ensures old(UniqueKeys(servers)) ==> UniqueKeys(servers)
    {
      UniqueWhenAdded(servers, s);
      if filter != null {
        var blocked := filter.IsBlacklisted(s.Addr());
        if blocked {
          return;
        }
      }
      var i := 0;
      while i < |servers|
        invariant i <= |servers|
        invariant forall j :: 0 <= j < i ==> servers[j].Key() != s.Key()
        modifies {}
      {
        if servers[i].Key() == s.Key() {
          assert HasKey(servers, s.Key());
          return;
        }
        i := i + 1;
      }
      servers := servers + [s];
    }

    /** Takes out the first server with this key. Unlike the rotator's index, the
        pool's does not follow when an earlier server goes. */
    method Remove(key: string)
      requires Valid()
      modifies this`servers, this`index
      ensures Valid()
      ensures servers == Without(old(servers), key)
      ensures index == if old(index) < |servers| then old(index) else 0
      ensures old(UniqueKeys(servers)) ==> UniqueKeys(servers) && !HasKey(servers, key)
    {
      hide HasKey, UniqueKeys, SSConfig.Key, Without;
      WithoutShape(servers, key);
      var i := 0;
      while i < |servers| && servers[i].Key() != key
        invariant i <= |servers|
        invariant forall j :: 0 <= j < i ==> servers[j].Key() != key
        modifies {}
      {
        i := i + 1;
      }
      WithoutAt(servers, key, i);
      if i < |servers| {
        servers := servers[..i] + servers[i + 1..];
        if index >= |servers| && |servers| > 0 {
          assert index == |servers|;
          index := index % |servers|;
        }
      }
    }

    method ReplaceAll(list: seq<SSConfig>)
      modifies this`servers, this`index
      ensures Valid() && servers == list && index == 0
    {
      servers, index := list, 0;
    }

    method Get() returns (s: Option<SSConfig>)
      requires Valid()
      ensures s == if servers == [] then None else Some(servers[index])
    {
      if |servers| == 0 {
        return None;
      }
      return Some(servers[index % |servers|]);
    }

    method Next() returns (s: Option<SSConfig>)
      requires Valid()
      modifies this`index
      ensures Valid()
      ensures servers == [] ==> s == None && index == old(index)
      ensures servers != [] ==> s == Some(servers[index])
      ensures servers != [] ==> index == if old(index) == |servers| - 1 then 0 else old(index) + 1
    {
      if |servers| == 0 {
        return None;
      }
      index := (index + 1) % |servers|;
      return Some(servers[index]);
    }

    method Dedup()
      requires Valid()
      modifies this`servers, this`index
      ensures Valid()
      ensures servers == FirstOccurrences(old(servers))
      ensures index == if old(index) < |servers| || servers == [] then old(index) else old(index) % |servers|
    {
      hide HasKey, UniqueKeys, FirstOccurrences;
      var list := servers;
      var seen: set<string> := {};
      var unique := [];
      FirstOccurrencesNil();
      var i := 0;
      while i < |list|
        invariant i <= |list|
        invariant unique == FirstOccurrences(list[..i])
        invariant forall key :: key in seen <==> HasKey(list[..i], key)
        modifies {}
      {
        FirstOccurrencesStep(list, i);
        SeenStep(list, i);
        var k := list[i].Key();
        if k !in seen {
          seen := seen + {k};
          unique := unique + [list[i]];
        }
        i := i + 1;
      }
      assert list[..i] == list;
      servers := unique;
      if index >= |servers| && |servers| > 0 {
        index := index % |servers|;
      }
      NothingLost(list);
    }

    method GetByAddr(addr: string) returns (s: Option<SSConfig>)
      ensures s == LookupAddr(servers, addr)
    {
      var parts := SplitHostPort(addr);
      if parts.None? {
        return None;
      }
      var port := Atoi(parts.value.1);
      if port.None? {
        return None;
      }
      var i := 0;
      while i < |servers|
        invariant i <= |servers|
        invariant Lookup(servers, parts.value.0, port.value) == Lookup(servers[i..], parts.value.0, port.value)
      {
        if servers[i].server == parts.value.0 && servers[i].port == port.value {
          return Some(servers[i]);
        }
        i := i + 1;
      }
      return None;
    }

    method MarkDead(addr: string)
      modifies this`deadAddrs
      ensures deadAddrs == old(deadAddrs) + {addr}
    {
      deadAddrs := deadAddrs + {addr};
    }

    method SnapshotAlive() returns (alive: seq<SSConfig>)
      ensures alive == Alive(servers, deadAddrs)
    {
      alive := [];
      var i := 0;
      while i < |servers|
        invariant i <= |servers|
        invariant alive == Alive(servers[..i], deadAddrs)
      {
        assert servers[..i + 1][..i] == servers[..i];
        if servers[i].Addr() !in deadAddrs {
          alive := alive + [servers[i]];
        }
        i := i + 1;
      }
      assert servers[..i] == servers;
    }
  }

  lemma UniqueWhenAdded(servers: seq<SSConfig>, s: SSConfig)
    ensures UniqueKeys(servers) ==> UniqueKeys(WithServer(servers, s))
  {
    if UniqueKeys(servers) {
      UniqueAppend(servers, s);
    }
  }

  lemma FirstOccurrencesNil()
    ensures FirstOccurrences([]) == [] && forall key :: !HasKey([], key)
  {
  }

  lemma NothingLost(servers: seq<SSConfig>)
    ensures |FirstOccurrences(servers)| <= |servers|
    ensures FirstOccurrences(servers) == [] <==> servers == []
  {
  }

  lemma SeenStep(servers: seq<SSConfig>, i: nat)
    requires i < |servers|
    ensures forall key :: HasKey(servers[..i + 1], key) <==> HasKey(servers[..i], key) || key == servers[i].Key()
  {
    assert servers[..i + 1] == servers[..i] + [servers[i]];
    forall key ensures HasKey(servers[..i + 1], key) <==> HasKey(servers[..i], key) || key == servers[i].Key() {
      HasKeyAppend(servers[..i], servers[i], key);
    }
  }

  /** The loop of the fetcher, which keeps its own set of keys. */
  method FetchedServers(raw: seq<SSConfig>) returns (servers: seq<SSConfig>)
    ensures servers == FirstOccurrences(raw)
  {
    hide HasKey, UniqueKeys, FirstOccurrences;
    var seen: set<string> := {};
    servers := [];
    FirstOccurrencesNil();
    var i := 0;
    while i < |raw|
      invariant i <= |raw|
      invariant servers == FirstOccurrences(raw[..i])
      invariant forall key :: key in seen <==> HasKey(raw[..i], key)
    {
      FirstOccurrencesStep(raw, i);
      SeenStep(raw, i);
      var k := raw[i].Key();
      if k !in seen {
        seen := seen + {k};
        servers := servers + [raw[i]];
      }
      i := i + 1;
    }
    assert raw[..i] == raw;
  }

  /** Adding a list one by one deduplicates what the filter lets through. */
  method AddAll(pool: SSPool, list: seq<SSConfig>)
    requires pool.Valid() && UniqueKeys(pool.servers)
    modifies pool`servers
    ensures pool.Valid() && UniqueKeys(pool.servers)
    ensures pool.servers == FirstOccurrences(old(pool.servers) + Unblocked(list, pool.Filter()))
  {
    hide HasKey, UniqueKeys, FirstOccurrences;
    ghost var before, filter := pool.servers, pool.Filter();
    UniqueIsFixed(before);
    assert before + [] == before;
    var i := 0;
    while i < |list|
      invariant i <= |list|
      invariant pool.Valid() && UniqueKeys(pool.servers) && pool.Filter() == filter
      invariant pool.servers == FirstOccurrences(before + Unblocked(list[..i], filter))
      modifies pool`servers
    {
      AddOne(before, list, i, filter);
      pool.Add(list[i]);
      i := i + 1;
    }
    assert list[..i] == list;
  }

  lemma AddOne(before: seq<SSConfig>, list: seq<SSConfig>, i: nat, filter: Verdicts)
    requires i < |list|
    ensures var soFar := FirstOccurrences(before + Unblocked(list[..i], filter));
            FirstOccurrences(before + Unblocked(list[..i + 1], filter))
            == Offered(soFar, filter, list[i])
  {
    hide FirstOccurrences, WithServer, HasKey, SSConfig.Key;
    assert list[..i + 1][..i] == list[..i];
    var passed, s := Unblocked(list[..i], filter), list[i];
    if filter.Blocks(s.Addr()) {
      assert Unblocked(list[..i + 1], filter) == passed;
    } else {
      assert Unblocked(list[..i + 1], filter) == passed + [s];
      assert before + (passed + [s]) == before + passed + [s];
      StepAppend(before + passed, s);
    }
  }

  lemma StepAppend(servers: seq<SSConfig>, s: SSConfig)
    ensures FirstOccurrences(servers + [s]) == WithServer(FirstOccurrences(servers), s)
  {
    FirstOccurrencesStep(servers + [s], |servers|);
    assert (servers + [s])[..|servers|] == servers && (servers + [s])[..|servers| + 1] == servers + [s];
  }

  // ------------------------------------------------------- full-circle loops

  /** The line under which a server is saved. */
  function Uri(s: SSConfig): string {
    "ss://" + s.method_ + ":" + s.password + "@" + s.server + ":" + Decimal(s.port)
  }

  /** What such a line holds: the method up to the first colon, the address behind the
      last `@`, and the password between them, whatever it contains. */
  lemma UriHolds(s: SSConfig)
    requires ':' !in s.method_ && '@' !in s.server
    ensures var line := Uri(s);
            var at := AfterLast(line, '@');
            && |line| > 5 && line[..5] == "ss://"
            && var colon := 5 + IndexOf(line[5..], ':');
               && colon < at - 1 < |line|
               && line[5..colon] == s.method_ && line[colon + 1..at - 1] == s.password && line[at..] == s.Addr()
  {
    NoAtInDecimal(s.port);
    hide Decimal;
    assert Uri(s) == Line(s.method_, s.password, s.Addr());
    LineColon(s.method_, s.password, s.Addr());
    LineAt(s.method_, s.password, s.Addr());
    hide Uri, Line, SSConfig.Addr, IndexOf, AfterLast;
  }

  ghost function Line(m: string, p: string, a: string): string {
    "ss://" + m + ":" + p + "@" + a
  }

  lemma LineColon(m: string, p: string, a: string)
    requires ':' !in m
    ensures |Line(m, p, a)| == 7 + |m| + |p| + |a| && Line(m, p, a)[..5] == "ss://"
    ensures IndexOf(Line(m, p, a)[5..], ':') == |m| && Line(m, p, a)[5..5 + |m|] == m
  {
    var rest := p + "@" + a;
    IndexAfterPrefix(m, ':', rest);
    hide IndexOf;
    assert Line(m, p, a)[5..] == m + [':'] + rest;
  }

  lemma LineAt(m: string, p: string, a: string)
    requires '@' !in a
    ensures AfterLast(Line(m, p, a), '@') == 7 + |m| + |p| && Line(m, p, a)[7 + |m| + |p|..] == a
    ensures Line(m, p, a)[6 + |m|..6 + |m| + |p|] == p
  {
    var front := "ss://" + m + ":" + p;
    LastBeforeSuffix(front, '@', a);
    hide AfterLast;
    assert Line(m, p, a) == front + ['@'] + a;
  }

  lemma NoAtInDecimal(n: GoInt)
    ensures '@' !in Decimal(n)
  {
    DecimalRoundTrip(n);
  }

  /** The servers from the current one once around. */
  ghost function Circle(servers: seq<SSConfig>, index: nat): seq<SSConfig>
    requires index <= |servers|
  {
    servers[index..] + servers[..index]
  }

  lemma CircleAt(servers: seq<SSConfig>, index: nat, k: nat)
    requires index <= |servers| && k < |servers|
    ensures Circle(servers, index)[k] == servers[if index + k < |servers| then index + k else index + k - |servers|]
  {
  }

  /** Undisturbed, saving writes every server once, starting at the current one,
      and leaves the pool where it was. */
  method SavePool(pool: SSPool) returns (lines: seq<string>)
    requires pool.Valid()
    modifies pool`index
    ensures pool.index == old(pool.index)
    ensures |lines| == |pool.servers|
    ensures forall k :: 0 <= k < |lines| ==> lines[k] == Uri(Circle(pool.servers, pool.index)[k])
  {
    hide Uri;
    lines := [];
    ghost var start, n := pool.index, |pool.servers|;
    var i := 0;
    while i < |pool.servers|
      invariant i <= n == |pool.servers|
      invariant pool.Valid() && |lines| == i
      invariant pool.index == if n == 0 || start + i < n then start + i else start + i - n
      invariant forall k :: 0 <= k < i ==> lines[k] == Uri(Circle(pool.servers, start)[k])
      modifies pool`index
    {
      CircleAt(pool.servers, start, i);
      var s := pool.Get();
      if s.Some? {
        lines := lines + [Uri(s.value)];
        var _ := pool.Next();
      }
      i := i + 1;
    }
  }

  /** Emptying the pool one server at a time and refilling it. */
  method RebuildInPlace(pool: SSPool, alive: seq<SSConfig>)
    requires pool.Valid()
    modifies pool`servers, pool`index
    ensures pool.Valid() && pool.index == 0
    ensures pool.servers == FirstOccurrences(Unblocked(alive, pool.Filter()))
  {
    ghost var filter := pool.Filter();
    while |pool.servers| > 0
      invariant pool.Valid() && pool.Filter() == filter
      modifies pool`servers, pool`index
      decreases |pool.servers|
    {
      var s := pool.Get();
      if s.Some? {
        assert s.value in pool.servers;
        WithoutShape(pool.servers, s.value.Key());
        pool.Remove(s.value.Key());
      } else {
        break;
      }
    }
    assert [] + Unblocked(alive, filter) == Unblocked(alive, filter);
    AddAll(pool, alive);
  }
}
