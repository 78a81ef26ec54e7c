// The health loop, the refresh loop and the request handlers sharing the pool and
// the rotator. Every locked method is one step and the steps interleave freely.
module Background {
  import opened Addresses
  import opened Blacklists
  import opened Pools
  import opened Sequences
  import Rotation
  import HealthCheck

  function SSAddresses(configs: seq<SSConfig>): seq<string> {
    seq(|configs|, i requires 0 <= i < |configs| => configs[i].Addr())
  }

  // The health loop is a single goroutine, so at most one tick is in flight, in the
  // fast mode as well as in the original one; likewise the refresh loop.
  datatype HealthLoop = Sleeping | Checking(snapshot: seq<SSConfig>) | Replaced(alive: seq<SSConfig>)
  datatype RefreshLoop = Waiting | Adding(todo: seq<SSConfig>, added: nat) | Snapped(alive: seq<SSConfig>)

  /** `addresses` is the rotator's list. The last three fields are bookkeeping: the
      dead list as it was at the snapshot each loop is working on, and at the
      snapshot that fed the rotator last. */
  datatype System = System(
    servers: seq<SSConfig>, dead: set<string>, filter: Verdicts, addresses: seq<string>,
    health: HealthLoop, refresh: RefreshLoop,
    healthDead: set<string>, refreshDead: set<string>, fedDead: set<string>)

  datatype Step =
    | HealthSnapshot
    | HealthReplace(marks: seq<bool>)      // which dials succeeded
    | HealthUpdate
    | RefreshFetch(list: seq<SSConfig>)    // whatever the remote list says
    | RefreshAdd
    | RefreshSkip                          // the pool ran empty between Len and Get
    | RefreshGiveUp                        // nothing was added
    | RefreshSnapshot
    | RefreshUpdate
    | MarkDead(addr: string)               // by a request handler
    | DropAddress(k: nat)                  // Remove or RemoveCurrent, by a handler
    | Blacklist(ip: string)                // by a handler

  ghost predicate Enabled(s: System, step: Step) {
    match step
    case HealthSnapshot => s.health.Sleeping?
    case HealthReplace(marks) => s.health.Checking? && |marks| == |s.health.snapshot|
    case HealthUpdate => s.health.Replaced?
    case RefreshFetch(_) => s.refresh.Waiting?
    case RefreshAdd => s.refresh.Adding? && s.refresh.todo != []
    case RefreshSkip => s.refresh.Adding? && s.refresh.todo != [] && s.servers == []
    case RefreshGiveUp => s.refresh.Adding? && s.refresh.todo == [] && s.refresh.added == 0
    case RefreshSnapshot => s.refresh.Adding? && s.refresh.todo == [] && s.refresh.added > 0
    case RefreshUpdate => s.refresh.Snapped?
    case MarkDead(_) => true
    case DropAddress(k) => k < |s.addresses|
    case Blacklist(_) => true
  }

  ghost function Apply(s: System, step: Step): System
    requires Enabled(s, step)
  {
    match step
    case HealthSnapshot => s.(health := Checking(Alive(s.servers, s.dead)), healthDead := s.dead)
    case HealthReplace(marks) =>
      var alive := HealthCheck.Survivors(s.health.snapshot, marks);
      s.(servers := alive, health := Replaced(alive))
    case HealthUpdate =>
      s.(addresses := SSAddresses(s.health.alive), health := Sleeping, fedDead := s.healthDead)
    case RefreshFetch(list) => s.(refresh := Adding(list, 0))
    case RefreshAdd =>
      var c := s.refresh.todo[0];
      s.(servers := Offered(s.servers, s.filter, c),
         refresh := Adding(s.refresh.todo[1..], s.refresh.added + 1))
    case RefreshSkip => s.(refresh := Adding(s.refresh.todo[1..], s.refresh.added))
    case RefreshGiveUp => s.(refresh := Waiting)
    case RefreshSnapshot => s.(refresh := Snapped(Alive(s.servers, s.dead)), refreshDead := s.dead)
    case RefreshUpdate =>
      s.(addresses := SSAddresses(s.refresh.alive), refresh := Waiting, fedDead := s.refreshDead)
    case MarkDead(addr) => s.(dead := s.dead + {addr})
    case DropAddress(k) => s.(addresses := s.addresses[..k] + s.addresses[k + 1..])
    case Blacklist(ip) => s.(filter := s.filter.(entries := s.filter.entries + {ip}))
  }

  /** No server of the list is on this dead list. */
  ghost predicate Untainted(list: seq<SSConfig>, dead: set<string>) {
    forall c :: c in list ==> c.Addr() !in dead
  }

  ghost predicate Inv(s: System) {
    && UniqueKeys(s.servers)
    && s.healthDead <= s.dead && s.refreshDead <= s.dead && s.fedDead <= s.dead
    && (forall a :: a in s.addresses ==> a !in s.fedDead)
    && (s.health.Checking? ==> UniqueKeys(s.health.snapshot) && Untainted(s.health.snapshot, s.healthDead))
    && (s.health.Replaced? ==> Untainted(s.health.alive, s.healthDead))
    && (s.refresh.Snapped? ==> Untainted(s.refresh.alive, s.refreshDead))
  }

  /** After the startup check: the rotator holds the pool, nothing is dead yet. */
  ghost predicate Startup(s: System) {
    && UniqueKeys(s.servers) && s.addresses == SSAddresses(s.servers)
    && s.health.Sleeping? && s.refresh.Waiting?
    && s.dead == s.healthDead == s.refreshDead == s.fedDead == {}
  }

  lemma AddressOf(configs: seq<SSConfig>, addr: string)
    ensures addr in SSAddresses(configs) <==> exists c :: c in configs && c.Addr() == addr
  {
    if addr in SSAddresses(configs) {
      var i :| 0 <= i < |configs| && SSAddresses(configs)[i] == addr;
      assert configs[i] in configs;
    }
    if c :| c in configs && c.Addr() == addr {
      var i :| 0 <= i < |configs| && configs[i] == c;
      assert SSAddresses(configs)[i] == addr;
    }
  }

  lemma UntaintedAddresses(configs: seq<SSConfig>, dead: set<string>)
    requires Untainted(configs, dead)
    ensures forall a :: a in SSAddresses(configs) ==> a !in dead
  {
    forall a | a in SSAddresses(configs) ensures a !in dead {
      AddressOf(configs, a);
    }
  }

  lemma {:induction false} SurvivorsShape(servers: seq<SSConfig>, marks: seq<bool>)
    requires |marks| == |servers|
    ensures forall c :: c in HealthCheck.Survivors(servers, marks) ==> c in servers
    ensures UniqueKeys(servers) ==> UniqueKeys(HealthCheck.Survivors(servers, marks))
  {
    hide SSConfig.Key;
    if servers != [] {
      var n := |servers| - 1;
      SurvivorsShape(servers[..n], marks[..n]);
      var alive := HealthCheck.Survivors(servers[..n], marks[..n]);
      assert servers == servers[..n] + [servers[n]];
      if UniqueKeys(servers) && marks[n] {
        assert !HasKey(alive, servers[n].Key());
        UniqueAppend(alive, servers[n]);
      }
    }
  }

  lemma StepInv(s: System, step: Step)
    requires Inv(s) && Enabled(s, step)
    ensures Inv(Apply(s, step))
    ensures s.dead <= Apply(s, step).dead
  {
    hide UniqueKeys, SSAddresses, Alive, HealthCheck.Survivors, WithServer, SSConfig.Addr;
    match step
    case HealthSnapshot => AliveShape(s.servers, s.dead);
    case HealthReplace(marks) => SurvivorsShape(s.health.snapshot, marks);
    case HealthUpdate => UntaintedAddresses(s.health.alive, s.healthDead);
    case RefreshAdd => UniqueWhenAdded(s.servers, s.refresh.todo[0]);
    case RefreshSnapshot => AliveShape(s.servers, s.dead);
    case RefreshUpdate => UntaintedAddresses(s.refresh.alive, s.refreshDead);
    case _ =>
  }

  ghost predicate Runs(s: System, steps: seq<Step>)
    decreases |steps|
  {
    steps == [] || (Enabled(s, steps[0]) && Runs(Apply(s, steps[0]), steps[1..]))
  }

  ghost function Final(s: System, steps: seq<Step>): System
    requires Runs(s, steps)
    decreases |steps|
  {
    if steps == [] then s else Final(Apply(s, steps[0]), steps[1..])
  }

  lemma {:induction false} RunInv(s: System, steps: seq<Step>)
    requires Inv(s) && Runs(s, steps)
    ensures Inv(Final(s, steps)) && s.dead <= Final(s, steps).dead
    decreases |steps|
  {
    if steps != [] {
      StepInv(s, steps[0]);
      hide Inv;
      RunInv(Apply(s, steps[0]), steps[1..]);
    }
  }

  /** From startup, in every interleaving: pool keys stay unique, and no rotator
      address was dead at the snapshot that fed the rotator last. */
  lemma FedFromFreshSnapshot(s: System, steps: seq<Step>)
    requires Startup(s) && Runs(s, steps)
    ensures var t := Final(s, steps);
            && UniqueKeys(t.servers)
            && forall a :: a in t.addresses ==> a !in t.fedDead
  {
    RunInv(s, steps);
  }

  // ------------------------------------------------------ bounded staleness

  ghost predicate Carries(list: seq<SSConfig>, addr: string) {
    exists c :: c in list && c.Addr() == addr
  }

  ghost predicate HealthHolds(s: System, addr: string) {
    match s.health
    case Sleeping => false
    case Checking(list) => Carries(list, addr)
    case Replaced(list) => Carries(list, addr)
  }

  ghost predicate RefreshHolds(s: System, addr: string) {
    s.refresh.Snapped? && Carries(s.refresh.alive, addr)
  }

  /** How many health updates of the run put `addr` into the rotator. */
  ghost function HealthCarried(s: System, steps: seq<Step>, addr: string): nat
    requires Runs(s, steps)
    decreases |steps|
  {
    if steps == [] then 0
    else (if steps[0].HealthUpdate? && HealthHolds(s, addr) then 1 else 0)
         + HealthCarried(Apply(s, steps[0]), steps[1..], addr)
  }

  ghost function RefreshCarried(s: System, steps: seq<Step>, addr: string): nat
    requires Runs(s, steps)
    decreases |steps|
  {
    if steps == [] then 0
    else (if steps[0].RefreshUpdate? && RefreshHolds(s, addr) then 1 else 0)
         + RefreshCarried(Apply(s, steps[0]), steps[1..], addr)
  }

  /** Once dead, an address is picked up by no later snapshot. */
  lemma DeadNotPickedUp(s: System, step: Step, addr: string)
    requires Inv(s) && Enabled(s, step) && addr in s.dead
    ensures var t := Apply(s, step);
            && (HealthHolds(t, addr) ==> HealthHolds(s, addr) && !step.HealthUpdate?)
            && (RefreshHolds(t, addr) ==> RefreshHolds(s, addr) && !step.RefreshUpdate?)
            && (addr in t.addresses ==>
                  addr in s.addresses
                  || (step.HealthUpdate? && HealthHolds(s, addr))
                  || (step.RefreshUpdate? && RefreshHolds(s, addr)))
  {
    hide UniqueKeys, SSAddresses, Alive, HealthCheck.Survivors, WithServer, SSConfig.Addr;
    match step
    case HealthSnapshot => AliveShape(s.servers, s.dead);
    case HealthReplace(marks) => SurvivorsShape(s.health.snapshot, marks);
    case HealthUpdate => AddressOf(s.health.alive, addr);
    case RefreshSnapshot => AliveShape(s.servers, s.dead);
    case RefreshUpdate => AddressOf(s.refresh.alive, addr);
    case _ =>
  }

  /** After an address is marked dead, at most one health update and at most one
      refresh update can still carry it, and only one that was already under way. */
  lemma {:induction false} BoundedStaleness(s: System, steps: seq<Step>, addr: string)
    requires Inv(s) && Runs(s, steps) && addr in s.dead
    ensures HealthCarried(s, steps, addr) <= if HealthHolds(s, addr) then 1 else 0
    ensures RefreshCarried(s, steps, addr) <= if RefreshHolds(s, addr) then 1 else 0
    decreases |steps|
  {
    if steps != [] {
      StepInv(s, steps[0]);
      DeadNotPickedUp(s, steps[0], addr);
      hide Inv, HealthHolds, RefreshHolds, Enabled;
      BoundedStaleness(Apply(s, steps[0]), steps[1..], addr);
    }
  }

  /** How often the run brings an absent address back into the rotator. */
  ghost function Returns(s: System, steps: seq<Step>, addr: string): nat
    requires Runs(s, steps)
    decreases |steps|
  {
    if steps == [] then 0
    else (if addr !in s.addresses && addr in Apply(s, steps[0]).addresses then 1 else 0)
         + Returns(Apply(s, steps[0]), steps[1..], addr)
  }

  lemma {:induction false} ReturnsAreCarried(s: System, steps: seq<Step>, addr: string)
    requires Inv(s) && Runs(s, steps) && addr in s.dead
    ensures Returns(s, steps, addr) <= HealthCarried(s, steps, addr) + RefreshCarried(s, steps, addr)
    ensures addr in Final(s, steps).addresses ==>
      addr in s.addresses || HealthCarried(s, steps, addr) + RefreshCarried(s, steps, addr) > 0
    decreases |steps|
  {
    if steps != [] {
      StepInv(s, steps[0]);
      DeadNotPickedUp(s, steps[0], addr);
      hide Inv, HealthHolds, RefreshHolds;
      ReturnsAreCarried(Apply(s, steps[0]), steps[1..], addr);
    }
  }

  /** From startup: an address that some handler marks dead comes back into the
      rotator at most twice, and never once both loops have started afresh. */
  lemma DeadComesBackAtMostTwice(s: System, before: seq<Step>, after: seq<Step>, addr: string)
    requires Startup(s) && Runs(s, before) && addr in Final(s, before).dead
    requires Runs(Final(s, before), after)
    ensures var t := Final(s, before);
            && Returns(t, after, addr) <= 2
            && (!HealthHolds(t, addr) && !RefreshHolds(t, addr) && addr !in t.addresses ==>
                  addr !in Final(t, after).addresses)
  {
    RunInv(s, before);
    hide Inv;
    BoundedStaleness(Final(s, before), after, addr);
    ReturnsAreCarried(Final(s, before), after, addr);
  }

  /** All marks set: every dial of the check succeeds. */
  ghost function AllUp(n: nat): seq<bool> {
    seq(n, _ => true)
  }

  /** A run that puts `addr` back, if some loop still holds it. */
  ghost function Revival(t: System, addr: string): seq<Step>
    requires addr in t.addresses || HealthHolds(t, addr) || RefreshHolds(t, addr)
  {
    if addr in t.addresses then []
    else if RefreshHolds(t, addr) then [RefreshUpdate]
    else if t.health.Replaced? then [HealthUpdate]
    else [HealthReplace(AllUp(|t.health.snapshot|)), HealthUpdate]
  }

  lemma RevivalRevives(t: System, addr: string)
    requires addr in t.addresses || HealthHolds(t, addr) || RefreshHolds(t, addr)
    ensures Runs(t, Revival(t, addr)) && addr in Final(t, Revival(t, addr)).addresses
  {
    hide SSAddresses, SSConfig.Addr;
    if addr in t.addresses {
    } else if RefreshHolds(t, addr) {
      AddressOf(t.refresh.alive, addr);
      RunCons(t, RefreshUpdate, []);
    } else {
      var s, replace := t, [];
      if t.health.Checking? {
        var marks := AllUp(|t.health.snapshot|);
        HealthCheck.AllSurvive(t.health.snapshot, marks);
        s, replace := Apply(t, HealthReplace(marks)), [HealthReplace(marks)];
      }
      AddressOf(s.health.alive, addr);
      RunCons(s, HealthUpdate, []);
      if t.health.Checking? {
        RunCons(t, replace[0], [HealthUpdate]);
      }
    }
  }

  /** A dead address can be in the rotator in some continuation if and only if it
      still is, or one of the loops holds it. */
  lemma ReturnsExactly(t: System, addr: string)
    requires Inv(t) && addr in t.dead
    ensures (exists after :: Runs(t, after) && addr in Final(t, after).addresses)
            <==> addr in t.addresses || HealthHolds(t, addr) || RefreshHolds(t, addr)
  {
    if addr in t.addresses || HealthHolds(t, addr) || RefreshHolds(t, addr) {
      RevivalRevives(t, addr);
    } else if after :| Runs(t, after) && addr in Final(t, after).addresses {
      hide Inv;
      BoundedStaleness(t, after, addr);
      ReturnsAreCarried(t, after, addr);
      assert false;
    }
  }

  // ------------------------------------------------------- what does go wrong

  /** A health tick under way brings a dropped dead address back. */
  lemma StaleUpdateRevives(s: System, c: SSConfig)
    requires Startup(s) && s.servers == [c]
    ensures var steps := [HealthSnapshot, MarkDead(c.Addr()), DropAddress(0), HealthReplace([true]), HealthUpdate];
            && Runs(s, steps)
            && c.Addr() in Final(s, steps).dead && Final(s, steps).addresses == [c.Addr()]
  {
    assert Alive(s.servers[..0], s.dead) == [];
    assert Alive(s.servers, s.dead) == [c];
    var s1 := Apply(s, HealthSnapshot);
    var s2 := Apply(s1, MarkDead(c.Addr()));
    var s3 := Apply(s2, DropAddress(0));
    assert HealthCheck.Survivors([c][..0], [true][..0]) == [];
    assert HealthCheck.Survivors([c], [true]) == [c];
    var s4 := Apply(s3, HealthReplace([true]));
    var s5 := Apply(s4, HealthUpdate);
    assert s5.addresses == [c.Addr()] && c.Addr() in s5.dead;
    RunCons(s4, HealthUpdate, []);
    RunCons(s3, HealthReplace([true]), [HealthUpdate]);
    RunCons(s2, DropAddress(0), [HealthReplace([true]), HealthUpdate]);
    RunCons(s1, MarkDead(c.Addr()), [DropAddress(0), HealthReplace([true]), HealthUpdate]);
    RunCons(s, HealthSnapshot, [MarkDead(c.Addr()), DropAddress(0), HealthReplace([true]), HealthUpdate]);
  }

  /** The bound of two is met: here both loops hold an address when it is marked dead,
      and each of them brings it back once. */
  lemma ReturnsTwice(s: System, c: SSConfig)
    requires Startup(s) && s.servers == [c]
    ensures var before := [HealthSnapshot, RefreshFetch([c]), RefreshAdd, RefreshSnapshot, MarkDead(c.Addr())];
            var after := [DropAddress(0), HealthReplace([true]), HealthUpdate, DropAddress(0), RefreshUpdate];
            && Runs(s, before) && c.Addr() in Final(s, before).dead
            && Runs(Final(s, before), after) && Returns(Final(s, before), after, c.Addr()) == 2
  {
    hide SSConfig.Addr, SSConfig.Key, Alive, WithServer, Offered;
    var t := BothHold(s, c);
    var addr := c.Addr();
    assert HealthCheck.Survivors([c][..0], [true][..0]) == [];
    assert HealthCheck.Survivors([c], [true]) == [c];
    assert SSAddresses([c]) == [addr];
    hide SSAddresses, HealthCheck.Survivors;
    var t1 := t.(addresses := []);
    var t2 := t1.(servers := [c], health := Replaced([c]));
    var t3 := t2.(addresses := [addr], health := Sleeping, fedDead := t.healthDead);
    var t4 := t3.(addresses := []);
    ReturnsCons(t4, RefreshUpdate, [], addr);
    ReturnsCons(t3, DropAddress(0), [RefreshUpdate], addr);
    ReturnsCons(t2, HealthUpdate, [DropAddress(0), RefreshUpdate], addr);
    ReturnsCons(t1, HealthReplace([true]), [HealthUpdate, DropAddress(0), RefreshUpdate], addr);
    ReturnsCons(t, DropAddress(0), [HealthReplace([true]), HealthUpdate, DropAddress(0), RefreshUpdate], addr);
  }

  /** The first half of that run. */
  lemma BothHold(s: System, c: SSConfig) returns (t: System)
    requires Startup(s) && s.servers == [c]
    ensures var before := [HealthSnapshot, RefreshFetch([c]), RefreshAdd, RefreshSnapshot, MarkDead(c.Addr())];
            Runs(s, before) && Final(s, before) == t
    ensures t == s.(health := Checking([c]), refresh := Snapped([c]), dead := {c.Addr()})
    ensures t.addresses == [c.Addr()]
  {
    assert Alive([c][..0], {}) == [];
    assert Alive([c], {}) == [c];
    assert WithServer([c], c) == [c];
    hide Alive, WithServer, SSConfig.Addr, SSConfig.Key, Verdicts.Blocks;
    var s1 := s.(health := Checking([c]));
    var s2 := s1.(refresh := Adding([c], 0));
    var s3 := s1.(refresh := Adding([], 1));
    var s4 := s1.(refresh := Snapped([c]));
    t := s4.(dead := {c.Addr()});
    RunCons(s4, MarkDead(c.Addr()), []);
    RunCons(s3, RefreshSnapshot, [MarkDead(c.Addr())]);
    RunCons(s2, RefreshAdd, [RefreshSnapshot, MarkDead(c.Addr())]);
    RunCons(s1, RefreshFetch([c]), [RefreshAdd, RefreshSnapshot, MarkDead(c.Addr())]);
    RunCons(s, HealthSnapshot, [RefreshFetch([c]), RefreshAdd, RefreshSnapshot, MarkDead(c.Addr())]);
  }

  lemma ReturnsCons(s: System, step: Step, rest: seq<Step>, addr: string)
    requires Enabled(s, step) && Runs(Apply(s, step), rest)
    ensures Runs(s, [step] + rest)
    ensures Returns(s, [step] + rest, addr)
            == (if addr !in s.addresses && addr in Apply(s, step).addresses then 1 else 0)
               + Returns(Apply(s, step), rest, addr)
  {
    assert ([step] + rest)[1..] == rest;
  }

  lemma RunCons(s: System, step: Step, rest: seq<Step>)
    requires Enabled(s, step) && Runs(Apply(s, step), rest)
    ensures Runs(s, [step] + rest) && Final(s, [step] + rest) == Final(Apply(s, step), rest)
  {
    assert ([step] + rest)[1..] == rest;
  }

  /** A server fetched while a health tick is under way is lost when it replaces the
      pool: afterwards the pool holds exactly what the old snapshot had to offer. */
  lemma ReplaceForgets(s: System, marks: seq<bool>, c: SSConfig)
    requires Inv(s) && s.health.Checking? && |marks| == |s.health.snapshot|
    requires c in s.servers
    ensures c in Apply(s, HealthReplace(marks)).servers
            <==> exists i :: 0 <= i < |marks| && s.health.snapshot[i] == c && marks[i]
  {
    SurvivorsExactly(s.health.snapshot, marks, c);
  }

  lemma {:induction false} SurvivorsExactly(servers: seq<SSConfig>, marks: seq<bool>, c: SSConfig)
    requires |marks| == |servers|
    ensures c in HealthCheck.Survivors(servers, marks) <==> exists i :: 0 <= i < |marks| && servers[i] == c && marks[i]
  {
    if servers != [] {
      var n := |servers| - 1;
      SurvivorsExactly(servers[..n], marks[..n], c);
      if i :| 0 <= i < n && servers[i] == c && marks[i] {
        assert servers[..n][i] == c && marks[..n][i];
      }
      if c in HealthCheck.Survivors(servers[..n], marks[..n]) {
        var i :| 0 <= i < n && servers[..n][i] == c && marks[..n][i];
        assert servers[i] == c && marks[i];
      }
    }
  }

  // ------------------------------------------------------- one tick by itself

  method AddressList(configs: seq<SSConfig>) returns (addrs: seq<string>)
    ensures addrs == SSAddresses(configs)
  {
    addrs := [];
    var i := 0;
    while i < |configs|
      invariant i <= |configs|
      invariant addrs == SSAddresses(configs[..i])
    {
      addrs := addrs + [configs[i].Addr()];
      i := i + 1;
    }
    assert configs[..i] == configs;
  }

  /** A health tick that nobody interferes with. `dials` is what the workers report for
      the snapshot. Of the old servers it keeps those that are not dead and answer, in
      order, and their addresses make up the rotator's list. */
  method HealthTick(pool: SSPool, rotator: Rotation.Rotator, dials: SSConfig -> bool)
    requires pool.Valid() && rotator.Valid()
    modifies pool`servers, pool`index, rotator
    ensures pool.Valid() && rotator.Valid()
    ensures pool.servers == Answering(Alive(old(pool.servers), pool.deadAddrs), dials)
    ensures IsFilter(pool.servers, old(pool.servers), LivingAnswering(pool.deadAddrs, dials))
    ensures forall c :: c in pool.servers <==> c in old(pool.servers) && c.Addr() !in pool.deadAddrs && dials(c)
    ensures rotator.Cycle() == SSAddresses(pool.servers)
    ensures |rotator.pool| == |pool.servers|
    ensures forall i :: 0 <= i < |rotator.pool| ==>
      rotator.pool[i] == pool.servers[i].server + ":" + Decimal(pool.servers[i].port)
    ensures forall a :: a in rotator.pool ==> a !in pool.deadAddrs
  {
    hide *;
    ghost var before := pool.servers;
    var snapshot := pool.SnapshotAlive();
    var marks := seq(|snapshot|, i requires 0 <= i < |snapshot| => dials(snapshot[i]));
    var alive := HealthCheck.Collect(snapshot, marks);
    TickShape(before, pool.deadAddrs, dials, marks);
    pool.ReplaceAll(alive);
    var addrs := AddressList(alive);
    rotator.Update(addrs);
  }

  /** A refresh tick that nobody interferes with; `fetched` is the remote list, if it
      could be had. */
  method RefreshTick(pool: SSPool, rotator: Rotation.Rotator, fetched: Option<seq<SSConfig>>)
    requires pool.Valid() && UniqueKeys(pool.servers) && rotator.Valid()
    modifies pool`servers, rotator
    ensures pool.Valid() && UniqueKeys(pool.servers) && rotator.Valid()
    ensures fetched.None? || fetched.value == [] ==>
      pool.servers == old(pool.servers) && rotator.Cycle() == old(rotator.Cycle())
    ensures fetched.Some? && fetched.value != [] ==>
      && pool.servers == FirstOccurrences(old(pool.servers) + Unblocked(fetched.value, pool.Filter()))
      && rotator.Cycle() == SSAddresses(Alive(pool.servers, pool.deadAddrs))
  {
    hide *;
    if fetched.None? {
      return;
    }
    var newServers := fetched.value;
    ghost var before, filter := pool.servers, pool.Filter();
    NothingAdded(before, newServers, filter);
    var added, i := 0, 0;
    while i < |newServers|
      invariant i <= |newServers| && added == i
      invariant pool.Valid() && UniqueKeys(pool.servers) && pool.Filter() == filter
      invariant pool.servers == FirstOccurrences(before + Unblocked(newServers[..i], filter))
      modifies pool`servers
    {
      var n := pool.Len();
      var s := pool.Get();
      if n == 0 || s.Some? {
        AddOne(before, newServers, i, filter);
        pool.Add(newServers[i]);
        added := added + 1;
      }
      i := i + 1;
    }
    assert newServers[..i] == newServers;
    if added > 0 {
      var alive := pool.SnapshotAlive();
      var addrs := AddressList(alive);
      rotator.Update(addrs);
    }
  }

  lemma NothingAdded(before: seq<SSConfig>, list: seq<SSConfig>, filter: Verdicts)
    requires UniqueKeys(before)
    ensures FirstOccurrences(before + Unblocked(list[..0], filter)) == before
  {
    UniqueIsFixed(before);
    assert before + Unblocked(list[..0], filter) == before;
  }

  lemma TickShape(servers: seq<SSConfig>, dead: set<string>, dials: SSConfig -> bool, marks: seq<bool>)
    requires |marks| == |Alive(servers, dead)|
    requires forall i :: 0 <= i < |marks| ==> marks[i] == dials(Alive(servers, dead)[i])
    ensures var alive := HealthCheck.Survivors(Alive(servers, dead), marks);
            && alive == Answering(Alive(servers, dead), dials)
            && IsFilter(alive, servers, LivingAnswering(dead, dials))
            && (forall c :: c in alive <==> c in servers && c.Addr() !in dead && dials(c))
            && |SSAddresses(alive)| == |alive|
            && (forall i :: 0 <= i < |alive| ==>
                  SSAddresses(alive)[i] == alive[i].server + ":" + Decimal(alive[i].port))
            && (forall a :: a in SSAddresses(alive) ==> a !in dead)
  {
    TickIsFilter(servers, dead, dials);
    var snapshot := Alive(servers, dead);
    assert marks == seq(|snapshot|, i requires 0 <= i < |snapshot| => dials(snapshot[i]));
    var alive := HealthCheck.Survivors(snapshot, marks);
    hide IsFilter, Decimal, HealthCheck.Survivors, Alive;
    assert Untainted(alive, dead);
    UntaintedAddresses(alive, dead);
  }

  // ------------------------------------- a tick by itself is a run of its steps

  /** The steps of an undisturbed health tick leave what `HealthTick` leaves. */
  lemma HealthRun(s: System, dials: SSConfig -> bool)
    requires s.health.Sleeping?
    ensures var snapshot := Alive(s.servers, s.dead);
            var marks := seq(|snapshot|, i requires 0 <= i < |snapshot| => dials(snapshot[i]));
            var steps := [HealthSnapshot, HealthReplace(marks), HealthUpdate];
            && Runs(s, steps)
            && Final(s, steps).servers == Answering(snapshot, dials)
            && Final(s, steps).addresses == SSAddresses(Answering(snapshot, dials))
            && Final(s, steps).dead == s.dead && Final(s, steps).filter == s.filter
  {
    var snapshot := Alive(s.servers, s.dead);
    var marks := seq(|snapshot|, i requires 0 <= i < |snapshot| => dials(snapshot[i]));
    hide Alive, SSAddresses, HealthCheck.Survivors;
    var s1 := Apply(s, HealthSnapshot);
    var s2 := Apply(s1, HealthReplace(marks));
    RunCons(s2, HealthUpdate, []);
    RunCons(s1, HealthReplace(marks), [HealthUpdate]);
    RunCons(s, HealthSnapshot, [HealthReplace(marks), HealthUpdate]);
  }

  ghost function Adds(n: nat, after: seq<Step>): seq<Step> {
    if n == 0 then after else [RefreshAdd] + Adds(n - 1, after)
  }

  /** The steps of an undisturbed refresh tick leave what `RefreshTick` leaves: every
      fetched server that is not blacklisted arrives, unless its key was known. */
  lemma RefreshRun(s: System, list: seq<SSConfig>)
    requires s.refresh.Waiting? && list != [] && UniqueKeys(s.servers)
    ensures var steps := [RefreshFetch(list)] + Adds(|list|, [RefreshSnapshot, RefreshUpdate]);
            && Runs(s, steps)
            && Final(s, steps).servers == FirstOccurrences(s.servers + Unblocked(list, s.filter))
            && Final(s, steps).addresses == SSAddresses(Alive(Final(s, steps).servers, s.dead))
            && Final(s, steps).dead == s.dead && Final(s, steps).filter == s.filter
    ensures forall c :: c in list && !s.filter.Blocks(c.Addr()) ==>
              HasKey(FirstOccurrences(s.servers + Unblocked(list, s.filter)), c.Key())
  {
    hide FirstOccurrences, Unblocked, UniqueKeys, Alive, SSAddresses, WithServer;
    hide SSConfig.Key, SSConfig.Addr, Verdicts.Blocks;
    var s1 := Apply(s, RefreshFetch(list));
    NothingAdded(s.servers, list, s.filter);
    assert list[0..] == list;
    AddsRun(s1, s.servers, list, 0);
    RunCons(s, RefreshFetch(list), Adds(|list|, [RefreshSnapshot, RefreshUpdate]));
    FetchedArrives(s.servers, list, s.filter);
  }

  lemma FetchedArrives(servers: seq<SSConfig>, list: seq<SSConfig>, filter: Verdicts)
    ensures forall c :: c in list && !filter.Blocks(c.Addr()) ==>
              HasKey(FirstOccurrences(servers + Unblocked(list, filter)), c.Key())
  {
    FirstOccurrencesKeys(servers + Unblocked(list, filter));
    UnblockedIsFilter(list, filter);
    FilterMembers(Unblocked(list, filter), list, Passing(filter));
    hide IsFilter, FirstOccurrences, Unblocked, UniqueKeys, SSConfig.Key, SSConfig.Addr, Verdicts.Blocks;
    forall c | c in list && !filter.Blocks(c.Addr())
      ensures HasKey(FirstOccurrences(servers + Unblocked(list, filter)), c.Key())
    {
      assert Passing(filter)(c) && c in servers + Unblocked(list, filter);
    }
  }

  lemma {:induction false} AddsRun(s: System, before: seq<SSConfig>, list: seq<SSConfig>, i: nat)
    requires i <= |list| && list != [] && s.refresh == Adding(list[i..], i)
    requires s.servers == FirstOccurrences(before + Unblocked(list[..i], s.filter))
    ensures var steps := Adds(|list| - i, [RefreshSnapshot, RefreshUpdate]);
            && Runs(s, steps)
            && Final(s, steps).servers == FirstOccurrences(before + Unblocked(list, s.filter))
            && Final(s, steps).addresses == SSAddresses(Alive(Final(s, steps).servers, s.dead))
            && Final(s, steps).dead == s.dead && Final(s, steps).filter == s.filter
    decreases |list| - i
  {
    hide FirstOccurrences, Unblocked, Alive, SSAddresses, SSConfig.Addr, SSConfig.Key, Verdicts.Blocks, WithServer;
    if i == |list| {
      assert list[..i] == list && list[i..] == [];
      var s1 := Apply(s, RefreshSnapshot);
      RunCons(s1, RefreshUpdate, []);
      RunCons(s, RefreshSnapshot, [RefreshUpdate]);
      assert [RefreshSnapshot] + [RefreshUpdate] == [RefreshSnapshot, RefreshUpdate];
    } else {
      AddOne(before, list, i, s.filter);
      assert list[i..][0] == list[i] && list[i..][1..] == list[i + 1..];
      var s1 := Apply(s, RefreshAdd);
      AddsRun(s1, before, list, i + 1);
      RunCons(s, RefreshAdd, Adds(|list| - i - 1, [RefreshSnapshot, RefreshUpdate]));
    }
  }

  ghost function LivingAnswering(dead: set<string>, dials: SSConfig -> bool): SSConfig -> bool {
    (c: SSConfig) => c.Addr() !in dead && dials(c)
  }

  lemma TickIsFilter(servers: seq<SSConfig>, dead: set<string>, dials: SSConfig -> bool)
    ensures IsFilter(Answering(Alive(servers, dead), dials), servers, LivingAnswering(dead, dials))
    ensures forall c :: c in Answering(Alive(servers, dead), dials) <==> c in servers && c.Addr() !in dead && dials(c)
  {
    AliveIsFilter(servers, dead);
    AnsweringIsFilter(Alive(servers, dead), dials);
    hide IsFilter, Alive, Answering, SSConfig.Addr;
    FilterTwice(Answering(Alive(servers, dead), dials), Alive(servers, dead), servers,
                Living(dead), dials, LivingAnswering(dead, dials));
    FilterMembers(Answering(Alive(servers, dead), dials), servers, LivingAnswering(dead, dials));
  }

  lemma {:induction false} AnsweringIsFilter(servers: seq<SSConfig>, dials: SSConfig -> bool)
    ensures IsFilter(Answering(servers, dials), servers, dials)
  {
    hide IsFilter;
    if servers == [] {
      FilterNothing(dials);
    } else {
      var n := |servers| - 1;
      AnsweringIsFilter(servers[..n], dials);
      FilterStep(Answering(servers[..n], dials), servers[..n], dials, servers[n]);
      assert servers == servers[..n] + [servers[n]];
      AnsweringStep(servers, dials);
    }
  }

  lemma AnsweringStep(servers: seq<SSConfig>, dials: SSConfig -> bool)
    requires servers != []
    ensures var n := |servers| - 1;
            Answering(servers, dials)
            == Answering(servers[..n], dials) + if dials(servers[n]) then [servers[n]] else []
  {
    var n := |servers| - 1;
    var marks := seq(|servers|, i requires 0 <= i < |servers| => dials(servers[i]));
    assert marks[..n] == seq(n, i requires 0 <= i < n => dials(servers[..n][i]));
  }

  ghost function Answering(servers: seq<SSConfig>, dials: SSConfig -> bool): seq<SSConfig> {
    HealthCheck.Survivors(servers, seq(|servers|, i requires 0 <= i < |servers| => dials(servers[i])))
  }
}
