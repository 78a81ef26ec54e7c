// The latency-based router over mixed proxies.
module Routing {
  import opened Addresses
  import opened Blacklists

  datatype ProxyInfo = ProxyInfo(address: string, hasDialer: bool, latency: int, alive: bool)

  predicate Eligible(p: ProxyInfo, filter: Verdicts) {
    p.alive && !filter.Blocks(p.address)
  }

  /** The proxy at `i` is the first of the fastest eligible ones. */
  ghost predicate BestAt(proxies: seq<ProxyInfo>, filter: Verdicts, i: nat) {
    && i < |proxies| && Eligible(proxies[i], filter)
    && forall j :: 0 <= j < |proxies| && Eligible(proxies[j], filter) ==>
         if j < i then proxies[i].latency < proxies[j].latency else proxies[i].latency <= proxies[j].latency
  }

  ghost predicate IsBest(proxies: seq<ProxyInfo>, filter: Verdicts, best: Option<ProxyInfo>) {
    match best
    case None => forall p :: p in proxies ==> !Eligible(p, filter)
    case Some(p) => exists i: nat :: BestAt(proxies, filter, i) && proxies[i] == p
  }

  ghost function Best(proxies: seq<ProxyInfo>, filter: Verdicts): Option<ProxyInfo> {
    if proxies == [] then None
    else
      var best, p := Best(proxies[..|proxies| - 1], filter), proxies[|proxies| - 1];
      if Eligible(p, filter) && (best.None? || p.latency < best.value.latency) then Some(p) else best
  }

  lemma {:induction false} BestIsBest(proxies: seq<ProxyInfo>, filter: Verdicts)
    ensures IsBest(proxies, filter, Best(proxies, filter))
  {
    if proxies != [] {
      var n := |proxies| - 1;
      BestIsBest(proxies[..n], filter);
      var best, p := Best(proxies[..n], filter), proxies[n];
      assert proxies == proxies[..n] + [p];
      if Best(proxies, filter) != best || best.None? {
        assert Best(proxies, filter).Some? ==> BestAt(proxies, filter, n);
      } else {
        var i: nat :| BestAt(proxies[..n], filter, i) && proxies[..n][i] == best.value;
        assert BestAt(proxies, filter, i);
      }
    }
  }

  /** The list after the first proxy with this address has been marked dead. */
  ghost function WithDead(proxies: seq<ProxyInfo>, addr: string): seq<ProxyInfo> {
    if proxies == [] then []
    else if proxies[0].address == addr then [proxies[0].(alive := false)] + proxies[1..]
    else [proxies[0]] + WithDead(proxies[1..], addr)
  }

  class SmartRouter {
    var proxies: seq<ProxyInfo>
    const filter: Blacklist?

    constructor (proxies: seq<ProxyInfo>, filter: Blacklist?)
      ensures this.proxies == proxies && this.filter == filter
    {
      this.proxies := proxies;
      this.filter := filter;
    }

    ghost function Filter(): Verdicts
      reads this, filter
    {
      if filter == null then NOBODY else filter.Now()
    }

    method Len() returns (n: nat)
      ensures n == |proxies|
    {
      n := |proxies|;
    }

    method SelectBest() returns (best: Option<ProxyInfo>)
      ensures best == Best(proxies, Filter())
    {
      best := None;
      var i := 0;
      while i < |proxies|
        invariant i <= |proxies|
        invariant best == Best(proxies[..i], Filter())
      {
        assert proxies[..i + 1][..i] == proxies[..i];
        var p := proxies[i];
        i := i + 1;
        if !p.alive {
          continue;
        }
        if filter != null {
          var blocked := filter.IsBlacklisted(p.address);
          if blocked {
            continue;
          }
        }
        if best.None? || p.latency < best.value.latency {
          best := Some(p);
        }
      }
      assert proxies[..i] == proxies;
    }

    method MarkDead(addr: string)
      modifies this
      ensures proxies == WithDead(old(proxies), addr)
      ensures |proxies| == old(|proxies|)
    {
      var i := 0;
      while i < |proxies| && proxies[i].address != addr
        invariant i <= |proxies|
        invariant forall j :: 0 <= j < i ==> proxies[j].address != addr
        modifies {}
      {
        i := i + 1;
      }
      DeadAt(proxies, addr, i);
      if i < |proxies| {
        proxies := proxies[i := proxies[i].(alive := false)];
      }
    }
  }

  lemma {:induction false} DeadAt(proxies: seq<ProxyInfo>, addr: string, i: nat)
    requires i <= |proxies| && forall j :: 0 <= j < i ==> proxies[j].address != addr
    requires i < |proxies| ==> proxies[i].address == addr
    ensures WithDead(proxies, addr) == if i < |proxies| then proxies[i := proxies[i].(alive := false)] else proxies
  {
    if i > 0 {
      DeadAt(proxies[1..], addr, i - 1);
    }
  }

  /** Marking the same address twice marks the same proxy. */
  lemma {:induction false} WithDeadTwice(proxies: seq<ProxyInfo>, addr: string)
    ensures WithDead(WithDead(proxies, addr), addr) == WithDead(proxies, addr)
  {
    var i := FirstWith(proxies, addr);
    DeadAt(proxies, addr, i);
    if i < |proxies| {
      DeadAt(WithDead(proxies, addr), addr, i);
    }
  }

  lemma {:induction false} FirstWith(proxies: seq<ProxyInfo>, addr: string) returns (i: nat)
    ensures i <= |proxies| && forall j :: 0 <= j < i ==> proxies[j].address != addr
    ensures i < |proxies| ==> proxies[i].address == addr
  {
    i := 0;
    while i < |proxies| && proxies[i].address != addr
      invariant i <= |proxies| && forall j :: 0 <= j < i ==> proxies[j].address != addr
    {
      i := i + 1;
    }
  }
}
