// Requests that cross: while one is waiting for its answer, others move the rotator on,
// and when its answer turns out to be blocked, whoever is current by then is blamed.
module Crossing {
  import opened Addresses
  import opened Fleets
  import opened Rotation

  /** The fleet after other requests have moved on `k` times. */
  ghost function Moved(fleet: Fleet, k: nat): Fleet {
    if k == 0 then fleet else Moved(fleet, k - 1).Turn()
  }

  lemma {:induction false} MovedTwice(fleet: Fleet, j: nat, k: nat)
    ensures Moved(Moved(fleet, j), k) == Moved(fleet, j + k)
  {
    if k > 0 {
      MovedTwice(fleet, j, k - 1);
    }
  }

  /** Less than once around, or exactly once. */
  lemma {:induction false} MovedShort(fleet: Fleet, k: nat)
    requires fleet.ring.Some? && fleet.ring.value.index < |fleet.List()| && k <= |fleet.List()|
    ensures var i, n := fleet.ring.value.index, |fleet.List()|;
            Moved(fleet, k) == fleet.(ring := Some(Ring(fleet.List(), if i + k < n then i + k else i + k - n)))
  {
    if k > 0 {
      MovedShort(fleet, k - 1);
      var i, n := fleet.ring.value.index, |fleet.List()|;
      NextIndex(if i + (k - 1) < n then i + (k - 1) else i + (k - 1) - n, n);
    }
  }

  lemma {:induction false} MovedAround(fleet: Fleet, k: nat)
    requires fleet.ring.Some? && fleet.ring.value.index < |fleet.List()|
    ensures Moved(fleet, k) == Moved(fleet, k % |fleet.List()|)
    decreases k
  {
    var n := |fleet.List()|;
    if k >= n {
      MovedShort(fleet, n);
      assert Moved(fleet, n) == fleet;
      MovedTwice(fleet, n, k - n);
      MovedAround(fleet, k - n);
      OnceLess(k, n);
    } else {
      assert k % n == k;
    }
  }

  lemma OnceLess(k: nat, n: nat)
    requires 0 < n <= k
    ensures (k - n) % n == k % n
  {
    var a, b := k / n, (k - n) / n;
    assert n * a - n * b == n * (a - b);
    if a - b >= 2 {
      AtLeast(n, a - b, 2);
    } else if a - b <= 0 {
      AtLeast(n, 0, a - b);
    }
    assert a - b == 1;
  }

  lemma AtLeast(n: nat, a: int, b: int)
    requires a >= b
    ensures n * a >= n * b
  {
    assert n * a - n * b == n * (a - b);
  }

  /** With distinct addresses the blame is right if and only if the others have moved on
      a multiple of the list's length; otherwise somebody loses its place who did not
      carry the answer, and the one that did keeps it. */
  lemma BlameAfterCrossing(fleet: Fleet, k: nat)
    requires fleet.ring.Some? && fleet.ring.value.index < |fleet.List()| && Distinct(fleet.List())
    ensures var carrier, later := fleet.Head().value, Moved(fleet, k);
            && later.Head().Some?
            && (later.Head().value == carrier <==> k % |fleet.List()| == 0)
            && (carrier in later.Blame().List() <==> k % |fleet.List()| != 0)
            && later.Head().value !in later.Blame().List()
  {
    var n := |fleet.List()|;
    var carrier := fleet.Head().value;
    MovedAround(fleet, k);
    MovedShort(fleet, k % n);
    var ring := Moved(fleet, k).ring.value;
    assert ring.list == fleet.List() && (ring.index == fleet.ring.value.index <==> k % n == 0);
    BeheadedList(ring, carrier);
    hide Distinct, Moved;
  }

  lemma BeheadedList(ring: Ring, addr: string)
    requires ring.index < |ring.list| && Distinct(ring.list) && addr in ring.list
    ensures addr in ring.Behead().list <==> addr != ring.list[ring.index]
    ensures ring.list[ring.index] !in ring.Behead().list
  {
    var i, rest := ring.index, ring.Behead().list;
    assert rest == ring.list[..i] + ring.list[i + 1..];
    var k :| 0 <= k < |ring.list| && ring.list[k] == addr;
    if k < i {
      assert rest[k] == addr;
    } else if k > i {
      assert rest[k - 1] == addr;
    }
  }
}
