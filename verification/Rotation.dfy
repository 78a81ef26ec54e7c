// The round-robin rotator over upstream addresses.
module Rotation {
  import opened Addresses

  /** The pool in the order it will be visited, starting at the current address. */
  ghost function View(pool: seq<string>, index: nat): seq<string>
    requires index <= |pool|
  {
    pool[index..] + pool[..index]
  }

  ghost predicate InRange(pool: seq<string>, index: nat) {
    index < |pool| || index == 0
  }

  /** The view after moving on by one. */
  ghost function Turned(view: seq<string>): seq<string> {
    if view == [] then [] else view[1..] + [view[0]]
  }

  /** `after` is `before` without one occurrence of `addr`, everything else in place. */
  ghost predicate Dropped(before: seq<string>, addr: string, after: seq<string>) {
    exists k :: 0 <= k < |before| && before[k] == addr && after == before[..k] + before[k + 1..]
  }

  /** The rotator as a value. */
  datatype Ring = Ring(list: seq<string>, index: nat) {
    ghost function Head(): Option<string> {
      if index < |list| then Some(list[index]) else None
    }

    ghost function Turn(): Ring {
      if index < |list| then Ring(list, (index + 1) % |list|) else this
    }

    /** Without the element at `i`. */
    ghost function Without(i: nat): Ring
      requires index < |list| && i < |list|
    {
      Ring(list[..i] + list[i + 1..], IndexWithout(list, index, i))
    }

    /** Without the current address. */
    ghost function Behead(): Ring {
      if index < |list| then Without(index) else this
    }

    /** Without the first occurrence of `addr`. */
    ghost function Strike(addr: string): Ring {
      var i := FirstIndex(list, addr);
      if index < |list| && i < |list| then Without(i) else this
    }
  }

  ghost function FirstIndex(list: seq<string>, addr: string): (i: nat)
    ensures i <= |list| && addr !in list[..i]
    ensures i < |list| ==> list[i] == addr
  {
    if list == [] || list[0] == addr then 0 else 1 + FirstIndex(list[1..], addr)
  }

  lemma {:induction false} FirstIndexIs(list: seq<string>, addr: string, i: nat)
    requires i <= |list| && addr !in list[..i] && (i < |list| ==> list[i] == addr)
    ensures FirstIndex(list, addr) == i
  {
    if i > 0 {
      assert list[..i][0] == list[0];
      assert list[1..][..i - 1] == list[..i][1..];
      FirstIndexIs(list[1..], addr, i - 1);
    }
  }

  class Rotator {
    var pool: seq<string>
    var index: nat

    ghost predicate Valid()
      reads this
    {
      InRange(pool, index)
    }

    ghost function Cycle(): seq<string>
      reads this
      requires Valid()
    {
      View(pool, index)
    }

    ghost function State(): Ring
      reads this
    {
      Ring(pool, index)
    }

    constructor (addresses: seq<string>)
      ensures Valid() && Cycle() == addresses && State() == Ring(addresses, 0)
    {
      pool, index := addresses, 0;
    }

    method Len() returns (n: nat)
      ensures n == |pool|
    {
      n := |pool|;
    }

    method Current() returns (addr: string)
      requires Valid()
      ensures addr == if pool == [] then "" else Cycle()[0]
    {
      if |pool| == 0 {
        return "";
      }
      return pool[index];
    }

    /** Returns the current address and moves on. */
    method Next() returns (addr: string)
      requires Valid()
      modifies this
      ensures Valid() && pool == old(pool) && State() == old(State()).Turn()
      ensures addr == if pool == [] then "" else old(Cycle())[0]
      ensures Cycle() == Turned(old(Cycle()))
    {
      if |pool| == 0 {
        return "";
      }
      addr := pool[index];
      TurnView(pool, index);
      index := (index + 1) % |pool|;
    }

    /** What the background listener does on a trigger or a tick. */
    method Rotate()
      requires Valid()
      modifies this
      ensures Valid() && pool == old(pool)
      ensures Cycle() == Turned(old(Cycle()))
    {
      if |pool| == 0 {
        return;
      }
      TurnView(pool, index);
      index := (index + 1) % |pool|;
    }

    method Update(newPool: seq<string>)
      modifies this
      ensures Valid() && pool == newPool && Cycle() == newPool
    {
      pool, index := newPool, 0;
    }

    /** Drops the first occurrence of `addr` in the list. Whoever follows keeps
        its place, so nobody is skipped. */
    method Remove(addr: string)
      requires Valid()
      modifies this
      ensures Valid()
      ensures addr !in old(pool) ==> pool == old(pool) && Cycle() == old(Cycle())
      ensures addr in old(pool) ==> Dropped(old(pool), addr, pool)
      ensures addr in old(pool) ==> Dropped(old(Cycle()), addr, Cycle())
      ensures State() == old(State()).Strike(addr)
    {
      hide View, Dropped, FirstIndex;
      var i := 0;
      while i < |pool|
        invariant i <= |pool|
        invariant addr !in pool[..i]
        invariant pool == old(pool) && index == old(index)
      {
        if pool[i] == addr {
          FirstIndexIs(pool, addr, i);
          DropView(pool, index, i);
          pool := pool[..i] + pool[i + 1..];
          if |pool| == 0 {
            index := 0;
            return;
          }
          if i < index {
            index := index - 1;
          } else if i == index && index >= |pool| {
            index := 0;
          }
          return;
        }
        i := i + 1;
      }
      assert pool[..i] == pool;
      FirstIndexIs(pool, addr, i);
    }

    /** Takes the current address out; its successor becomes current. */
    method RemoveCurrent() returns (addr: string)
      requires Valid()
      modifies this
      ensures Valid()
      ensures old(pool) == [] ==> addr == "" && pool == []
      ensures old(pool) != [] ==> addr == old(Cycle())[0] && Cycle() == old(Cycle())[1..]
      ensures old(pool) != [] ==> Dropped(old(pool), addr, pool)
      ensures State() == old(State()).Behead()
    {
      if |pool| == 0 {
        return "";
      }
      addr := pool[index];
      DropView(pool, index, index);
      pool := pool[..index] + pool[index + 1..];
      if |pool| == 0 {
        index := 0;
      } else if index >= |pool| {
        index := 0;
      }
    }
  }

  lemma TurnView(pool: seq<string>, index: nat)
    requires index < |pool|
    ensures (index + 1) % |pool| < |pool|
    ensures View(pool, (index + 1) % |pool|) == Turned(View(pool, index))
  {
    if index + 1 == |pool| {
      assert (index + 1) % |pool| == 0;
    } else {
      assert (index + 1) % |pool| == index + 1;
    }
    assert View(pool, index)[0] == pool[index];
  }

  /** Where the index has to go when the element at `i` is taken out. */
  ghost function IndexWithout(pool: seq<string>, index: nat, i: nat): nat
    requires index < |pool| && i < |pool|
  {
    if i < index then index - 1
    else if i == index == |pool| - 1 then 0
    else index
  }

  /** Taking the element at `i` out of the list takes it out of the cycle too. */
  lemma DropView(pool: seq<string>, index: nat, i: nat)
    requires index < |pool| && i < |pool|
    ensures Dropped(pool, pool[i], pool[..i] + pool[i + 1..])
    ensures var rest := pool[..i] + pool[i + 1..];
            var at := IndexWithout(pool, index, i);
            && InRange(rest, at) && at <= |rest|
            && Dropped(View(pool, index), pool[i], View(rest, at))
            && (i == index ==> View(rest, at) == View(pool, index)[1..])
  {
    var rest := pool[..i] + pool[i + 1..];
    var at := IndexWithout(pool, index, i);
    var k := if i < index then |pool| - index + i else i - index;
    var view := View(pool, index);
    assert view[k] == pool[i];
    if i < index {
      assert rest[at..] == pool[index..] && rest[..at] == pool[..i] + pool[i + 1..index];
    } else if i > index {
      assert rest[at..] == pool[index..i] + pool[i + 1..] && rest[..at] == pool[..index];
    }
    assert View(rest, at) == view[..k] + view[k + 1..];
  }

  // ----------------------------------------------------------- no starvation

  datatype Op = Next | Rotate | Remove(addr: string) | RemoveCurrent

  ghost predicate Advances(op: Op) {
    op.Next? || op.Rotate?
  }

  /** What the methods above guarantee about the cycle. */
  ghost predicate Step(view: seq<string>, op: Op, view': seq<string>) {
    match op
    case Next => view' == Turned(view)
    case Rotate => view' == Turned(view)
    case Remove(addr) => if addr in view then Dropped(view, addr, view') else view' == view
    case RemoveCurrent => view' == if view == [] then [] else view[1..]
  }

  /** `views[i]` is the cycle before the operation `ops[i]`. */
  ghost predicate IsRun(views: seq<seq<string>>, ops: seq<Op>) {
    && |views| == |ops| + 1
    && (ops != [] ==> Step(views[0], ops[0], views[1]) && IsRun(views[1..], ops[1..]))
  }

  /** How many moves until `addr` is current: its first position in the cycle. */
  ghost function Distance(view: seq<string>, addr: string): nat
    requires addr in view
    ensures Distance(view, addr) < |view| && view[Distance(view, addr)] == addr
    ensures addr !in view[..Distance(view, addr)]
  {
    if view[0] == addr then 0 else 1 + Distance(view[1..], addr)
  }

  ghost function CountAdvances(ops: seq<Op>): nat {
    if ops == [] then 0 else (if Advances(ops[0]) then 1 else 0) + CountAdvances(ops[1..])
  }

  lemma {:induction false} FirstPosition(view: seq<string>, addr: string, k: nat)
    requires k < |view| && view[k] == addr && addr !in view[..k]
    ensures Distance(view, addr) == k
  {
    if k > 0 {
      assert view[..k][0] == view[0];
      assert view[1..][..k - 1] == view[..k][1..];
      FirstPosition(view[1..], addr, k - 1);
    }
  }

  /** Each advance brings a waiting address one place closer. */
  lemma AdvanceApproaches(view: seq<string>, addr: string)
    requires addr in view && view[0] != addr
    ensures addr in Turned(view)
    ensures Distance(Turned(view), addr) == Distance(view, addr) - 1
  {
    var d := Distance(view, addr);
    var view' := Turned(view);
    assert view'[d - 1] == view[d];
    forall j | 0 <= j < d - 1 ensures view'[j] != addr {
      assert view'[j] == view[..d][j + 1];
    }
    FirstPosition(view', addr, d - 1);
  }

  /** Removing somebody else never pushes a waiting address back. */
  lemma RemovalKeepsDistance(view: seq<string>, other: string, view': seq<string>, addr: string)
    requires addr in view && addr != other && Dropped(view, other, view')
    ensures addr in view'
    ensures Distance(view', addr) <= Distance(view, addr)
  {
    var k :| 0 <= k < |view| && view[k] == other && view' == view[..k] + view[k + 1..];
    var d := Distance(view, addr);
    DropBefore(view, k, d, addr);
    FirstPosition(view', addr, if k < d then d - 1 else d);
  }

  lemma DropBefore(view: seq<string>, k: nat, d: nat, addr: string)
    requires k < |view| && d < |view| && k != d
    requires view[d] == addr && addr !in view[..d]
    ensures var d', rest := if k < d then d - 1 else d, view[..k] + view[k + 1..];
            d' < |rest| && rest[d'] == addr && addr !in rest[..d']
  {
    var d', rest := if k < d then d - 1 else d, view[..k] + view[k + 1..];
    forall j | 0 <= j < d' ensures rest[j] != addr {
      assert rest[j] == view[..d][if j < k then j else j + 1];
    }
  }

  /** No operation but its own removal pushes a waiting address back, and every
      advance brings it one place closer. */
  lemma StepApproaches(view: seq<string>, op: Op, view': seq<string>, addr: string)
    requires Step(view, op, view') && op != Remove(addr)
    requires addr in view && view[0] != addr
    ensures addr in view'
    ensures Distance(view', addr) + (if Advances(op) then 1 else 0) <= Distance(view, addr)
  {
    match op
    case Remove(other) =>
      if other in view {
        RemovalKeepsDistance(view, other, view', addr);
      }
    case RemoveCurrent =>
      assert view' == view[..0] + view[0 + 1..];
      RemovalKeepsDistance(view, view[0], view', addr);
    case _ =>
      AdvanceApproaches(view, addr);
  }

  /** Duplicates allowed: as long as `addr` itself is not asked to be removed, after
      as many advances as its distance it has been current at some moment. */
  lemma {:induction false} NoStarvation(views: seq<seq<string>>, ops: seq<Op>, addr: string) returns (i: nat)
    requires IsRun(views, ops)
    requires addr in views[0] && Remove(addr) !in ops
    requires CountAdvances(ops) >= Distance(views[0], addr)
    ensures i < |views| && views[i] != [] && views[i][0] == addr
    decreases |ops|
  {
    if views[0][0] == addr {
      i := 0;
    } else {
      StepApproaches(views[0], ops[0], views[1], addr);
      hide Distance, Step;
      var j := NoStarvation(views[1..], ops[1..], addr);
      i := j + 1;
    }
  }

  ghost predicate Distinct(view: seq<string>) {
    forall i, j :: 0 <= i < j < |view| ==> view[i] != view[j]
  }

  /** Without duplicates, striking the current address out makes its successor current. */
  lemma StruckHead(r: Ring)
    requires r.index < |r.list| && Distinct(r.list)
    ensures var next := r.Strike(r.list[r.index]).Head();
            if |r.list| == 1 then next == None else next == r.Turn().Head() && next != r.Head()
  {
    var i, n := r.index, |r.list|;
    assert r.list[i] !in r.list[..i];
    FirstIndexIs(r.list, r.list[i], i);
    var j := if i == n - 1 then 0 else i + 1;
    assert j != i ==> r.list[j] != r.list[i];
    hide Distinct, FirstIndex;
    NextIndex(i, n);
    assert r.Strike(r.list[i]) == r.Without(i) && r.Turn() == Ring(r.list, j);
    var rest := r.list[..i] + r.list[i + 1..];
    assert n > 1 ==> rest[if i == n - 1 then 0 else i] == r.list[j];
  }

  /** And so is taking out whoever is current. */
  lemma BeheadIsStrike(r: Ring)
    requires r.index < |r.list| && Distinct(r.list)
    ensures r.Behead() == r.Strike(r.list[r.index])
  {
    assert r.list[r.index] !in r.list[..r.index];
    FirstIndexIs(r.list, r.list[r.index], r.index);
  }

  lemma NextIndex(i: nat, n: nat)
    requires i < n
    ensures (i + 1) % n == if i == n - 1 then 0 else i + 1
  {
  }

  /** With distinct addresses, one that survives the whole run is never named in a
      removal, so it has been current once the list length many advances are made. */
  lemma SurvivorServed(views: seq<seq<string>>, ops: seq<Op>, addr: string) returns (i: nat)
    requires IsRun(views, ops) && Distinct(views[0])
    requires addr in views[0] && addr in views[|ops|]
    requires CountAdvances(ops) >= |views[0]|
    ensures i < |views| && views[i] != [] && views[i][0] == addr
  {
    SurvivorNotRemoved(views, ops, addr);
    i := NoStarvation(views, ops, addr);
  }

  /** One step of a distinct cycle: still distinct, and nobody comes back. */
  lemma StepShape(view: seq<string>, op: Op, view': seq<string>, addr: string)
    requires Step(view, op, view') && Distinct(view)
    ensures Distinct(view')
    ensures addr in view' ==> addr in view && op != Remove(addr)
  {
    match op
    case Remove(other) =>
      if other in view {
        var k :| 0 <= k < |view| && view[k] == other && view' == view[..k] + view[k + 1..];
        assert forall j :: 0 <= j < |view'| ==> view'[j] == view[if j < k then j else j + 1];
      }
    case _ =>
  }

  lemma {:induction false} SurvivorNotRemoved(views: seq<seq<string>>, ops: seq<Op>, addr: string)
    requires IsRun(views, ops) && Distinct(views[0])
    requires addr in views[|ops|]
    ensures Remove(addr) !in ops && addr in views[0]
    decreases |ops|
  {
    if ops != [] {
      StepShape(views[0], ops[0], views[1], addr);
      SurvivorNotRemoved(views[1..], ops[1..], addr);
      StepShape(views[0], ops[0], views[1], addr);
      assert ops == [ops[0]] + ops[1..];
    }
  }
}
