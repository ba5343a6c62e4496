/** A node's capacity and what it has lent: the three-way accounting, leases in
    reclaim order, and sums over them. */
module Leases {
  import opened Common

  // ---- The pool ----

  datatype Accounting = Accounting(capacity: int, reserved: int, borrowed: int)

  /** Free, in the signed 64-bit arithmetic of the source. */
  function Free(a: Accounting): int {
    Wrap64(a.capacity - a.reserved - a.borrowed)
  }

  predicate Validate(a: Accounting) {
    a.capacity >= 0 && a.reserved >= 0 && a.borrowed >= 0 && Free(a) >= 0
  }

  predicate Int64s(a: Accounting) {
    IsInt64(a.capacity) && IsInt64(a.reserved) && IsInt64(a.borrowed)
  }

  /** The pools fit the device. */
  predicate Balanced(a: Accounting) {
    Int64s(a) && 0 <= a.reserved && 0 <= a.borrowed && a.reserved + a.borrowed <= a.capacity
  }

  /** Validate accepts exactly the balanced accountings and those overcommitted by
      so much that Free wraps round to a positive number. */
  lemma ValidateIffBalancedOrWrapped(a: Accounting)
    requires Int64s(a)
    ensures Validate(a) <==>
      || Balanced(a)
      || (a.capacity >= 0 && a.reserved >= 0 && a.borrowed >= 0 && a.reserved + a.borrowed - a.capacity > MAX_INT64 + 1)
  {
  }

  function Lend(a: Accounting, n: int): Option<Accounting> {
    if n < 0 || Free(a) < n then None else Some(a.(borrowed := Wrap64(a.borrowed + n)))
  }

  function Return(a: Accounting, n: int): Option<Accounting> {
    if n < 0 || n > a.borrowed then None else Some(a.(borrowed := a.borrowed - n))
  }

  /** Lending keeps the balance, refuses exactly what does not fit, and Return
      undoes it. */
  lemma LendKeepsBalance(a: Accounting, n: int)
    requires Balanced(a)
    ensures Lend(a, n).Some? <==> 0 <= n <= a.capacity - a.reserved - a.borrowed
    ensures Lend(a, n).Some? ==>
      Lend(a, n).value == a.(borrowed := a.borrowed + n) && Balanced(Lend(a, n).value) &&
        Return(Lend(a, n).value, n) == Some(a)
  {
  }

  lemma EmptiedIsBalanced(a: Accounting)
    requires Balanced(a)
    ensures Balanced(a.(borrowed := 0))
  {
  }

  // ---- Leases ----

  const OPPORTUNISTIC := 0

  const ELASTIC := 1

  const GUARANTEED := 2

  predicate ValidClass(c: int) {
    OPPORTUNISTIC <= c <= GUARANTEED
  }

  datatype Lease = Lease(id: string, tenant: string, cls: int, size: int, grantedAt: int, term: int)

  predicate Expired(l: Lease, now: int) {
    now >= l.grantedAt + l.term
  }

  type LeaseMap = map<string, Lease>

  ghost predicate Keyed(m: LeaseMap) {
    forall id :: id in m ==> m[id].id == id && m[id].size >= 0 && ValidClass(m[id].cls)
  }

  // ---- Reclaim order ----

  /** sortByReclaimOrder's comparison: class, then age, then identifier. */
  predicate Before(a: Lease, b: Lease) {
    if a.cls != b.cls then a.cls < b.cls
    else if a.grantedAt != b.grantedAt then a.grantedAt < b.grantedAt
    else StrLess(a.id, b.id)
  }

  lemma BeforeIsTotal(a: Lease, b: Lease)
    ensures a.id != b.id ==> Before(a, b) || Before(b, a)
    ensures !(Before(a, b) && Before(b, a))
    ensures !Before(a, a)
  {
    StrLessTrichotomy(a.id, b.id);
    StrLessTrichotomy(a.id, a.id);
  }

  lemma BeforeIsTransitive(a: Lease, b: Lease, c: Lease)
    requires Before(a, b) && Before(b, c)
    ensures Before(a, c)
  {
    if a.cls == b.cls == c.cls && a.grantedAt == b.grantedAt == c.grantedAt {
      StrLessTransitive(a.id, b.id, c.id);
    }
  }

  ghost predicate Sorted(ls: seq<Lease>) {
    forall i, j :: 0 <= i < j < |ls| ==> Before(ls[i], ls[j])
  }

  /** ls is the leases of m in the one order Reclaim would release them. */
  ghost predicate IsLadder(ls: seq<Lease>, m: LeaseMap) {
    Sorted(ls) && forall l :: l in ls <==> l.id in m && m[l.id] == l
  }

  /** The order is total, so the ladder is one sequence and not a choice. */
  lemma {:induction false} LadderIsUnique(a: seq<Lease>, b: seq<Lease>)
    requires Sorted(a) && Sorted(b) && forall l :: l in a <==> l in b
    ensures a == b
  {
    if a != [] {
      assert a[0] in a;
    }
    if b != [] {
      assert b[0] in b;
    }
    if a != [] && b != [] {
      if a[0] != b[0] {
        var i :| 0 <= i < |a| && a[i] == b[0];
        var j :| 0 <= j < |b| && b[j] == a[0];
        assert Before(a[0], a[i]) && Before(b[0], b[j]);
        BeforeIsTotal(a[0], b[0]);
        assert false;
      }
      SortedHeadIsOnce(a);
      SortedHeadIsOnce(b);
      LadderIsUnique(a[1..], b[1..]);
      assert a == [a[0]] + a[1..] && b == [b[0]] + b[1..];
    }
  }

  lemma SortedHeadIsOnce(a: seq<Lease>)
    requires Sorted(a) && a != []
    ensures Sorted(a[1..]) && a[0] !in a[1..]
    ensures forall l :: l in a[1..] <==> l in a && l != a[0]
  {
    BeforeIsTotal(a[0], a[0]);
    assert a == [a[0]] + a[1..];
  }

  function Insert(l: Lease, ls: seq<Lease>): (r: seq<Lease>) {
    if ls == [] || Before(l, ls[0]) then [l] + ls else [ls[0]] + Insert(l, ls[1..])
  }

  lemma {:induction false} InsertKeepsSorted(l: Lease, ls: seq<Lease>)
    requires Sorted(ls) && forall x :: x in ls ==> x.id != l.id
    ensures Sorted(Insert(l, ls)) && forall x :: x in Insert(l, ls) <==> x == l || x in ls
  {
    if ls == [] {
    } else if Before(l, ls[0]) {
      forall j | 0 <= j < |ls| ensures Before(l, ls[j]) {
        if j > 0 {
          BeforeIsTransitive(l, ls[0], ls[j]);
        }
      }
    } else {
      BeforeIsTotal(l, ls[0]);
      assert ls[0] in ls;
      SortedHeadIsOnce(ls);
      InsertKeepsSorted(l, ls[1..]);
      var rest := Insert(l, ls[1..]);
      forall j | 0 <= j < |rest| ensures Before(ls[0], rest[j]) {
        assert rest[j] in rest;
        if rest[j] != l {
          var i :| 0 <= i < |ls[1..]| && ls[1..][i] == rest[j];
        }
      }
    }
  }

  /** The live leases in reclaim order, as Leases() lists them. */
  ghost function Ladder(m: LeaseMap): seq<Lease>
    decreases |m|
  {
    if m == map[] then []
    else
      var id :| id in m;
      assert (m - {id}).Keys == m.Keys - {id};
      Insert(m[id], Ladder(m - {id}))
  }

  lemma {:induction false} LadderIs(m: LeaseMap)
    requires Keyed(m)
    ensures IsLadder(Ladder(m), m)
    decreases |m|
  {
    if m != map[] {
      var id :| id in m && Ladder(m) == Insert(m[id], Ladder(m - {id}));
      assert m.Keys == (m - {id}).Keys + {id};
      LadderIs(m - {id});
      InsertKeepsSorted(m[id], Ladder(m - {id}));
    }
  }

  // ---- Sums ----

  /** Capacity held by a set of leases. */
  ghost function Sum(m: LeaseMap): int
    decreases |m|
  {
    if m == map[] then 0
    else
      var id :| id in m;
      assert (m - {id}).Keys == m.Keys - {id};
      m[id].size + Sum(m - {id})
  }

  lemma {:induction false} SumRemove(m: LeaseMap, id: string)
    requires id in m
    ensures Sum(m) == m[id].size + Sum(m - {id})
    decreases |m|
  {
    var j :| j in m && Sum(m) == m[j].size + Sum(m - {j});
    if j != id {
      assert (m - {j}).Keys == m.Keys - {j} && (m - {id}).Keys == m.Keys - {id};
      SumRemove(m - {j}, id);
      SumRemove(m - {id}, j);
      assert m - {j} - {id} == m - {id} - {j};
    }
  }

  lemma SumAdd(m: LeaseMap, l: Lease)
    requires l.id !in m
    ensures Sum(m[l.id := l]) == Sum(m) + l.size
  {
    SumRemove(m[l.id := l], l.id);
    assert m[l.id := l] - {l.id} == m;
  }

  lemma {:induction false} SumSplit(m: LeaseMap, part: set<string>)
    ensures Sum(m) == Sum(m - part) + Sum(m - (m.Keys - part))
    decreases |part|
  {
    if part == {} {
      assert m - part == m && m - (m.Keys - part) == map[];
    } else {
      var id :| id in part;
      SumSplit(m, part - {id});
      var kept, taken := m - (part - {id}), m - (m.Keys - (part - {id}));
      if id in m {
        SumRemove(kept, id);
        assert kept - {id} == m - part;
        SumAdd(taken, kept[id].(id := id));
        SumRemove(m - (m.Keys - part), id);
        assert m - (m.Keys - part) - {id} == taken;
      } else {
        assert kept == m - part && taken == m - (m.Keys - part);
      }
    }
  }

  lemma {:induction false} SumIsNatural(m: LeaseMap)
    requires forall id :: id in m ==> m[id].size >= 0
    ensures Sum(m) >= 0
    decreases |m|
  {
    if m != map[] {
      var j :| j in m && Sum(m) == m[j].size + Sum(m - {j});
      assert (m - {j}).Keys == m.Keys - {j};
      SumIsNatural(m - {j});
    }
  }

  /** A part of the leases holds no more than all of them. */
  lemma SumPart(m: LeaseMap, part: LeaseMap)
    requires Keyed(m) && forall id :: id in part ==> id in m && m[id] == part[id]
    ensures 0 <= Sum(part) <= Sum(m)
  {
    SumSplit(m, m.Keys - part.Keys);
    assert m - (m.Keys - part.Keys) == part;
    SumIsNatural(part);
    SumIsNatural(m - (m.Keys - (m.Keys - part.Keys)));
  }

  function Total(ls: seq<Lease>): int {
    if ls == [] then 0 else ls[0].size + Total(ls[1..])
  }

  function Ids(ls: seq<Lease>): seq<string> {
    if ls == [] then [] else [ls[0].id] + Ids(ls[1..])
  }

  lemma {:induction false} IdsAre(ls: seq<Lease>)
    ensures |Ids(ls)| == |ls| && forall i :: 0 <= i < |ls| ==> Ids(ls)[i] == ls[i].id
    ensures forall id :: id in Ids(ls) <==> exists i :: 0 <= i < |ls| && ls[i].id == id
  {
    if ls != [] {
      IdsAre(ls[1..]);
      assert ls == [ls[0]] + ls[1..];
    }
  }

  lemma {:induction false} TotalAppend(a: seq<Lease>, l: Lease)
    ensures Total(a + [l]) == Total(a) + l.size && Ids(a + [l]) == Ids(a) + [l.id]
  {
    if a == [] {
      assert a + [l] == [l];
    } else {
      assert (a + [l])[1..] == a[1..] + [l];
      TotalAppend(a[1..], l);
    }
  }

  // ---- Tenants and classes ----

  const NODE_TENANT := "system:node"

  ghost function OfTenant(m: LeaseMap, tenant: string): LeaseMap {
    map id | id in m && m[id].tenant == tenant :: m[id]
  }

  ghost function GuaranteedOf(m: LeaseMap): LeaseMap {
    map id | id in m && m[id].cls == GUARANTEED :: m[id]
  }
}
