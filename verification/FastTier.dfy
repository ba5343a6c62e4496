/** The fast tier as a value: what the cache holds, and what each operation
    under its mutex makes of it.

    The type of a slab handle is left open. The interleaving model runs over any
    handle type and the Cache class uses its own Slab objects. */
module FastTier {
  import opened Common

  datatype BlockRef = BlockRef(backend: string, obj: string, index: int)

  datatype Key = Key(tenant: string, block: BlockRef)

  /** One lease's extent, cut into slots. `data` is the file, a slot at a time. */
  datatype SlabState = SlabState(lease: string, slots: nat, free: seq<nat>, revoked: bool, data: seq<Bytes>)

  datatype Placement<S> = Placement(slab: S, slot: nat, length: nat, used: nat, gen: nat)

  /** The record of first reads: oldest at the front of `queue`. */
  datatype First = First(limit: nat, queue: seq<Key>, seen: set<Key>)

  datatype Tier<S> = Tier(
    block: nat,
    heap: map<S, SlabState>, // every slab ever opened, also after its revocation
    slabs: map<string, S>, // the slabs held, by lease
    order: seq<string>,
    resident: map<Key, Placement<S>>,
    first: First,
    clock: nat,
    generation: nat,
    hits: nat,
    misses: nat)

  // ---- First reads ----

  function SawBefore(f: First, k: Key): (First, bool) {
    if k in f.seen then (f, true)
    else if f.limit == 0 then (f, false)
    else if |f.queue| >= f.limit && f.queue != [] then
      (f.(queue := f.queue[1..] + [k], seen := f.seen - {f.queue[0]} + {k}), false)
    else
      (f.(queue := f.queue + [k], seen := f.seen + {k}), false)
  }

  function Without(q: seq<Key>, k: Key): (r: seq<Key>) {
    if q == [] then []
    else if q[0] == k then q[1..]
    else [q[0]] + Without(q[1..], k)
  }

  lemma {:induction false} WithoutAt(q: seq<Key>, k: Key, i: nat)
    requires i < |q| && q[i] == k && k !in q[..i]
    ensures Without(q, k) == q[..i] + q[i + 1..]
  {
    if i > 0 {
      assert q[1..][..i - 1] == q[..i][1..];
      WithoutAt(q[1..], k, i - 1);
      assert q[..i] == [q[0]] + q[1..][..i - 1];
    }
  }

  function Forget(f: First, k: Key): First {
    if k in f.seen then f.(queue := Without(f.queue, k), seen := f.seen - {k}) else f
  }

  /** The queue and the map hold the same keys, once each, within the limit. */
  ghost predicate FirstInv(f: First) {
    NoDup(f.queue) && f.seen == Elems(f.queue) && |f.queue| <= f.limit
  }

  lemma {:induction false} WithoutRemovesOne(q: seq<Key>, k: Key)
    requires NoDup(q) && k in q
    ensures NoDup(Without(q, k)) && Elems(Without(q, k)) == Elems(q) - {k}
    ensures |Without(q, k)| == |q| - 1
  {
    if q[0] == k {
      assert q == [k] + q[1..];
    } else {
      assert q == [q[0]] + q[1..];
      WithoutRemovesOne(q[1..], k);
      var w := Without(q[1..], k);
      assert q[0] !in q[1..];
      assert q[0] !in Elems(w);
      assert Elems([q[0]] + w) == {q[0]} + Elems(w);
    }
  }

  lemma SawBeforeKeepsFirstInv(f: First, k: Key)
    requires FirstInv(f)
    ensures FirstInv(SawBefore(f, k).0)
    ensures SawBefore(f, k).1 <==> k in f.seen
    ensures SawBefore(f, k).0.seen <= f.seen + {k}
    ensures SawBefore(f, k).0.limit == f.limit
    ensures k !in f.seen && f.limit > 0 ==> k in SawBefore(f, k).0.seen
  {
    if k !in f.seen && f.limit > 0 && |f.queue| >= f.limit {
      var q := f.queue;
      assert q == [q[0]] + q[1..];
      assert Elems(q[1..] + [k]) == Elems(q[1..]) + {k};
      assert q[0] !in q[1..];
      assert Elems(q[1..]) == Elems(q) - {q[0]};
    } else if k !in f.seen && f.limit > 0 {
      assert Elems(f.queue + [k]) == Elems(f.queue) + {k};
    }
  }

  lemma ForgetKeepsFirstInv(f: First, k: Key)
    requires FirstInv(f)
    ensures FirstInv(Forget(f, k))
    ensures Forget(f, k).seen == f.seen - {k} && Forget(f, k).limit == f.limit
  {
    if k in f.seen {
      WithoutRemovesOne(f.queue, k);
    }
  }

  // ---- Slabs ----

  function Free<S>(t: Tier<S>, s: S): seq<nat> {
    if s in t.heap then t.heap[s].free else []
  }

  predicate Takeable<S>(t: Tier<S>, s: S) {
    s in t.heap && !t.heap[s].revoked && t.heap[s].free != []
  }

  /** The slot `take` hands out: the last of the free list. */
  function TopSlot<S>(t: Tier<S>, s: S): nat
    requires Takeable(t, s)
  {
    t.heap[s].free[|t.heap[s].free| - 1]
  }

  function TakeSlot<S>(t: Tier<S>, s: S): Tier<S>
    requires Takeable(t, s)
  {
    var f := t.heap[s].free;
    t.(heap := t.heap[s := t.heap[s].(free := f[..|f| - 1])])
  }

  function ReleaseSlot<S>(t: Tier<S>, s: S, slot: nat): Tier<S>
    requires s in t.heap
  {
    t.(heap := t.heap[s := t.heap[s].(free := t.heap[s].free + [slot])])
  }

  /** One byte of a write lands in the file. */
  function PutByte<S>(t: Tier<S>, s: S, slot: nat, at: nat, b: Byte): Tier<S> {
    if s in t.heap && slot < |t.heap[s].data| && at < |t.heap[s].data[slot]| then
      var d := t.heap[s].data;
      var row: Bytes := d[slot][at := b];
      t.(heap := t.heap[s := t.heap[s].(data := d[slot := row])])
    else t
  }

  // ---- Finding a slot ----

  /** The first lease of the order, from the front, whose slab has a slot to give. */
  function FirstTakeable<S>(t: Tier<S>, order: seq<string>): (r: Option<S>)
    ensures r.Some? ==> Takeable(t, r.value) && exists l :: l in order && l in t.slabs && t.slabs[l] == r.value
    ensures r.None? ==> forall l :: l in order && l in t.slabs ==> !Takeable(t, t.slabs[l])
  {
    if order == [] then None
    else if order[0] in t.slabs && Takeable(t, t.slabs[order[0]]) then
      Some(t.slabs[order[0]])
    else FirstTakeable(t, order[1..])
  }

  /** The resident blocks living in one slab. */
  ghost function BlocksIn<S>(resident: map<Key, Placement<S>>, s: S): set<Key> {
    set k | k in resident && resident[k].slab == s
  }

  /** The first slab of the order that holds any block. */
  ghost function FirstHolding<S>(t: Tier<S>, order: seq<string>): (r: Option<S>)
    ensures r.Some? ==>
      BlocksIn(t.resident, r.value) != {} && exists l :: l in order && l in t.slabs && t.slabs[l] == r.value
    ensures r.None? ==> forall l :: l in order && l in t.slabs ==> BlocksIn(t.resident, t.slabs[l]) == {}
  {
    if order == [] then None
    else if order[0] in t.slabs && BlocksIn(t.resident, t.slabs[order[0]]) != {} then
      Some(t.slabs[order[0]])
    else FirstHolding(t, order[1..])
  }

  /** k is the least recently looked-up block of slab s. */
  ghost predicate LeastRecent<S>(resident: map<Key, Placement<S>>, s: S, k: Key) {
    && k in BlocksIn(resident, s)
    && forall j :: j in BlocksIn(resident, s) ==> resident[k].used <= resident[j].used
  }

  lemma {:induction false} LeastRecentExists<S>(resident: map<Key, Placement<S>>, ks: set<Key>) returns (k: Key)
    requires ks != {} && ks <= resident.Keys
    ensures k in ks && forall j :: j in ks ==> resident[k].used <= resident[j].used
    decreases |ks|
  {
    k :| k in ks;
    if ks != {k} {
      assert ks - {k} != {};
      var rest := LeastRecentExists(resident, ks - {k});
      if resident[rest].used < resident[k].used {
        k := rest;
      }
    }
  }

  ghost function Victim<S>(resident: map<Key, Placement<S>>, s: S): (k: Key)
    requires BlocksIn(resident, s) != {}
    ensures LeastRecent(resident, s, k)
  {
    assert exists k :: LeastRecent(resident, s, k) by {
      var k := LeastRecentExists(resident, BlocksIn(resident, s));
      assert LeastRecent(resident, s, k);
    }
    var k :| LeastRecent(resident, s, k);
    k
  }

  /** Drop a resident block and give its slot back. */
  function DropBlock<S>(t: Tier<S>, k: Key): Tier<S>
    requires k in t.resident && t.resident[k].slab in t.heap
  {
    var p := t.resident[k];
    ReleaseSlot(t, p.slab, p.slot).(resident := t.resident - {k})
  }

  datatype Placed<S> = Placed(slab: S, slot: nat) | WouldEvict | NothingToEvict | EvictedInVain

  /** placeLocked: a free slot if there is one, and otherwise the slot of the
      block eviction chose. A prediction never evicts. */
  ghost function Place<S>(t: Tier<S>, prefetched: bool): (Tier<S>, Placed<S>)
    requires forall k :: k in t.resident ==> t.resident[k].slab in t.heap
  {
    var ready := FirstTakeable(t, t.order);
    if ready.Some? then
      (TakeSlot(t, ready.value), Placed(ready.value, TopSlot(t, ready.value)))
    else if prefetched then (t, WouldEvict)
    else
      var from := FirstHolding(t, t.order);
      if from.None? then (t, NothingToEvict)
      else
        var e := DropBlock(t, Victim(t.resident, from.value));
        var again := FirstTakeable(e, e.order);
        if again.Some? then
          (TakeSlot(e, again.value), Placed(again.value, TopSlot(e, again.value)))
        else (e, EvictedInVain)
  }

  // ---- What every state of the tier keeps ----

  /** Some resident block lives in this slot. */
  ghost predicate Occupied<S>(resident: map<Key, Placement<S>>, s: S, slot: nat) {
    exists k :: k in resident && resident[k].slab == s && resident[k].slot == slot
  }

  ghost predicate SlabShape(b: SlabState, block: nat) {
    |b.data| == b.slots && forall i :: 0 <= i < b.slots ==> |b.data[i]| == block
  }

  /** A slab is held, under its own lease, exactly while it is not revoked. */
  ghost predicate HeapInv<S>(block: nat, heap: map<S, SlabState>, slabs: map<string, S>) {
    && (forall s :: s in heap ==> SlabShape(heap[s], block))
    && (forall l :: l in slabs ==> slabs[l] in heap && heap[slabs[l]].lease == l && !heap[slabs[l]].revoked)
    && (forall s :: s in heap && !heap[s].revoked ==> heap[s].lease in slabs && slabs[heap[s].lease] == s)
  }

  ghost predicate InSlab<S>(block: nat, heap: map<S, SlabState>, p: Placement<S>) {
    p.slab in heap && !heap[p.slab].revoked && p.slot < heap[p.slab].slots && p.length <= block
  }

  /** Every resident block has a place, a lookup stamp and a generation of its own. */
  ghost predicate PlacementInv<S>(t: Tier<S>) {
    && (forall k :: k in t.resident ==>
          && InSlab(t.block, t.heap, t.resident[k])
          && 1 <= t.resident[k].gen <= t.generation && t.resident[k].used <= t.clock)
    && (forall j, k :: j in t.resident && k in t.resident && j != k ==>
          t.resident[j].used != t.resident[k].used && t.resident[j].gen != t.resident[k].gen)
  }

  /** In one slab the free list has no duplicates and it, the resident blocks and
      `out` partition the slots. */
  ghost predicate Partitioned<S>(b: SlabState, s: S, resident: map<Key, Placement<S>>, out: set<(S, nat)>) {
    && NoDup(b.free)
    && (forall i :: i in b.free ==> i < b.slots && !Occupied(resident, s, i) && (s, i) !in out)
    && (forall i: nat :: i < b.slots ==> i in b.free || Occupied(resident, s, i) || (s, i) in out)
  }

  ghost predicate OneOwner<S>(resident: map<Key, Placement<S>>) {
    forall j, k :: j in resident && k in resident && j != k ==>
      resident[j].slab != resident[k].slab || resident[j].slot != resident[k].slot
  }

  /** Slot conservation. `out` holds the slots taken and not yet placed. */
  ghost predicate SlotsInv<S>(heap: map<S, SlabState>, resident: map<Key, Placement<S>>, out: set<(S, nat)>) {
    && (forall s :: s in heap && !heap[s].revoked ==> Partitioned(heap[s], s, resident, out))
    && OneOwner(resident)
    && (forall o :: o in out ==>
          !Occupied(resident, o.0, o.1) && o.0 in heap && !heap[o.0].revoked && o.1 < heap[o.0].slots)
  }

  ghost predicate TierInv<S>(t: Tier<S>, out: set<(S, nat)>) {
    && HeapInv(t.block, t.heap, t.slabs) && PlacementInv(t) && SlotsInv(t.heap, t.resident, out)
    && FirstInv(t.first) && t.first.seen !! t.resident.Keys
  }

  // ---- The operations, each under the mutex ----

  function Empty<S>(block: nat, limit: nat): Tier<S> {
    Tier(block, map[], map[], [], map[], First(limit, [], {}), 0, 0, 0, 0)
  }

  /** AddCapacity with an extent of `slots` whole blocks that holds `data`. */
  function AddCapacity<S>(t: Tier<S>, lease: string, s: S, data: seq<Bytes>): Tier<S> {
    if lease in t.slabs then t
    else
      var free := seq(|data|, i requires 0 <= i < |data| => |data| - 1 - i);
      t.(heap := t.heap[s := SlabState(lease, |data|, free, false, data)],
         slabs := t.slabs[lease := s],
         order := t.order + [lease])
  }

  function DropLease(order: seq<string>, lease: string): seq<string> {
    if order == [] then []
    else if order[0] == lease then order[1..]
    else [order[0]] + DropLease(order[1..], lease)
  }

  ghost function Revoke<S>(t: Tier<S>, lease: string): Tier<S>
    requires lease in t.slabs ==> t.slabs[lease] in t.heap
  {
    if lease !in t.slabs then t
    else
      var s := t.slabs[lease];
      t.(heap := t.heap[s := t.heap[s].(revoked := true)],
         slabs := t.slabs - {lease},
         order := DropLease(t.order, lease),
         resident := t.resident - BlocksIn(t.resident, s))
  }

  function Touch<S>(t: Tier<S>, k: Key): Tier<S>
    requires k in t.resident
  {
    t.(clock := t.clock + 1, resident := t.resident[k := t.resident[k].(used := t.clock + 1)])
  }

  function Miss<S>(t: Tier<S>): Tier<S> {
    t.(misses := t.misses + 1)
  }

  /** The second locked half of Read. `got` is None when the slot could not be read. */
  function Recheck<S>(t: Tier<S>, k: Key, p: Placement<S>, got: Option<Bytes>): (Tier<S>, Option<Bytes>)
    requires p.slab in t.heap
  {
    var still := k in t.resident && t.resident[k].gen == p.gen;
    if got.None? then
      if still then
        var gone := t.(resident := t.resident - {k});
        (Miss(if t.heap[p.slab].revoked then gone else ReleaseSlot(gone, p.slab, p.slot)), None)
      else (Miss(t), None)
    else if !still then (Miss(t), None)
    else (t.(hits := t.hits + 1), got)
  }

  datatype Offered<S> =
    | TooLarge
    | Already
    | FirstTouch
    | Refused(why: Placed<S>)
    | Writing(slab: S, slot: nat)

  /** Admit up to the write into the slot. */
  ghost function Offer<S>(t: Tier<S>, k: Key, data: Bytes, prefetched: bool): (Tier<S>, Offered<S>)
    requires forall j :: j in t.resident ==> t.resident[j].slab in t.heap
  {
    if |data| > t.block then (t, TooLarge)
    else if k in t.resident then (t, Already)
    else
      var (first, before) := SawBefore(t.first, k);
      var u := if prefetched then t else t.(first := first);
      if !prefetched && !before then (u, FirstTouch)
      else
        var (v, placed) := Place(u, prefetched);
        if placed.Placed? then (v, Writing(placed.slab, placed.slot)) else (v, Refused(placed))
  }

  /** Admit after the write: the block becomes resident under a new generation. */
  function Commit<S>(t: Tier<S>, k: Key, data: Bytes, s: S, slot: nat): Tier<S> {
    t.(clock := t.clock + 1,
       generation := t.generation + 1,
       resident := t.resident[k := Placement(s, slot, |data|, t.clock + 1, t.generation + 1)],
       first := Forget(t.first, k))
  }

  // ---- Each operation keeps the invariant ----

  lemma InitKeepsInv<S>(block: nat, limit: nat)
    ensures TierInv(Empty<S>(block, limit), {})
  {
  }

  lemma AddCapacityKeepsInv<S>(t: Tier<S>, lease: string, s: S, data: seq<Bytes>)
    requires TierInv(t, {}) && s !in t.heap
    requires forall i :: 0 <= i < |data| ==> |data[i]| == t.block
    ensures TierInv(AddCapacity(t, lease, s, data), {})
  {
    if lease !in t.slabs {
      var u := AddCapacity(t, lease, s, data);
      ResidentsAreInHeap(t);
      NewSlab(t.heap, t.resident, s, u.heap[s]);
      NewSlabIsHeld(t, s, u.heap[s]);
      hide SlotsInv, HeapInv, PlacementInv, FirstInv;
    }
  }

  /** All of a new slab is free, and no block is in it. */
  lemma NewSlab<S>(heap: map<S, SlabState>, resident: map<Key, Placement<S>>, s: S, b: SlabState)
    requires SlotsInv(heap, resident, {}) && s !in heap && forall k :: k in resident ==> resident[k].slab in heap
    requires b.free == seq(b.slots, i requires 0 <= i < b.slots => b.slots - 1 - i)
    ensures SlotsInv(heap[s := b], resident, {})
  {
    forall i: nat | i < b.slots ensures i in b.free {
      assert b.free[b.slots - 1 - i] == i;
    }
    assert forall i: nat :: !Occupied(resident, s, i);
    assert Partitioned(b, s, resident, {});
    hide Partitioned, Occupied;
  }

  lemma NewSlabIsHeld<S>(t: Tier<S>, s: S, b: SlabState)
    requires HeapInv(t.block, t.heap, t.slabs) && PlacementInv(t) && s !in t.heap && !b.revoked && b.lease !in t.slabs
    requires SlabShape(b, t.block)
    ensures HeapInv(t.block, t.heap[s := b], t.slabs[b.lease := s]) && PlacementInv(t.(heap := t.heap[s := b]))
  {
    hide SlabShape;
    assert forall k :: k in t.resident ==> InSlab(t.block, t.heap, t.resident[k]);
  }

  lemma RevokeKeepsInv<S>(t: Tier<S>, lease: string)
    requires TierInv(t, {})
    ensures TierInv(Revoke(t, lease), {})
  {
    if lease in t.slabs {
      var u := Revoke(t, lease);
      forall r | r in u.heap && !u.heap[r].revoked ensures Partitioned(u.heap[r], r, u.resident, {}) {
        assert forall i :: Occupied(t.resident, r, i) ==> Occupied(u.resident, r, i) by {
          forall i | Occupied(t.resident, r, i) ensures Occupied(u.resident, r, i) {
            var k :| k in t.resident && t.resident[k].slab == r && t.resident[k].slot == i;
            assert k in u.resident;
          }
        }
      }
    }
  }

  /** The slot is somebody's: a resident block's, or taken and not yet placed. */
  ghost predicate Busy<S>(resident: map<Key, Placement<S>>, out: set<(S, nat)>, s: S, i: nat) {
    Occupied(resident, s, i) || (s, i) in out
  }

  lemma SamePartition<S>(
    b: SlabState, s: S, resident: map<Key, Placement<S>>, out: set<(S, nat)>, after: map<Key, Placement<S>>,
    left: set<(S, nat)>)
    requires Partitioned(b, s, resident, out) && forall i: nat :: Busy(after, left, s, i) <==> Busy(resident, out, s, i)
    ensures Partitioned(b, s, after, left)
  {
    hide Occupied, NoDup;
    forall i | i in b.free ensures !Busy(after, left, s, i) {
      assert !Busy(resident, out, s, i);
    }
    forall i: nat | i < b.slots ensures i in b.free || Busy(after, left, s, i) {
      assert i in b.free || Busy(resident, out, s, i);
    }
  }

  /** The top of the free list goes to somebody. */
  lemma TakenPartition<S>(
    b: SlabState, s: S, resident: map<Key, Placement<S>>, out: set<(S, nat)>, after: map<Key, Placement<S>>,
    left: set<(S, nat)>)
    requires Partitioned(b, s, resident, out) && b.free != []
    requires var slot := b.free[|b.free| - 1];
      forall i: nat :: Busy(after, left, s, i) <==> Busy(resident, out, s, i) || i == slot
    ensures var slot := b.free[|b.free| - 1];
      slot < b.slots && !Busy(resident, out, s, slot) && Partitioned(b.(free := b.free[..|b.free| - 1]), s, after, left)
  {
    hide Occupied;
    var f := b.free;
    var slot, rest := f[|f| - 1], f[..|f| - 1];
    assert f == rest + [slot] && slot in f;
    assert slot !in rest;
    forall i | i in rest ensures i in f && i != slot && !Busy(after, left, s, i) {
      assert !Busy(resident, out, s, i);
    }
    forall i: nat | i < b.slots ensures i in rest || Busy(after, left, s, i) {
      assert i in f || Busy(resident, out, s, i);
      assert i in f ==> i in rest || i == slot;
    }
  }

  /** A slot that was somebody's goes back on the free list. */
  lemma FreedPartition<S>(
    b: SlabState, s: S, resident: map<Key, Placement<S>>, out: set<(S, nat)>, after: map<Key, Placement<S>>,
    left: set<(S, nat)>, slot: nat)
    requires Partitioned(b, s, resident, out) && slot < b.slots && Busy(resident, out, s, slot)
    requires forall i: nat :: Busy(after, left, s, i) <==> Busy(resident, out, s, i) && i != slot
    ensures Partitioned(b.(free := b.free + [slot]), s, after, left)
  {
    hide Occupied;
    var f := b.free;
    assert slot !in f;
    forall i | i in f + [slot] ensures i < b.slots && !Busy(after, left, s, i) {
      assert i in f || i == slot;
      assert i in f ==> !Busy(resident, out, s, i);
    }
    forall i: nat | i < b.slots ensures i in f + [slot] || Busy(after, left, s, i) {
      assert i in f || Busy(resident, out, s, i);
    }
  }

  /** A new stamp on one block moves no block. */
  lemma RestampKeepsSlots<S>(
    heap: map<S, SlabState>, resident: map<Key, Placement<S>>, k: Key, used: nat, out: set<(S, nat)>)
    requires SlotsInv(heap, resident, out) && k in resident
    ensures SlotsInv(heap, resident[k := resident[k].(used := used)], out)
  {
    var after := resident[k := resident[k].(used := used)];
    forall s, i ensures Occupied(after, s, i) <==> Occupied(resident, s, i) {
      if Occupied(resident, s, i) {
        var j :| j in resident && resident[j].slab == s && resident[j].slot == i;
        assert j in after && after[j].slab == s && after[j].slot == i;
      }
    }
    hide Partitioned, Occupied;
    forall s | s in heap && !heap[s].revoked ensures Partitioned(heap[s], s, after, out) {
      SamePartition(heap[s], s, resident, out, after, out);
    }
  }

  lemma RestampKeepsPlacements<S>(t: Tier<S>, k: Key)
    requires PlacementInv(t) && k in t.resident
    ensures PlacementInv(Touch(t, k))
  {
    var u := Touch(t, k);
    assert forall j :: j in u.resident ==> j in t.resident && u.resident[j].gen == t.resident[j].gen;
    assert forall j :: j in u.resident && j != k ==> u.resident[j].used == t.resident[j].used;
  }

  lemma TouchKeepsInv<S>(t: Tier<S>, k: Key, out: set<(S, nat)>)
    requires TierInv(t, out) && k in t.resident
    ensures TierInv(Touch(t, k), out)
  {
    hide SlotsInv, PlacementInv, HeapInv, FirstInv;
    RestampKeepsSlots(t.heap, t.resident, k, t.clock + 1, out);
    RestampKeepsPlacements(t, k);
    assert Touch(t, k).resident.Keys == t.resident.Keys;
  }

  /** Dropping a block frees its place and no other. */
  lemma DropVacates<S>(resident: map<Key, Placement<S>>, k: Key)
    requires k in resident && OneOwner(resident)
    ensures var p := resident[k];
      forall s, i: nat :: Occupied(resident - {k}, s, i) <==> Occupied(resident, s, i) && (s, i) != (p.slab, p.slot)
  {
    var p, after := resident[k], resident - {k};
    forall s, i: nat ensures Occupied(after, s, i) <==> Occupied(resident, s, i) && (s, i) != (p.slab, p.slot) {
      if Occupied(resident, s, i) && (s, i) != (p.slab, p.slot) {
        var j :| j in resident && resident[j].slab == s && resident[j].slot == i;
        assert j in after;
      }
    }
  }

  /** A dropped block's slot is free afterwards, and free once. */
  lemma DropKeepsSlots<S>(heap: map<S, SlabState>, resident: map<Key, Placement<S>>, k: Key, out: set<(S, nat)>)
    requires SlotsInv(heap, resident, out) && k in resident
    requires resident[k].slab in heap && !heap[resident[k].slab].revoked
    requires resident[k].slot < heap[resident[k].slab].slots
    ensures var p := resident[k];
      SlotsInv(heap[p.slab := heap[p.slab].(free := heap[p.slab].free + [p.slot])], resident - {k}, out)
  {
    var p := resident[k];
    var after := resident - {k};
    DropVacates(resident, k);
    assert Occupied(resident, p.slab, p.slot);
    hide Partitioned, Occupied;
    FreedPartition(heap[p.slab], p.slab, resident, out, after, out, p.slot);
    forall s | s in heap && !heap[s].revoked && s != p.slab ensures Partitioned(heap[s], s, after, out) {
      SamePartition(heap[s], s, resident, out, after, out);
    }
  }

  lemma DropBlockKeepsInv<S>(t: Tier<S>, k: Key, out: set<(S, nat)>)
    requires TierInv(t, out) && k in t.resident
    ensures TierInv(DropBlock(t, k), out)
    ensures Takeable(DropBlock(t, k), t.resident[k].slab)
  {
    PlaceOf(t, k, out);
    hide SlotsInv, HeapInv, PlacementInv, FirstInv;
    var p := t.resident[k];
    var u := DropBlock(t, k);
    DropKeepsSlots(t.heap, t.resident, k, out);
    SlabUpdateKeepsPlaces(t, p.slab, u.heap[p.slab]);
    FewerPlacements(t.(heap := u.heap), k);
    assert u.resident.Keys == t.resident.Keys - {k};
  }

  lemma PlaceOf<S>(t: Tier<S>, k: Key, out: set<(S, nat)>)
    requires TierInv(t, out) && k in t.resident
    ensures InSlab(t.block, t.heap, t.resident[k]) && SlabShape(t.heap[t.resident[k].slab], t.block)
  {
    hide SlotsInv, FirstInv;
  }

  lemma FewerPlacements<S>(t: Tier<S>, k: Key)
    requires PlacementInv(t)
    ensures PlacementInv(t.(resident := t.resident - {k}))
  {
    hide InSlab;
  }

  /** A slab's free list and file decide nothing but slot conservation. */
  lemma SlabUpdateKeepsPlaces<S>(t: Tier<S>, s: S, b: SlabState)
    requires HeapInv(t.block, t.heap, t.slabs) && PlacementInv(t) && s in t.heap
    requires b == t.heap[s].(free := b.free, data := b.data) && SlabShape(b, t.block)
    ensures HeapInv(t.block, t.heap[s := b], t.slabs) && PlacementInv(t.(heap := t.heap[s := b]))
  {
    assert forall k :: k in t.resident ==> InSlab(t.block, t.heap, t.resident[k]);
  }

  lemma TakeKeepsSlots<S>(heap: map<S, SlabState>, resident: map<Key, Placement<S>>, s: S)
    requires SlotsInv(heap, resident, {}) && s in heap && !heap[s].revoked && heap[s].free != []
    ensures var f := heap[s].free;
      SlotsInv(heap[s := heap[s].(free := f[..|f| - 1])], resident, {(s, f[|f| - 1])})
  {
    hide Partitioned, Occupied;
    var f := heap[s].free;
    var slot := f[|f| - 1];
    TakenPartition(heap[s], s, resident, {}, resident, {(s, slot)});
    forall r | r in heap && !heap[r].revoked && r != s ensures Partitioned(heap[r], r, resident, {(s, slot)}) {
      SamePartition(heap[r], r, resident, {}, resident, {(s, slot)});
    }
  }

  lemma TakeSlotKeepsInv<S>(t: Tier<S>, s: S)
    requires TierInv(t, {}) && Takeable(t, s)
    ensures TierInv(TakeSlot(t, s), {(s, TopSlot(t, s))})
  {
    assert SlabShape(t.heap[s], t.block);
    hide SlotsInv, HeapInv, PlacementInv;
    TakeKeepsSlots(t.heap, t.resident, s);
    SlabUpdateKeepsPlaces(t, s, TakeSlot(t, s).heap[s]);
  }

  lemma ReleaseKeepsSlots<S>(heap: map<S, SlabState>, resident: map<Key, Placement<S>>, s: S, slot: nat)
    requires SlotsInv(heap, resident, {(s, slot)})
    ensures s in heap && SlotsInv(heap[s := heap[s].(free := heap[s].free + [slot])], resident, {})
  {
    hide Partitioned, Occupied;
    var out := {(s, slot)};
    assert (s, slot) in out;
    FreedPartition(heap[s], s, resident, out, resident, {}, slot);
    forall r | r in heap && !heap[r].revoked && r != s ensures Partitioned(heap[r], r, resident, {}) {
      SamePartition(heap[r], r, resident, out, resident, {});
    }
  }

  lemma ReleaseSlotKeepsInv<S>(t: Tier<S>, s: S, slot: nat)
    requires TierInv(t, {(s, slot)})
    ensures s in t.heap && TierInv(ReleaseSlot(t, s, slot), {})
  {
    ReleaseKeepsSlots(t.heap, t.resident, s, slot);
    assert SlabShape(t.heap[s], t.block);
    hide SlotsInv, HeapInv, PlacementInv;
    SlabUpdateKeepsPlaces(t, s, ReleaseSlot(t, s, slot).heap[s]);
  }

  lemma FileUpdateKeepsSlots<S>(
    heap: map<S, SlabState>, resident: map<Key, Placement<S>>, s: S, b: SlabState, out: set<(S, nat)>)
    requires SlotsInv(heap, resident, out) && s in heap && b == heap[s].(data := b.data)
    ensures SlotsInv(heap[s := b], resident, out)
  {
    if !b.revoked {
      assert Partitioned(heap[s], s, resident, out);
    }
  }

  /** Bytes landing in a file move no block. */
  lemma PutByteKeepsInv<S>(t: Tier<S>, s: S, slot: nat, at: nat, b: Byte, out: set<(S, nat)>)
    requires TierInv(t, out)
    ensures TierInv(PutByte(t, s, slot, at, b), out)
  {
    if s in t.heap && slot < |t.heap[s].data| && at < |t.heap[s].data[slot]| {
      var u := PutByte(t, s, slot, at, b);
      assert SlabShape(u.heap[s], t.block);
      hide SlotsInv, HeapInv, PlacementInv;
      FileUpdateKeepsSlots(t.heap, t.resident, s, u.heap[s], out);
      SlabUpdateKeepsPlaces(t, s, u.heap[s]);
      assert u == t.(heap := t.heap[s := u.heap[s]]);
    }
  }

  /** The slot a block is committed to has one owner from then on. */
  lemma CommitKeepsSlots<S>(heap: map<S, SlabState>, resident: map<Key, Placement<S>>, k: Key, p: Placement<S>)
    requires SlotsInv(heap, resident, {(p.slab, p.slot)}) && k !in resident
    ensures SlotsInv(heap, resident[k := p], {})
  {
    var out, after := {(p.slab, p.slot)}, resident[k := p];
    assert (p.slab, p.slot) in out;
    CommitFills(resident, k, p);
    hide Partitioned, Occupied;
    forall s | s in heap && !heap[s].revoked ensures Partitioned(heap[s], s, after, {}) {
      SamePartition(heap[s], s, resident, out, after, {});
    }
  }

  /** Placing a block fills its place and no other, and leaves every place one owner. */
  lemma CommitFills<S>(resident: map<Key, Placement<S>>, k: Key, p: Placement<S>)
    requires k !in resident && OneOwner(resident) && !Occupied(resident, p.slab, p.slot)
    ensures var after := resident[k := p];
      && OneOwner(after)
      && forall s, i: nat :: Occupied(after, s, i) <==> Occupied(resident, s, i) || (s, i) == (p.slab, p.slot)
  {
    var after := resident[k := p];
    forall s, i: nat ensures Occupied(after, s, i) <==> Occupied(resident, s, i) || (s, i) == (p.slab, p.slot) {
      if Occupied(resident, s, i) {
        var j :| j in resident && resident[j].slab == s && resident[j].slot == i;
        assert j in after && after[j].slab == s && after[j].slot == i;
      } else if (s, i) == (p.slab, p.slot) {
        assert after[k].slab == s && after[k].slot == i;
      }
    }
    forall j | j in resident ensures resident[j].slab != p.slab || resident[j].slot != p.slot {
      assert !Occupied(resident, p.slab, p.slot);
    }
  }

  lemma CommitKeepsPlacements<S>(t: Tier<S>, k: Key, data: Bytes, s: S, slot: nat)
    requires PlacementInv(t) && SlotsInv(t.heap, t.resident, {(s, slot)}) && |data| <= t.block
    ensures PlacementInv(Commit(t, k, data, s, slot))
  {
    assert (s, slot) in {(s, slot)};
    assert InSlab(t.block, t.heap, Commit(t, k, data, s, slot).resident[k]);
    hide SlotsInv, InSlab;
  }

  lemma CommitKeepsInv<S>(t: Tier<S>, k: Key, data: Bytes, s: S, slot: nat)
    requires TierInv(t, {(s, slot)}) && k !in t.resident && |data| <= t.block
    ensures TierInv(Commit(t, k, data, s, slot), {})
  {
    var u := Commit(t, k, data, s, slot);
    CommitKeepsPlacements(t, k, data, s, slot);
    hide SlotsInv, HeapInv, PlacementInv, FirstInv;
    ForgetKeepsFirstInv(t.first, k);
    CommitKeepsSlots(t.heap, t.resident, k, u.resident[k]);
    assert u.resident.Keys == t.resident.Keys + {k};
  }

  lemma RecheckKeepsInv<S>(t: Tier<S>, k: Key, p: Placement<S>, got: Option<Bytes>)
    requires TierInv(t, {}) && p.slab in t.heap
    requires k in t.resident && t.resident[k].gen == p.gen ==>
      t.resident[k].slab == p.slab && t.resident[k].slot == p.slot
    ensures TierInv(Recheck(t, k, p, got).0, {})
  {
    if got.None? && k in t.resident && t.resident[k].gen == p.gen {
      DropBlockKeepsInv(t, k, {});
      assert Recheck(t, k, p, got).0 == Miss(DropBlock(t, k));
    }
  }

  /** placeLocked: an eviction always yields the slot it was for, so the refusal
      after an eviction is never given; a prediction leaves the resident set as
      it was; and a demand evicts only from a full tier, the least recently
      looked-up block of the first lease in order that holds any. */
  lemma PlaceKeepsInv<S>(t: Tier<S>, prefetched: bool)
    requires TierInv(t, {})
    ensures var (u, placed) := Place(t, prefetched);
      && !placed.EvictedInVain?
      && (placed.Placed? ==> TierInv(u, {(placed.slab, placed.slot)}))
      && (!placed.Placed? ==> u == t)
      && (prefetched ==> u.resident == t.resident)
      && u.resident.Keys <= t.resident.Keys
      && u.first == t.first && u.generation == t.generation && u.block == t.block
  {
    var ready := FirstTakeable(t, t.order);
    if ready.Some? {
      TakeSlotKeepsInv(t, ready.value);
    } else if !prefetched && FirstHolding(t, t.order).Some? {
      var from := FirstHolding(t, t.order).value;
      var v := Victim(t.resident, from);
      DropBlockKeepsInv(t, v, {});
      var e := DropBlock(t, v);
      var l :| l in t.order && l in t.slabs && t.slabs[l] == from;
      assert Takeable(e, e.slabs[l]);
      var again := FirstTakeable(e, e.order);
      assert again.Some?;
      TakeSlotKeepsInv(e, again.value);
    }
  }

  /** No lease of the order before number i holds a block. */
  ghost predicate NoneBefore<S>(t: Tier<S>, order: seq<string>, i: nat)
    requires i <= |order|
  {
    forall j :: 0 <= j < i && order[j] in t.slabs ==> BlocksIn(t.resident, t.slabs[order[j]]) == {}
  }

  /** v was evicted: no slab of the order had a slot to give, lease i of the order
      holds blocks and none before it does, and v was the coldest of its blocks. */
  ghost predicate Evicted<S>(t: Tier<S>, u: Tier<S>, i: nat, v: Key) {
    && i < |t.order| && t.order[i] in t.slabs && LeastRecent(t.resident, t.slabs[t.order[i]], v)
    && NoneBefore(t, t.order, i)
    && (forall l :: l in t.order && l in t.slabs ==> !Takeable(t, t.slabs[l]))
    && u.resident == t.resident - {v}
  }

  lemma EvictionTakesTheColdestOfTheFirstLease<S>(t: Tier<S>, prefetched: bool)
    requires TierInv(t, {})
    ensures var u := Place(t, prefetched).0;
      u.resident == t.resident || (!prefetched && exists i, v :: Evicted(t, u, i, v))
  {
    ResidentsAreInHeap(t);
    hide TierInv, BlocksIn, NoneBefore;
    var u := Place(t, prefetched).0;
    if FirstTakeable(t, t.order).None? && !prefetched && FirstHolding(t, t.order).Some? {
      var i := FirstHoldingIsFirst(t, t.order);
      var v := Victim(t.resident, t.slabs[t.order[i]]);
      hide LeastRecent;
      assert Evicted(t, u, i, v);
    }
  }

  /** Leases earlier in the order than the one eviction chose hold nothing. */
  lemma {:induction false} FirstHoldingIsFirst<S>(t: Tier<S>, order: seq<string>) returns (i: nat)
    requires FirstHolding(t, order).Some?
    ensures i < |order| && order[i] in t.slabs && FirstHolding(t, order) == Some(t.slabs[order[i]])
    ensures NoneBefore(t, order, i)
  {
    hide BlocksIn;
    if order[0] in t.slabs && BlocksIn(t.resident, t.slabs[order[0]]) != {} {
      i := 0;
    } else {
      var k := FirstHoldingIsFirst(t, order[1..]);
      i := k + 1;
      forall j | 0 <= j < i && order[j] in t.slabs ensures BlocksIn(t.resident, t.slabs[order[j]]) == {} {
        assert j > 0 ==> order[1..][j - 1] == order[j];
      }
    }
  }

  /** A slot is found exactly when a lease in order has one free or, on demand, holds a
      block to evict. */
  lemma PlaceSucceedsExactly<S>(t: Tier<S>, prefetched: bool)
    requires TierInv(t, {})
    ensures Place(t, prefetched).1.Placed? <==>
      exists l :: l in t.order && l in t.slabs &&
        (Takeable(t, t.slabs[l]) || (!prefetched && BlocksIn(t.resident, t.slabs[l]) != {}))
  {
    PlaceKeepsInv(t, prefetched);
    hide TierInv, BlocksIn;
  }

  /** With every lease held in the order, a demand finds a slot exactly when any lease
      has a slot at all. */
  lemma DemandFindsASlot<S>(t: Tier<S>)
    requires TierInv(t, {}) && forall l :: l in t.slabs ==> l in t.order
    ensures Place(t, false).1.Placed? <==> exists l :: l in t.slabs && t.heap[t.slabs[l]].slots > 0
  {
    PlaceSucceedsExactly(t, false);
    hide Place;
    forall l | l in t.slabs
      ensures Takeable(t, t.slabs[l]) || BlocksIn(t.resident, t.slabs[l]) != {} <==> t.heap[t.slabs[l]].slots > 0 {
      SlotOrBlock(t, t.slabs[l]);
    }
  }

  lemma SlotOrBlock<S>(t: Tier<S>, s: S)
    requires TierInv(t, {}) && s in t.heap && !t.heap[s].revoked
    ensures Takeable(t, s) || BlocksIn(t.resident, s) != {} <==> t.heap[s].slots > 0
  {
    var b := t.heap[s];
    assert Partitioned(b, s, t.resident, {});
    if b.free != [] {
      assert b.free[0] in b.free;
    }
    if BlocksIn(t.resident, s) != {} {
      var k :| k in BlocksIn(t.resident, s);
      assert InSlab(t.block, t.heap, t.resident[k]);
    }
    if b.slots > 0 && b.free == [] {
      assert Occupied(t.resident, s, 0);
      var k :| k in t.resident && t.resident[k].slab == s && t.resident[k].slot == 0;
      assert k in BlocksIn(t.resident, s);
    }
  }

  /** Distinct lookup stamps leave eviction no choice. */
  lemma VictimIsUnique<S>(t: Tier<S>, s: S, k: Key)
    requires PlacementInv(t) && LeastRecent(t.resident, s, k)
    ensures Victim(t.resident, s) == k
  {
  }

  lemma FirstReadKeepsInv<S>(t: Tier<S>, k: Key)
    requires TierInv(t, {}) && k !in t.resident
    ensures TierInv(t.(first := SawBefore(t.first, k).0), {})
  {
    SawBeforeKeepsFirstInv(t.first, k);
  }

  lemma OfferKeepsInv<S>(t: Tier<S>, k: Key, data: Bytes, prefetched: bool)
    requires TierInv(t, {})
    ensures var (u, o) := Offer(t, k, data, prefetched);
      && (o.Writing? ==> TierInv(u, {(o.slab, o.slot)}) && k !in u.resident && |data| <= u.block
                         && (prefetched || k in t.first.seen))
      && (!o.Writing? ==> TierInv(u, {}) && u.resident == t.resident)
      && (prefetched ==> u.resident == t.resident && u.first == t.first)
      && (o.Refused? ==> !o.why.EvictedInVain?)
      && u.generation == t.generation && u.block == t.block
      && u.first.seen <= t.first.seen + {k}
  {
    hide TierInv, Place;
    ResidentsAreInHeap(t);
    if |data| <= t.block && k !in t.resident {
      FirstInvHolds(t, {});
      SawBeforeKeepsFirstInv(t.first, k);
      FirstReadKeepsInv(t, k);
      var u := if prefetched then t else t.(first := SawBefore(t.first, k).0);
      PlaceKeepsInv(u, prefetched);
    }
  }

  lemma ResidentsAreInHeap<S>(t: Tier<S>)
    requires TierInv(t, {})
    ensures forall j :: j in t.resident ==> t.resident[j].slab in t.heap
  {
  }

  lemma FirstInvHolds<S>(t: Tier<S>, out: set<(S, nat)>)
    requires TierInv(t, out)
    ensures FirstInv(t.first) && t.first.seen !! t.resident.Keys
  {
  }
}
