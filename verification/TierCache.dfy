/** The cache and its slabs as objects, each method proved against the value it
    makes of the tier. Every method runs with the cache's mutex held, except
    Slab.Read, which is what Read calls between Lookup and Finish. */
module TierCache {
  import opened Common
  import opened FastTier
  import TierRuns

  class Slab {
    const lease: string
    const slots: nat
    var free: seq<nat>
    var revoked: bool
    var data: seq<Bytes>

    ghost function State(): SlabState
      reads this
    {
      SlabState(lease, slots, free, revoked, data)
    }

    /** openSlab on an extent of whole blocks. */
    constructor (lease: string, extent: seq<Bytes>)
      ensures fresh(this)
      ensures State() == SlabState(lease, |extent|, FreeFrom(|extent|), false, extent)
    {
      this.lease, slots, revoked, data := lease, |extent|, false, extent;
      var list: seq<nat> := [];
      var i := |extent|;
      while i > 0
        invariant 0 <= i <= |extent|
        invariant list == FreeFrom(|extent|)[..|extent| - i]
      {
        i := i - 1;
        list := list + [i];
      }
      free := list;
    }

    method Take() returns (slot: nat, took: bool)
      modifies this`free
      ensures took == (!old(revoked) && old(free) != [])
      ensures took ==> slot == old(free)[|old(free)| - 1] && free == old(free)[..|old(free)| - 1]
      ensures !took ==> free == old(free)
    {
      slot := 0;
      if revoked || |free| == 0 {
        return slot, false;
      }
      slot := free[|free| - 1];
      free := free[..|free| - 1];
      took := true;
    }

    method Release(slot: nat)
      modifies this`free
      ensures free == old(free) + [slot]
    {
      free := free + [slot];
    }

    /** WriteAt, a byte at a time. `landed` bytes reach the file before a device
        that fails, and all of them when it does not. */
    method Write(slot: nat, bytes: Bytes, block: nat, ok: bool, landed: nat) returns (done: bool)
      requires |bytes| <= block && landed <= |bytes|
      requires slot < |data| && |data[slot]| == block
      modifies this`data
      ensures done == (ok && !revoked)
      ensures revoked ==> data == old(data)
      ensures !revoked ==> data == old(data)[slot := Overlay(old(data)[slot], bytes, if ok then |bytes| else landed)]
    {
      if revoked {
        return false;
      }
      var n := if ok then |bytes| else landed;
      var row := data[slot];
      var i := 0;
      while i < n
        invariant 0 <= i <= n && row == Overlay(old(data)[slot], bytes, i)
      {
        row := row[i := bytes[i]];
        i := i + 1;
      }
      data := data[slot := row];
      done := ok;
    }

    method Read(slot: nat, length: nat) returns (got: Option<Bytes>)
      requires slot < |data| && length <= |data[slot]|
      ensures revoked ==> got.None?
      ensures !revoked ==> got == Some(data[slot][..length])
    {
      if revoked {
        return None;
      }
      got := Some(data[slot][..length]);
    }
  }

  /** The descending free list openSlab builds. */
  function FreeFrom(n: nat): seq<nat> {
    seq(n, i requires 0 <= i < n => n - 1 - i)
  }

  /** A slot after n bytes of a write. */
  function Overlay(row: Bytes, bytes: Bytes, n: nat): Bytes
    requires n <= |bytes| <= |row|
  {
    bytes[..n] + row[n..]
  }

  /** PutAll, on the whole tier, is Overlay on the one slot. */
  lemma {:induction false} PutAllIsOverlay<S>(t: Tier<S>, s: S, slot: nat, bytes: Bytes, n: nat)
    requires s in t.heap && slot < |t.heap[s].data| && n <= |bytes| <= |t.heap[s].data[slot]|
    ensures var d := t.heap[s].data;
      TierRuns.PutAll(t, s, slot, bytes, n)
      == t.(heap := t.heap[s := t.heap[s].(data := d[slot := Overlay(d[slot], bytes, n)])])
  {
    var d := t.heap[s].data;
    if n == 0 {
      assert Overlay(d[slot], bytes, 0) == d[slot];
      assert d[slot := d[slot]] == d;
    } else {
      PutAllIsOverlay(t, s, slot, bytes, n - 1);
      var row: Bytes := Overlay(d[slot], bytes, n - 1)[n - 1 := bytes[n - 1]];
      assert row == Overlay(d[slot], bytes, n);
      assert d[slot := Overlay(d[slot], bytes, n - 1)][slot := row] == d[slot := row];
    }
  }

  class FirstReads {
    const limit: nat
    var queue: seq<Key>
    var seen: set<Key>

    ghost function State(): First
      reads this
    {
      First(limit, queue, seen)
    }

    constructor (limit: nat)
      ensures fresh(this) && State() == First(limit, [], {})
    {
      this.limit, queue, seen := limit, [], {};
    }

    method SawBefore(k: Key) returns (before: bool)
      requires FirstInv(State())
      modifies this
      ensures (State(), before) == FastTier.SawBefore(old(State()), k)
    {
      if k in seen {
        return true;
      }
      if limit <= 0 {
        return false;
      }
      if |queue| >= limit {
        var oldest := queue[0];
        seen := seen - {oldest};
        queue := queue[1..];
      }
      queue := queue + [k];
      seen := seen + {k};
      before := false;
    }

    /** list.Remove of the element the map points at. */
    method Forget(k: Key)
      requires FirstInv(State())
      modifies this
      ensures State() == FastTier.Forget(old(State()), k)
    {
      if k !in seen {
        return;
      }
      var i := 0;
      while queue[i] != k
        invariant 0 <= i < |queue| && k !in queue[..i]
        decreases |queue| - i
      {
        i := i + 1;
      }
      WithoutAt(queue, k, i);
      queue := queue[..i] + queue[i + 1..];
      seen := seen - {k};
    }
  }

  class Cache {
    const block: nat
    const first: FirstReads
    var slabs: map<string, Slab>
    var order: seq<string>
    var resident: map<Key, Placement<Slab>>
    var clock: nat
    var generation: nat
    var hits: nat
    var misses: nat
    ghost var known: set<Slab> // every slab ever opened

    ghost function State(): Tier<Slab>
      reads this, first, known
    {
      Tier(block, map s | s in known :: s.State(), slabs, order, resident, first.State(),
        clock, generation, hits, misses)
    }

    ghost predicate Valid()
      reads this, first, known
    {
      TierInv(State(), {})
    }

    constructor (block: nat, limit: nat)
      ensures fresh(this) && fresh(first) && known == {}
      ensures Valid() && State() == Empty<Slab>(block, limit)
    {
      this.block, slabs, order, resident := block, map[], [], map[];
      clock, generation, hits, misses := 0, 0, 0, 0;
      first := new FirstReads(limit);
      known := {};
      new;
      InitKeepsInv<Slab>(block, limit);
    }

    /** AddCapacity. An extent holding no whole block is refused, and so is a
        lease already held. */
    method AddCapacity(lease: string, extent: seq<Bytes>) returns (ok: bool)
      requires Valid() && forall i :: 0 <= i < |extent| ==> |extent[i]| == block
      modifies this
      ensures Valid() && fresh(known - old(known))
      ensures ok == (|extent| > 0 && lease !in old(slabs))
      ensures !ok ==> State() == old(State())
      ensures ok ==>
        exists s :: s in known && s !in old(known) && State() == FastTier.AddCapacity(old(State()), lease, s, extent)
    {
      hide TierInv;
      if |extent| == 0 {
        return false;
      }
      var s := new Slab(lease, extent);
      if lease in slabs {
        return false;
      }
      slabs := slabs[lease := s];
      order := order + [lease];
      known := known + {s};
      ghost var t := old(State());
      AddCapacityKeepsInv(t, lease, s, extent);
      assert State().heap == t.heap[s := SlabState(lease, |extent|, FreeFrom(|extent|), false, extent)];
      assert State() == FastTier.AddCapacity(t, lease, s, extent);
      ok := true;
    }

    method ReclaimOrder(leases: seq<string>)
      requires Valid()
      modifies this`order
      ensures Valid() && State() == old(State()).(order := leases)
    {
      hide TierInv;
      order := leases;
      assert State().heap == old(State()).heap;
      TierRuns.ReorderKeepsInv(old(State()), leases);
    }

    /** The locked first half of Read: the placement to read, or a miss. */
    method Lookup(k: Key) returns (p: Option<Placement<Slab>>)
      requires Valid()
      modifies this`clock, this`resident, this`misses
      ensures Valid()
      ensures k in old(resident) ==> State() == Touch(old(State()), k) && p == Some(resident[k])
      ensures k !in old(resident) ==> State() == Miss(old(State())) && p.None?
    {
      hide TierInv;
      if k !in resident {
        misses := misses + 1;
        assert State().heap == old(State()).heap;
        TierRuns.MissKeepsInv(old(State()));
        return None;
      }
      clock := clock + 1;
      resident := resident[k := resident[k].(used := clock)];
      p := Some(resident[k]);
      assert State().heap == old(State()).heap;
      TouchKeepsInv(old(State()), k, {});
    }

    /** The locked second half of Read, given what the unlocked read got. */
    method Finish(k: Key, p: Placement<Slab>, got: Option<Bytes>) returns (hit: Option<Bytes>)
      requires Valid() && p.slab in known
      requires k in resident && resident[k].gen == p.gen ==> resident[k].slab == p.slab && resident[k].slot == p.slot
      modifies this`resident, this`hits, this`misses, p.slab`free
      ensures Valid()
      ensures (State(), hit) == Recheck(old(State()), k, p, got)
    {
      hide TierInv;
      RecheckKeepsInv(State(), k, p, got);
      var still := k in resident && resident[k].gen == p.gen;
      hit := None;
      if got.None? {
        if still {
          resident := resident - {k};
          if !p.slab.revoked {
            p.slab.Release(p.slot);
          }
        }
        misses := misses + 1;
      } else if !still {
        misses := misses + 1;
      } else {
        hits := hits + 1;
        hit := got;
      }
      assert State().heap == Recheck(old(State()), k, p, got).0.heap;
    }

    /** Read, nobody coming between its halves: a hit exactly for a resident block, whose
        bytes it returns, the block then being the last looked up. */
    method Read(k: Key) returns (hit: Option<Bytes>)
      requires Valid()
      modifies this`clock, this`resident, this`misses, this`hits, known`free
      ensures Valid()
      ensures k !in old(resident) ==> hit.None? && State() == Miss(old(State()))
      ensures k in old(resident) ==>
        var p := old(resident)[k];
        && p.slab in old(known) && p.slot < |p.slab.data| && p.length <= |p.slab.data[p.slot]|
        && hit == Some(p.slab.data[p.slot][..p.length])
        && State() == Touch(old(State()), k).(hits := old(hits) + 1)
    {
      hide TierInv, Recheck, Touch, Miss;
      ghost var t := State();
      BlocksAreThere(t);
      if k in resident {
        HitIs(t, k);
      }
      var p := Lookup(k);
      if p.None? {
        return None;
      }
      var got := p.value.slab.Read(p.value.slot, p.value.length);
      hit := Finish(k, p.value, got);
    }

    /** Forget a slab's blocks, in whatever order the map gives them. */
    method DropBlocksOf(s: Slab) returns (dropped: nat)
      modifies this`resident
      ensures resident == old(resident) - BlocksIn(old(resident), s)
      ensures dropped == |BlocksIn(old(resident), s)|
    {
      hide DroppedTo, BlocksIn;
      ghost var was := resident;
      dropped := 0;
      var left := resident.Keys;
      NoneDropped(was, s);
      while left != {}
        invariant DroppedTo(was, s, left, resident, dropped)
        decreases |left|
      {
        var k :| k in left;
        OneDropped(was, s, left, resident, dropped, k);
        if resident[k].slab == s {
          resident := resident - {k};
          dropped := dropped + 1;
        }
        left := left - {k};
      }
      AllDropped(was, s, resident, dropped);
    }

    method Revoke(lease: string) returns (dropped: nat)
      requires Valid()
      modifies this, if lease in slabs then {slabs[lease]} else {}
      ensures Valid() && State() == FastTier.Revoke(old(State()), lease)
      ensures known == old(known)
      ensures dropped == if lease in old(slabs) then |BlocksIn(old(resident), old(slabs[lease]))| else 0
    {
      hide TierInv, BlocksIn, DropLease;
      ghost var t := State();
      SlabsAreKnown(t);
      RevokeKeepsInv(t, lease);
      if lease !in slabs {
        return 0;
      }
      var s := slabs[lease];
      s.revoked := true;
      dropped := DropBlocksOf(s);
      slabs := slabs - {lease};
      DropLeaseFromOrder(lease);
      assert State().heap == FastTier.Revoke(t, lease).heap;
    }

    method DropLeaseFromOrder(lease: string)
      modifies this`order
      ensures order == DropLease(old(order), lease)
    {
      var i := 0;
      while i < |order|
        invariant 0 <= i <= |order| && order == old(order)
        invariant DropLease(order, lease) == order[..i] + DropLease(order[i..], lease)
      {
        assert order[i..] == [order[i]] + order[i + 1..];
        if order[i] == lease {
          order := order[..i] + order[i + 1..];
          return;
        }
        i := i + 1;
      }
      assert order[i..] == [];
    }

    /** The first slab of the order with a slot to give, and the slot. */
    method TakeFirst() returns (placed: Option<(Slab, nat)>)
      requires Valid()
      modifies known`free
      ensures var t := old(State()); var ready := FirstTakeable(t, t.order);
        && (ready.None? ==> placed.None? && State() == t)
        && (ready.Some? ==>
          placed == Some((ready.value, TopSlot(t, ready.value))) && State() == TakeSlot(t, ready.value))
    {
      hide TierInv;
      ghost var t := State();
      SlabsAreKnown(t);
      var i := 0;
      assert order[0..] == order;
      while i < |order|
        invariant 0 <= i <= |order| && State() == t
        invariant FirstTakeable(t, order) == FirstTakeable(t, order[i..])
      {
        assert order[i..][1..] == order[i + 1..];
        if order[i] in slabs {
          var s := slabs[order[i]];
          assert t.heap[s] == s.State();
          var slot, took := s.Take();
          if took {
            assert State().heap == TakeSlot(t, s).heap;
            return Some((s, slot));
          }
          assert State().heap == t.heap;
        }
        i := i + 1;
      }
      placed := None;
    }

    /** The least recently looked-up block of one slab, if it holds any. */
    method Coldest(s: Slab) returns (victim: Option<Key>)
      ensures victim.None? <==> BlocksIn(resident, s) == {}
      ensures victim.Some? ==> LeastRecent(resident, s, victim.value)
    {
      victim := None;
      var oldest := 0;
      var left := resident.Keys;
      while left != {}
        invariant left <= resident.Keys
        invariant victim.None? ==> BlocksIn(resident, s) <= left
        invariant victim.Some? ==> victim.value in BlocksIn(resident, s) && oldest == resident[victim.value].used
        invariant victim.Some? ==> forall j :: j in BlocksIn(resident, s) - left ==> oldest <= resident[j].used
        decreases |left|
      {
        var k :| k in left;
        if resident[k].slab == s && (victim.None? || resident[k].used < oldest) {
          victim, oldest := Some(k), resident[k].used;
        }
        left := left - {k};
      }
    }

    /** The block to evict: the coldest of the first slab that holds any. */
    method FindVictim() returns (victim: Option<Key>)
      requires Valid()
      ensures var t := State(); var from := FirstHolding(t, t.order);
        && (from.None? ==> victim.None?)
        && (from.Some? ==> victim == Some(Victim(t.resident, from.value)))
    {
      hide TierInv, PlacementInv, BlocksIn, LeastRecent, Victim;
      ghost var t := State();
      PlacementsHold(t);
      var i := 0;
      assert order[0..] == order;
      while i < |order|
        invariant 0 <= i <= |order|
        invariant FirstHolding(t, order) == FirstHolding(t, order[i..])
      {
        assert order[i..][1..] == order[i + 1..];
        if order[i] in slabs {
          victim := Coldest(slabs[order[i]]);
          if victim.Some? {
            VictimIsUnique(t, slabs[order[i]], victim.value);
            return;
          }
        }
        i := i + 1;
      }
      victim := None;
    }

    method EvictOne() returns (evicted: bool)
      requires Valid()
      modifies this`resident, known`free
      ensures var t := old(State()); var from := FirstHolding(t, t.order);
        && evicted == from.Some?
        && (from.None? ==> State() == t)
        && (from.Some? ==>
          && Victim(t.resident, from.value) in t.resident
          && t.resident[Victim(t.resident, from.value)].slab in t.heap
          && State() == DropBlock(t, Victim(t.resident, from.value)))
    {
      hide TierInv;
      ghost var t := State();
      ResidentsAreInHeap(t);
      var victim := FindVictim();
      if victim.None? {
        return false;
      }
      var p := resident[victim.value];
      p.slab.Release(p.slot);
      resident := resident - {victim.value};
      assert State().heap == DropBlock(t, victim.value).heap;
      evicted := true;
    }

    method PlaceLocked(prefetched: bool) returns (placed: Placed<Slab>)
      requires Valid()
      modifies this`resident, known`free
      ensures forall k :: k in old(resident) ==> old(resident)[k].slab in old(State()).heap
      ensures (State(), placed) == Place(old(State()), prefetched)
    {
      hide TierInv;
      ghost var t := State();
      ResidentsAreInHeap(t);
      PlaceKeepsInv(t, prefetched);
      var got := TakeFirst();
      if got.Some? {
        return Placed(got.value.0, got.value.1);
      }
      if prefetched {
        return WouldEvict;
      }
      ghost var from := FirstHolding(t, t.order);
      if from.Some? {
        DropBlockKeepsInv(t, Victim(t.resident, from.value), {});
      }
      var evicted := EvictOne();
      if !evicted {
        return NothingToEvict;
      }
      got := TakeFirst();
      if got.Some? {
        return Placed(got.value.0, got.value.1);
      }
      placed := EvictedInVain;
    }

    /** Admit. `ok` and `landed` are what the device makes of the write. */
    method Admit(k: Key, bytes: Bytes, prefetched: bool, ok: bool, landed: nat) returns (admitted: bool)
      requires Valid() && landed <= |bytes|
      modifies this`resident, this`clock, this`generation, first, known
      ensures Valid()
      ensures forall j :: j in old(resident) ==> old(resident)[j].slab in old(State()).heap
      ensures State() == TierRuns.Admit(old(State()), k, bytes, prefetched, ok, landed).0
      ensures admitted == (TierRuns.Admit(old(State()), k, bytes, prefetched, ok, landed).1.Writing? && ok)
    {
      hide TierInv, Place;
      ghost var t := State();
      ResidentsAreInHeap(t);
      admitted := false;
      if |bytes| > block {
        return;
      }
      if k in resident {
        return;
      }
      FirstInvHolds(t, {});
      FirstReadKeepsInv(t, k);
      if !prefetched {
        var before := first.SawBefore(k);
        assert State().heap == t.heap;
        if !before {
          return;
        }
      }
      ghost var u := State();
      assert u == if prefetched then t else t.(first := FastTier.SawBefore(t.first, k).0);
      PlaceKeepsInv(u, prefetched);
      var placed := PlaceLocked(prefetched);
      if !placed.Placed? {
        return;
      }
      OfferKeepsInv(t, k, bytes, prefetched);
      admitted := WriteAndCommit(k, bytes, placed.slab, placed.slot, ok, landed);
    }

    /** The second part of Admit: write the slot it took, and keep the block or
        give the slot back. */
    method WriteAndCommit(k: Key, bytes: Bytes, slab: Slab, slot: nat, ok: bool, landed: nat) returns (admitted: bool)
      requires TierInv(State(), {(slab, slot)}) && k !in resident && |bytes| <= block && landed <= |bytes|
      modifies this`resident, this`clock, this`generation, first, known
      ensures Valid() && admitted == ok && slab in old(known)
      ensures var w := TierRuns.PutAll(old(State()), slab, slot, bytes, if ok then |bytes| else landed);
        slab in w.heap && State() == if ok then Commit(w, k, bytes, slab, slot) else ReleaseSlot(w, slab, slot)
    {
      hide TierInv, TierRuns.PutAll;
      SlotIsReady(State(), slab, slot);
      ghost var w := TierRuns.PutAll(State(), slab, slot, bytes, if ok then |bytes| else landed);
      PutAllKeepsInv(State(), slab, slot, bytes, if ok then |bytes| else landed);
      admitted := WriteSlot(slab, slot, bytes, ok, landed);
      if admitted {
        CommitLocked(k, bytes, slab, slot);
      } else {
        ReleaseSlotKeepsInv(w, slab, slot);
        slab.Release(slot);
        assert State().heap == ReleaseSlot(w, slab, slot).heap;
      }
    }

    method WriteSlot(slab: Slab, slot: nat, bytes: Bytes, ok: bool, landed: nat) returns (done: bool)
      requires slab in known && !slab.revoked && slot < |slab.data| && |slab.data[slot]| == block
      requires |bytes| <= block && landed <= |bytes|
      modifies slab`data
      ensures done == ok
      ensures State() == TierRuns.PutAll(old(State()), slab, slot, bytes, if ok then |bytes| else landed)
    {
      PutAllIsOverlay(State(), slab, slot, bytes, if ok then |bytes| else landed);
      hide TierRuns.PutAll;
      done := slab.Write(slot, bytes, block, ok, landed);
      assert State().heap == TierRuns.PutAll(old(State()), slab, slot, bytes, if ok then |bytes| else landed).heap;
    }

    method CommitLocked(k: Key, bytes: Bytes, slab: Slab, slot: nat)
      requires TierInv(State(), {(slab, slot)}) && k !in resident && |bytes| <= block
      modifies this`resident, this`clock, this`generation, first
      ensures Valid() && State() == Commit(old(State()), k, bytes, slab, slot)
    {
      hide TierInv, FirstInv;
      FirstInvHolds(State(), {(slab, slot)});
      CommitKeepsInv(State(), k, bytes, slab, slot);
      clock := clock + 1;
      generation := generation + 1;
      resident := resident[k := Placement(slab, slot, |bytes|, clock, generation)];
      first.Forget(k);
      assert State().heap == old(State()).heap;
    }
  }

  /** A block just looked up, its slot read and nothing in between, is a hit. */
  lemma HitIs<S>(t: Tier<S>, k: Key)
    requires k in t.resident && t.resident[k].slab in t.heap
    ensures var u := Touch(t, k);
      && k in u.resident && u.resident[k] == t.resident[k].(used := t.clock + 1) && u.heap == t.heap && u.hits == t.hits
      && forall got :: Recheck(u, k, u.resident[k], Some(got)) == (u.(hits := t.hits + 1), Some(got))
  {
  }

  lemma BlocksAreThere<S>(t: Tier<S>)
    requires TierInv(t, {})
    ensures forall k :: k in t.resident ==>
      var p := t.resident[k];
      && p.slab in t.heap && !t.heap[p.slab].revoked
      && p.slot < |t.heap[p.slab].data| && p.length <= |t.heap[p.slab].data[p.slot]|
  {
    hide SlotsInv;
    forall k | k in t.resident
      ensures InSlab(t.block, t.heap, t.resident[k]) && SlabShape(t.heap[t.resident[k].slab], t.block) {
    }
  }

  /** A slab's blocks dropped, but for those still to be looked at. */
  ghost predicate DroppedTo<S>(
    was: map<Key, Placement<S>>, s: S, left: set<Key>, now: map<Key, Placement<S>>, dropped: nat) {
    left <= was.Keys && now == was - (BlocksIn(was, s) - left) && dropped == |BlocksIn(was, s) - left|
  }

  lemma NoneDropped<S>(was: map<Key, Placement<S>>, s: S)
    ensures DroppedTo(was, s, was.Keys, was, 0)
  {
    assert BlocksIn(was, s) - was.Keys == {};
    assert was - {} == was;
  }

  lemma OneDropped<S>(
    was: map<Key, Placement<S>>, s: S, left: set<Key>, now: map<Key, Placement<S>>, dropped: nat, k: Key)
    requires k in left && DroppedTo(was, s, left, now, dropped)
    ensures k in now && now[k] == was[k]
    ensures
      if now[k].slab == s then DroppedTo(was, s, left - {k}, now - {k}, dropped + 1)
      else DroppedTo(was, s, left - {k}, now, dropped)
  {
    var gone := BlocksIn(was, s) - left;
    if was[k].slab == s {
      assert BlocksIn(was, s) - (left - {k}) == gone + {k};
      assert was - gone - {k} == was - (gone + {k});
    } else {
      assert BlocksIn(was, s) - (left - {k}) == gone;
    }
  }

  lemma AllDropped<S>(was: map<Key, Placement<S>>, s: S, now: map<Key, Placement<S>>, dropped: nat)
    requires DroppedTo(was, s, {}, now, dropped)
    ensures now == was - BlocksIn(was, s) && dropped == |BlocksIn(was, s)|
  {
    assert BlocksIn(was, s) - {} == BlocksIn(was, s);
  }

  lemma SlabsAreKnown<S>(t: Tier<S>)
    requires TierInv(t, {})
    ensures forall l :: l in t.slabs ==> t.slabs[l] in t.heap
  {
  }

  lemma PlacementsHold<S>(t: Tier<S>)
    requires TierInv(t, {})
    ensures PlacementInv(t)
  {
  }

  lemma SlotIsReady<S>(t: Tier<S>, s: S, slot: nat)
    requires TierInv(t, {(s, slot)})
    ensures s in t.heap && !t.heap[s].revoked && slot < |t.heap[s].data| && |t.heap[s].data[slot]| == t.block
  {
    assert (s, slot) in {(s, slot)};
  }

  lemma {:induction false} PutAllKeepsInv<S>(t: Tier<S>, s: S, slot: nat, bytes: Bytes, n: nat)
    requires TierInv(t, {(s, slot)}) && n <= |bytes|
    ensures TierInv(TierRuns.PutAll(t, s, slot, bytes, n), {(s, slot)})
  {
    hide TierInv;
    if n > 0 {
      PutAllKeepsInv(t, s, slot, bytes, n - 1);
      PutByteKeepsInv(TierRuns.PutAll(t, s, slot, bytes, n - 1), s, slot, n - 1, bytes[n - 1], {(s, slot)});
    }
  }
}
