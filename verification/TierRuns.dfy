/** The fast tier under every interleaving.

    Read drops the mutex between looking a block up and rechecking it, so its
    unlocked half is a sequence of steps of its own here, one byte at a time.
    Admit holds the mutex while it writes, but an unlocked reader sees the file
    underneath it, so the write is one byte at a time too. Whatever needs the
    mutex waits for a write in progress; the unlocked steps do not. */
module TierRuns {
  import opened Common
  import opened FastTier

  datatype Reader<S> =
    | Opening(k: Key, p: Placement<S>)
    | Reading(k: Key, p: Placement<S>, got: Bytes)
    | Failed(k: Key, p: Placement<S>)

  /** An Admit that has taken a slot and is writing into it. */
  datatype Write<S> = Write(k: Key, data: Bytes, slab: S, slot: nat, done: nat)

  /** What one generation stands for. */
  datatype Admission = Admission(key: Key, data: Bytes)

  datatype Sys<S> = Sys(
    tier: Tier<S>,
    writing: Option<Write<S>>,
    readers: map<nat, Reader<S>>,
    log: map<nat, Admission>) // every admission so far, by generation

  datatype Event<S> =
    | AddSlab(lease: string, slab: S, extent: seq<Bytes>)
    | RevokeLease(lease: string)
    | SetOrder(order: seq<string>)
    | Lookup(reader: nat, k: Key)
    | OpenSlot(reader: nat) // slab.read tests `revoked`
    | GetByte(reader: nat)
    | DeviceError(reader: nat)
    | Finish(reader: nat)
    | OfferBlock(k: Key, data: Bytes, prefetched: bool)
    | PutNext
    | WriteError
    | CommitBlock

  ghost function Out<S>(w: Option<Write<S>>): set<(S, nat)> {
    if w.Some? then {(w.value.slab, w.value.slot)} else {}
  }

  ghost predicate NeedsMutex<S>(e: Event<S>) {
    e.AddSlab? || e.RevokeLease? || e.SetOrder? || e.Lookup? || e.Finish? || e.OfferBlock?
  }

  ghost predicate InFlight<S>(st: Sys<S>, r: nat) {
    && r in st.readers && st.readers[r].p.slab in st.tier.heap
    && var b := st.tier.heap[st.readers[r].p.slab];
       st.readers[r].p.slot < |b.data| && st.readers[r].p.length <= |b.data[st.readers[r].p.slot]|
  }

  ghost predicate Enabled<S>(st: Sys<S>, e: Event<S>) {
    && (NeedsMutex(e) ==> st.writing.None?)
    && (forall k :: k in st.tier.resident ==> st.tier.resident[k].slab in st.tier.heap)
    && match e
       case AddSlab(lease, slab, data) =>
         slab !in st.tier.heap && forall i :: 0 <= i < |data| ==> |data[i]| == st.tier.block
       case RevokeLease(lease) => lease in st.tier.slabs ==> st.tier.slabs[lease] in st.tier.heap
       case SetOrder(_) => true
       case Lookup(r, _) => r !in st.readers
       case OpenSlot(r) => InFlight(st, r) && st.readers[r].Opening?
       case GetByte(r) => InFlight(st, r) && st.readers[r].Reading? && |st.readers[r].got| < st.readers[r].p.length
       case DeviceError(r) => InFlight(st, r)
       case Finish(r) =>
         && InFlight(st, r)
         && (st.readers[r].Failed? || (st.readers[r].Reading? && |st.readers[r].got| == st.readers[r].p.length))
       case OfferBlock(_, _, _) => true
       case PutNext => st.writing.Some? && st.writing.value.done < |st.writing.value.data|
       case WriteError => st.writing.Some? && st.writing.value.slab in st.tier.heap
       case CommitBlock => st.writing.Some? && st.writing.value.done == |st.writing.value.data|
  }

  ghost function Answer<S>(r: Reader<S>): Option<Bytes> {
    if r.Reading? then Some(r.got) else None
  }

  ghost function Step<S>(st: Sys<S>, e: Event<S>): Sys<S>
    requires Enabled(st, e)
  {
    var t := st.tier;
    match e
    case AddSlab(lease, slab, data) => st.(tier := AddCapacity(t, lease, slab, data))
    case RevokeLease(lease) => st.(tier := Revoke(t, lease))
    case SetOrder(order) => st.(tier := t.(order := order))
    case Lookup(r, k) =>
      if k in t.resident then
        st.(tier := Touch(t, k), readers := st.readers[r := Opening(k, Touch(t, k).resident[k])])
      else st.(tier := Miss(t))
    case OpenSlot(r) =>
      var rd := st.readers[r];
      st.(readers := st.readers[r := if t.heap[rd.p.slab].revoked then Failed(rd.k, rd.p) else Reading(rd.k, rd.p, [])])
    case GetByte(r) =>
      var rd := st.readers[r];
      st.(readers := st.readers[r := rd.(got := rd.got + [t.heap[rd.p.slab].data[rd.p.slot][|rd.got|]])])
    case DeviceError(r) =>
      st.(readers := st.readers[r := Failed(st.readers[r].k, st.readers[r].p)])
    case Finish(r) =>
      var rd := st.readers[r];
      st.(tier := Recheck(t, rd.k, rd.p, Answer(rd)).0, readers := st.readers - {r})
    case OfferBlock(k, data, prefetched) =>
      var (u, o) := Offer(t, k, data, prefetched);
      st.(tier := u, writing := if o.Writing? then Some(Write(k, data, o.slab, o.slot, 0)) else None)
    case PutNext =>
      var w := st.writing.value;
      st.(tier := PutByte(t, w.slab, w.slot, w.done, w.data[w.done]), writing := Some(w.(done := w.done + 1)))
    case WriteError =>
      st.(tier := ReleaseSlot(t, st.writing.value.slab, st.writing.value.slot), writing := None)
    case CommitBlock =>
      var w := st.writing.value;
      st.(tier := Commit(t, w.k, w.data, w.slab, w.slot),
          writing := None,
          log := st.log[t.generation + 1 := Admission(w.k, w.data)])
  }

  /** What Read returns to the caller of reader r when it finishes. */
  ghost function Returned<S>(st: Sys<S>, r: nat): Option<Bytes>
    requires Enabled(st, Finish(r))
  {
    Recheck(st.tier, st.readers[r].k, st.readers[r].p, Answer(st.readers[r])).1
  }

  // ---- The invariant of every reachable state ----

  ghost predicate Holds<S>(t: Tier<S>, p: Placement<S>, data: Bytes) {
    && p.slab in t.heap && p.slot < |t.heap[p.slab].data| && p.length <= |t.heap[p.slab].data[p.slot]|
    && t.heap[p.slab].data[p.slot][..p.length] == data
  }

  /** Every resident block's slot holds the bytes its generation was admitted with. */
  ghost predicate ContentInv<S>(t: Tier<S>, log: map<nat, Admission>) {
    forall k :: k in t.resident ==>
      t.resident[k].gen in log && log[t.resident[k].gen].key == k &&
        Holds(t, t.resident[k], log[t.resident[k].gen].data)
  }

  ghost predicate WriteInv<S>(t: Tier<S>, w: Option<Write<S>>) {
    w.Some? ==>
      && w.value.k !in t.resident && |w.value.data| <= t.block && w.value.done <= |w.value.data|
      && Holds(t, Placement(w.value.slab, w.value.slot, w.value.done, 0, 0), w.value.data[..w.value.done])
  }

  ghost predicate SamePlace<S>(p: Placement<S>, q: Placement<S>) {
    p.slab == q.slab && p.slot == q.slot && p.length == q.length
  }

  /** While the occupancy a reader looked up lasts, what it has read so far is a
      prefix of that occupancy's bytes. */
  ghost predicate ReaderInv<S>(t: Tier<S>, log: map<nat, Admission>, r: Reader<S>) {
    && r.p.gen in log && log[r.p.gen].key == r.k && |log[r.p.gen].data| == r.p.length
    && r.p.slab in t.heap && r.p.slot < t.heap[r.p.slab].slots && r.p.length <= t.block
    && (r.Reading? ==> |r.got| <= r.p.length)
    && (r.k in t.resident && t.resident[r.k].gen == r.p.gen ==>
          && SamePlace(t.resident[r.k], r.p)
          && (r.Reading? ==> r.got == log[r.p.gen].data[..|r.got|]))
  }

  ghost predicate SysInv<S>(st: Sys<S>) {
    && TierInv(st.tier, Out(st.writing))
    && (forall g :: g in st.log ==> 1 <= g <= st.tier.generation)
    && ContentInv(st.tier, st.log)
    && WriteInv(st.tier, st.writing)
    && forall r :: r in st.readers ==> ReaderInv(st.tier, st.log, st.readers[r])
  }

  /** From t to u no old occupancy appears or moves: generations never repeat. */
  ghost predicate Carries<S>(t: Tier<S>, u: Tier<S>) {
    && u.block == t.block
    && (forall s :: s in t.heap ==> s in u.heap && u.heap[s].slots == t.heap[s].slots)
    && forall k :: k in u.resident && u.resident[k].gen <= t.generation ==>
        k in t.resident && t.resident[k].gen == u.resident[k].gen && SamePlace(t.resident[k], u.resident[k])
  }

  lemma ReadersCarry<S>(st: Sys<S>, u: Tier<S>, log: map<nat, Admission>, r: Reader<S>)
    requires ReaderInv(st.tier, st.log, r) && Carries(st.tier, u)
    requires forall g :: g in st.log ==> 1 <= g <= st.tier.generation && g in log && log[g] == st.log[g]
    ensures ReaderInv(u, log, r)
  {
  }

  /** A resident block's bytes survive any step that leaves its slot's bytes alone. */
  lemma ContentCarries<S>(t: Tier<S>, u: Tier<S>, log: map<nat, Admission>)
    requires ContentInv(t, log)
    requires forall k :: k in u.resident ==>
        && k in t.resident && u.resident[k].gen == t.resident[k].gen && SamePlace(u.resident[k], t.resident[k])
        && u.resident[k].slab in u.heap && u.heap[u.resident[k].slab].data == t.heap[u.resident[k].slab].data
    ensures ContentInv(u, log)
  {
    forall k | k in u.resident
      ensures u.resident[k].gen in log && log[u.resident[k].gen].key == k
      ensures Holds(u, u.resident[k], log[u.resident[k].gen].data)
    {
      assert Holds(t, t.resident[k], log[t.resident[k].gen].data);
    }
  }

  /** Steps of the mutex holder that neither write nor commit. */
  lemma QuietStepKeepsInv<S>(st: Sys<S>, u: Tier<S>)
    requires SysInv(st) && st.writing.None? && TierInv(u, {}) && Carries(st.tier, u)
    requires u.generation == st.tier.generation
    requires forall s :: s in st.tier.heap ==> s in u.heap && u.heap[s].data == st.tier.heap[s].data
    ensures SysInv(st.(tier := u))
  {
    hide SlotsInv, HeapInv;
    ContentCarries(st.tier, u, st.log);
    forall r | r in st.readers ensures ReaderInv(u, st.log, st.readers[r]) {
      ReadersCarry(st, u, st.log, st.readers[r]);
    }
  }

  lemma TouchMovesNothing<S>(t: Tier<S>, k: Key)
    requires k in t.resident
    ensures Carries(t, Touch(t, k))
  {
  }

  /** A reader that has just looked a block up has read nothing wrong yet. */
  lemma NewReaderInv<S>(st: Sys<S>, k: Key)
    requires SysInv(st) && k in st.tier.resident
    ensures ReaderInv(st.tier, st.log, Opening(k, st.tier.resident[k]))
  {
    hide SlotsInv, HeapInv;
    assert Holds(st.tier, st.tier.resident[k], st.log[st.tier.resident[k].gen].data);
    assert InSlab(st.tier.block, st.tier.heap, st.tier.resident[k]);
  }

  lemma MissKeepsInv<S>(t: Tier<S>)
    requires TierInv(t, {})
    ensures TierInv(Miss(t), {})
  {
  }

  lemma LookupKeepsInv<S>(st: Sys<S>, r: nat, k: Key)
    requires SysInv(st) && Enabled(st, Lookup(r, k))
    ensures SysInv(Step(st, Lookup(r, k)))
  {
    hide TierInv;
    if k in st.tier.resident {
      var u := Touch(st.tier, k);
      TouchKeepsInv(st.tier, k, {});
      TouchMovesNothing(st.tier, k);
      QuietStepKeepsInv(st, u);
      NewReaderInv(st.(tier := u), k);
    } else {
      MissKeepsInv(st.tier);
      QuietStepKeepsInv(st, Miss(st.tier));
    }
  }

  lemma UnlockedStepKeepsInv<S>(st: Sys<S>, e: Event<S>)
    requires SysInv(st) && Enabled(st, e) && (e.OpenSlot? || e.GetByte? || e.DeviceError?)
    ensures SysInv(Step(st, e))
  {
    hide TierInv;
    var u := Step(st, e);
    var rd := st.readers[e.reader];
    assert ReaderInv(st.tier, st.log, rd);
    if e.GetByte? && rd.k in st.tier.resident && st.tier.resident[rd.k].gen == rd.p.gen {
      // The looked-up occupancy still stands, so the byte comes from its slot.
      var data := st.log[rd.p.gen].data;
      assert Holds(st.tier, st.tier.resident[rd.k], data);
      var row := st.tier.heap[rd.p.slab].data[rd.p.slot];
      assert row[|rd.got|] == row[..rd.p.length][|rd.got|] == data[|rd.got|];
      assert u.readers[e.reader].got == data[..|rd.got| + 1];
    }
    assert ReaderInv(u.tier, u.log, u.readers[e.reader]);
  }

  lemma RecheckMovesNothing<S>(t: Tier<S>, k: Key, p: Placement<S>, got: Option<Bytes>)
    requires p.slab in t.heap
    ensures var u := Recheck(t, k, p, got).0;
      && Carries(t, u) && u.generation == t.generation
      && forall s :: s in t.heap ==> s in u.heap && u.heap[s].data == t.heap[s].data
  {
  }

  lemma FinishKeepsInv<S>(st: Sys<S>, r: nat)
    requires SysInv(st) && Enabled(st, Finish(r))
    ensures SysInv(Step(st, Finish(r)))
  {
    hide TierInv;
    var rd := st.readers[r];
    assert ReaderInv(st.tier, st.log, rd);
    RecheckKeepsInv(st.tier, rd.k, rd.p, Answer(rd));
    RecheckMovesNothing(st.tier, rd.k, rd.p, Answer(rd));
    hide Recheck;
    QuietStepKeepsInv(st, Recheck(st.tier, rd.k, rd.p, Answer(rd)).0);
  }

  lemma OfferKeepsSysInv<S>(st: Sys<S>, k: Key, data: Bytes, prefetched: bool)
    requires SysInv(st) && Enabled(st, OfferBlock(k, data, prefetched))
    ensures SysInv(Step(st, OfferBlock(k, data, prefetched)))
  {
    OfferKeepsInv(st.tier, k, data, prefetched);
    OfferMovesNothing(st.tier, k, data, prefetched);
    var (u, o) := Offer(st.tier, k, data, prefetched);
    ContentCarries(st.tier, u, st.log);
    forall r | r in st.readers ensures ReaderInv(u, st.log, st.readers[r]) {
      ReadersCarry(st, u, st.log, st.readers[r]);
    }
    if o.Writing? {
      assert (o.slab, o.slot) in {(o.slab, o.slot)};
      assert SlabShape(u.heap[o.slab], u.block);
    }
  }

  /** From t to u no block moves and no byte is written. */
  ghost predicate Still<S>(t: Tier<S>, u: Tier<S>) {
    && (forall s :: s in t.heap ==>
      s in u.heap && u.heap[s].data == t.heap[s].data && u.heap[s].slots == t.heap[s].slots)
    && (forall j :: j in u.resident ==> j in t.resident && u.resident[j] == t.resident[j])
  }

  lemma PlaceMovesNothing<S>(t: Tier<S>, prefetched: bool)
    requires TierInv(t, {})
    ensures Still(t, Place(t, prefetched).0)
  {
    ResidentsAreInHeap(t);
    hide TierInv, FirstTakeable, FirstHolding, Victim, TakeSlot, DropBlock, BlocksIn, Still;
    StillItself(t);
    var ready := FirstTakeable(t, t.order);
    if ready.Some? {
      TakeStill(t, t, ready.value);
    } else if !prefetched && FirstHolding(t, t.order).Some? {
      var v := Victim(t.resident, FirstHolding(t, t.order).value);
      VictimIsResident(t.resident, FirstHolding(t, t.order).value);
      DropStill(t, v);
      var e := DropBlock(t, v);
      var again := FirstTakeable(e, e.order);
      if again.Some? {
        TakeStill(t, e, again.value);
      }
    }
  }

  lemma StillItself<S>(t: Tier<S>)
    ensures Still(t, t)
  {
  }

  lemma TakeStill<S>(t: Tier<S>, u: Tier<S>, s: S)
    requires Still(t, u) && Takeable(u, s)
    ensures Still(t, TakeSlot(u, s))
  {
  }

  lemma DropStill<S>(t: Tier<S>, k: Key)
    requires k in t.resident && t.resident[k].slab in t.heap
    ensures Still(t, DropBlock(t, k))
  {
  }

  lemma VictimIsResident<S>(resident: map<Key, Placement<S>>, s: S)
    requires BlocksIn(resident, s) != {}
    ensures Victim(resident, s) in resident
  {
  }

  lemma OfferMovesNothing<S>(t: Tier<S>, k: Key, data: Bytes, prefetched: bool)
    requires TierInv(t, {})
    ensures Still(t, Offer(t, k, data, prefetched).0)
  {
    hide TierInv, Place;
    ResidentsAreInHeap(t);
    if |data| <= t.block && k !in t.resident {
      FirstReadKeepsInv(t, k);
      PlaceMovesNothing(if prefetched then t else t.(first := SawBefore(t.first, k).0), prefetched);
    }
  }

  /** A write lands in a slot no resident block owns, so it changes no block. */
  lemma PutLeavesContent<S>(t: Tier<S>, s: S, slot: nat, at: nat, b: Byte, log: map<nat, Admission>)
    requires ContentInv(t, log) && !Occupied(t.resident, s, slot)
    ensures ContentInv(PutByte(t, s, slot, at, b), log)
  {
    var u := PutByte(t, s, slot, at, b);
    forall k | k in u.resident
      ensures u.resident[k].gen in log && log[u.resident[k].gen].key == k
      ensures Holds(u, u.resident[k], log[u.resident[k].gen].data)
    {
      assert Holds(t, t.resident[k], log[t.resident[k].gen].data);
    }
  }

  lemma PutExtendsWrite<S>(t: Tier<S>, w: Write<S>)
    requires WriteInv(t, Some(w)) && w.done < |w.data| && w.slab in t.heap && SlabShape(t.heap[w.slab], t.block)
    ensures WriteInv(PutByte(t, w.slab, w.slot, w.done, w.data[w.done]), Some(w.(done := w.done + 1)))
  {
    var row := t.heap[w.slab].data[w.slot];
    assert row[w.done := w.data[w.done]][..w.done + 1] == row[..w.done] + [w.data[w.done]];
    assert w.data[..w.done + 1] == w.data[..w.done] + [w.data[w.done]];
  }

  lemma PutMovesNothing<S>(t: Tier<S>, s: S, slot: nat, at: nat, b: Byte)
    ensures Carries(t, PutByte(t, s, slot, at, b)) && PutByte(t, s, slot, at, b).generation == t.generation
  {
  }

  lemma PutKeepsInv<S>(st: Sys<S>)
    requires SysInv(st) && Enabled(st, PutNext)
    ensures SysInv(Step(st, PutNext))
  {
    hide TierInv, PutByte, Offer, Recheck, AddCapacity, Revoke, Commit;
    var t, w := st.tier, st.writing.value;
    var u := Step(st, PutNext).tier;
    PutMovesNothing(t, w.slab, w.slot, w.done, w.data[w.done]);
    PutByteKeepsInv(t, w.slab, w.slot, w.done, w.data[w.done], Out(st.writing));
    WrittenSlotIsNobodys(st);
    PutLeavesContent(t, w.slab, w.slot, w.done, w.data[w.done], st.log);
    PutExtendsWrite(t, w);
    forall r | r in st.readers ensures ReaderInv(u, st.log, st.readers[r]) {
      ReadersCarry(st, u, st.log, st.readers[r]);
    }
  }

  lemma WrittenSlotIsNobodys<S>(st: Sys<S>)
    requires SysInv(st) && st.writing.Some?
    ensures var w := st.writing.value;
      !Occupied(st.tier.resident, w.slab, w.slot) && w.slab in st.tier.heap &&
        SlabShape(st.tier.heap[w.slab], st.tier.block)
  {
    assert (st.writing.value.slab, st.writing.value.slot) in Out(st.writing);
  }

  /** The new occupancy's generation is one nobody has seen. */
  lemma CommitLeavesContent<S>(st: Sys<S>)
    requires SysInv(st) && Enabled(st, CommitBlock)
    ensures ContentInv(Step(st, CommitBlock).tier, Step(st, CommitBlock).log)
    ensures Carries(st.tier, Step(st, CommitBlock).tier)
  {
    hide SlotsInv, HeapInv, FirstInv, Forget, PutByte, Offer, Recheck, AddCapacity, Revoke;
    var t, w := st.tier, st.writing.value;
    var st' := Step(st, CommitBlock);
    var u := st'.tier;
    forall k | k in u.resident
      ensures u.resident[k].gen in st'.log && st'.log[u.resident[k].gen].key == k
      ensures Holds(u, u.resident[k], st'.log[u.resident[k].gen].data)
    {
      if k != w.k {
        assert Holds(t, t.resident[k], st.log[t.resident[k].gen].data);
      } else {
        assert w.data[..|w.data|] == w.data;
      }
    }
  }

  lemma CommitKeepsSysInv<S>(st: Sys<S>)
    requires SysInv(st) && Enabled(st, CommitBlock)
    ensures SysInv(Step(st, CommitBlock))
  {
    hide TierInv, PutByte, Offer, Recheck, AddCapacity, Revoke, Forget, ContentInv, ReaderInv, Carries, Holds;
    var t, w := st.tier, st.writing.value;
    var st' := Step(st, CommitBlock);
    CommitKeepsInv(t, w.k, w.data, w.slab, w.slot);
    CommitLeavesContent(st);
    forall r | r in st.readers ensures ReaderInv(st'.tier, st'.log, st.readers[r]) {
      ReadersCarry(st, st'.tier, st'.log, st.readers[r]);
    }
  }

  lemma WriteErrorKeepsInv<S>(st: Sys<S>)
    requires SysInv(st) && Enabled(st, WriteError)
    ensures SysInv(Step(st, WriteError))
  {
    hide TierInv;
    var w := st.writing.value;
    ReleaseSlotKeepsInv(st.tier, w.slab, w.slot);
    ResidentsHaveSlabs(st);
    var u := ReleaseSlot(st.tier, w.slab, w.slot);
    ContentCarries(st.tier, u, st.log);
    forall r | r in st.readers ensures ReaderInv(u, st.log, st.readers[r]) {
      ReadersCarry(st, u, st.log, st.readers[r]);
    }
  }

  lemma ReorderKeepsInv<S>(t: Tier<S>, order: seq<string>)
    requires TierInv(t, {})
    ensures TierInv(t.(order := order), {})
  {
  }

  lemma QuietEventKeepsInv<S>(st: Sys<S>, e: Event<S>)
    requires SysInv(st) && Enabled(st, e) && (e.AddSlab? || e.RevokeLease? || e.SetOrder?)
    ensures SysInv(Step(st, e))
  {
    hide TierInv, ContentInv, ReaderInv, WriteInv;
    match e
    case AddSlab(lease, slab, data) =>
      AddCapacityKeepsInv(st.tier, lease, slab, data);
      QuietStepKeepsInv(st, AddCapacity(st.tier, lease, slab, data));
    case RevokeLease(lease) =>
      RevokeKeepsInv(st.tier, lease);
      QuietStepKeepsInv(st, Revoke(st.tier, lease));
    case SetOrder(order) =>
      ReorderKeepsInv(st.tier, order);
      QuietStepKeepsInv(st, st.tier.(order := order));
  }

  lemma StepKeepsInv<S>(st: Sys<S>, e: Event<S>)
    requires SysInv(st) && Enabled(st, e)
    ensures SysInv(Step(st, e))
  {
    hide SysInv, Enabled, Step;
    match e
    case AddSlab(_, _, _) => QuietEventKeepsInv(st, e);
    case RevokeLease(_) => QuietEventKeepsInv(st, e);
    case SetOrder(_) => QuietEventKeepsInv(st, e);
    case Lookup(r, k) => LookupKeepsInv(st, r, k);
    case OpenSlot(_) => UnlockedStepKeepsInv(st, e);
    case GetByte(_) => UnlockedStepKeepsInv(st, e);
    case DeviceError(_) => UnlockedStepKeepsInv(st, e);
    case Finish(r) => FinishKeepsInv(st, r);
    case OfferBlock(k, data, prefetched) => OfferKeepsSysInv(st, k, data, prefetched);
    case PutNext => PutKeepsInv(st);
    case WriteError => WriteErrorKeepsInv(st);
    case CommitBlock => CommitKeepsSysInv(st);
  }

  // ---- Whole runs ----

  ghost predicate Init<S>(st: Sys<S>) {
    exists block: nat, limit: nat :: st == Sys(Empty<S>(block, limit), None, map[], map[])
  }

  datatype Run<S> = Run(states: seq<Sys<S>>, events: seq<Event<S>>)

  ghost predicate IsRun<S>(run: Run<S>) {
    && |run.states| == |run.events| + 1 && Init(run.states[0])
    && forall i :: 0 <= i < |run.events| ==>
         Enabled(run.states[i], run.events[i]) && run.states[i + 1] == Step(run.states[i], run.events[i])
  }

  lemma RunStep<S>(run: Run<S>, i: nat)
    requires IsRun(run) && i + 1 < |run.states|
    ensures |run.states| == |run.events| + 1
    ensures Enabled(run.states[i], run.events[i]) && run.states[i + 1] == Step(run.states[i], run.events[i])
  {
  }

  /** Slot conservation and every other part of the invariant, in every state
      every interleaving reaches. */
  lemma {:induction false} EveryReachableStateKeepsInv<S>(run: Run<S>, i: nat)
    requires IsRun(run) && i < |run.states|
    ensures SysInv(run.states[i])
  {
    if i == 0 {
      var block, limit: nat :| run.states[0] == Sys(Empty<S>(block, limit), None, map[], map[]);
      InitKeepsInv<S>(block, limit);
    } else {
      EveryReachableStateKeepsInv(run, i - 1);
      StepKeepsInv(run.states[i - 1], run.events[i - 1]);
    }
  }

  /** Step c commits the admission that generation g stands for. */
  ghost predicate CommittedAt<S>(run: Run<S>, c: int, g: nat, k: Key, data: Bytes) {
    && 0 <= c < |run.events| && |run.states| == |run.events| + 1
    && run.events[c].CommitBlock? && run.states[c].writing.Some?
    && run.states[c].writing.value.k == k && run.states[c].writing.value.data == data
    && k in run.states[c + 1].tier.resident && run.states[c + 1].tier.resident[k].gen == g
  }

  /** Step a is the Admit call whose write is in progress in state i. */
  ghost predicate OfferedAt<S>(run: Run<S>, a: int, k: Key, data: Bytes) {
    0 <= a < |run.events| && run.events[a].OfferBlock? && run.events[a].k == k && run.events[a].data == data
  }

  /** What a step does to the write in progress and to the log. */
  lemma StepFrame<S>(st: Sys<S>, e: Event<S>)
    requires Enabled(st, e)
    ensures var u := Step(st, e);
      && (u.writing.Some? ==>
            if e.OfferBlock? then
              && u.writing.value.k == e.k && u.writing.value.data == e.data
              && Offer(st.tier, e.k, e.data, e.prefetched).1.Writing?
            else
              && st.writing.Some? && u.writing.value.k == st.writing.value.k
              && u.writing.value.data == st.writing.value.data)
      && (u.log != st.log ==> e.CommitBlock?)
      && (e.CommitBlock? ==>
            u.log == st.log[st.tier.generation + 1 := Admission(st.writing.value.k, st.writing.value.data)])
  {
    hide Offer, Recheck, AddCapacity, Revoke, PutByte, Commit;
  }

  lemma {:induction false} WriteHasAnOffer<S>(run: Run<S>, i: nat) returns (a: int)
    requires IsRun(run) && i < |run.states| && run.states[i].writing.Some?
    ensures a < i && OfferedAt(run, a, run.states[i].writing.value.k, run.states[i].writing.value.data)
  {
    hide Step, Enabled;
    assert i > 0;
    StepFrame(run.states[i - 1], run.events[i - 1]);
    var e := run.events[i - 1];
    if e.OfferBlock? {
      a := i - 1;
    } else {
      a := WriteHasAnOffer(run, i - 1);
    }
  }

  lemma {:induction false} LogHasACommit<S>(run: Run<S>, i: nat, g: nat) returns (c: int)
    requires IsRun(run) && i < |run.states| && g in run.states[i].log
    ensures c < i && CommittedAt(run, c, g, run.states[i].log[g].key, run.states[i].log[g].data)
  {
    assert i > 0;
    if g in run.states[i - 1].log && run.states[i - 1].log[g] == run.states[i].log[g] {
      c := LogHasACommit(run, i - 1, g);
    } else {
      c := i - 1;
    }
  }

  /** Step l is the locked lookup that gave reader r the placement p. */
  ghost predicate LookedUpAt<S>(run: Run<S>, l: int, r: nat, k: Key, g: nat) {
    && 0 <= l < |run.events| && l < |run.states| && run.events[l] == Lookup(r, k)
    && k in run.states[l].tier.resident && run.states[l].tier.resident[k].gen == g
  }

  /** A reader in flight was in flight before, for the same occupancy, unless this
      step looked it up. */
  lemma StepReaders<S>(st: Sys<S>, e: Event<S>, r: nat)
    requires Enabled(st, e) && r in Step(st, e).readers
    ensures var u := Step(st, e).readers[r];
      if r in st.readers then u.k == st.readers[r].k && u.p == st.readers[r].p
      else e == Lookup(r, u.k) && u.k in st.tier.resident && u.p.gen == st.tier.resident[u.k].gen
  {
    hide Offer, Recheck, AddCapacity, Revoke, PutByte, Commit;
  }

  lemma {:induction false} ReaderHasALookup<S>(run: Run<S>, i: nat, r: nat) returns (l: int)
    requires IsRun(run) && i < |run.states| && r in run.states[i].readers
    ensures l < i && LookedUpAt(run, l, r, run.states[i].readers[r].k, run.states[i].readers[r].p.gen)
  {
    hide Step, Enabled;
    assert i > 0;
    StepReaders(run.states[i - 1], run.events[i - 1], r);
    if r in run.states[i - 1].readers {
      l := ReaderHasALookup(run, i - 1, r);
    } else {
      l := i - 1;
    }
  }

  /** A hit is exact. In every interleaving, when a Read of k returns bytes they
      are the bytes of the one Admit of k that made the occupancy the Read
      looked up: that Admit's offer, its commit and the lookup come in this order
      before the answer, and the commit's generation is the one looked up. */
  lemma HitReturnsTheAdmittedBytes<S>(run: Run<S>, i: nat, r: nat)
    returns (offer: int, commit: int, lookup: int)
    requires IsRun(run) && i < |run.events| && run.events[i] == Finish(r)
    requires Returned(run.states[i], r).Some?
    ensures var k, p, bytes := run.states[i].readers[r].k, run.states[i].readers[r].p, Returned(run.states[i], r).value;
      && offer < commit < lookup < i
      && OfferedAt(run, offer, k, bytes)
      && CommittedAt(run, commit, p.gen, k, bytes)
      && LookedUpAt(run, lookup, r, k, p.gen)
  {
    hide TierInv;
    var st := run.states[i];
    EveryReachableStateKeepsInv(run, i);
    assert ReaderInv(st.tier, st.log, st.readers[r]);
    var bytes := Returned(st, r).value;
    assert bytes == st.log[st.readers[r].p.gen].data;
    lookup := ReaderHasALookup(run, i, r);
    EveryReachableStateKeepsInv(run, lookup);
    assert st.readers[r].p.gen in run.states[lookup].log;
    LogOnlyGrows(run, lookup, i, st.readers[r].p.gen);
    commit := LogHasACommit(run, lookup, st.readers[r].p.gen);
    offer := WriteHasAnOffer(run, commit);
  }

  /** Generations never repeat, so an admission is never written over. */
  lemma StepKeepsLog<S>(st: Sys<S>, e: Event<S>, g: nat)
    requires SysInv(st) && Enabled(st, e) && g in st.log
    ensures g in Step(st, e).log && Step(st, e).log[g] == st.log[g]
  {
    hide Step, Enabled, TierInv;
    StepFrame(st, e);
  }

  lemma {:induction false} LogOnlyGrows<S>(run: Run<S>, i: nat, j: nat, g: nat)
    requires IsRun(run) && i <= j < |run.states| && g in run.states[i].log
    ensures g in run.states[j].log && run.states[j].log[g] == run.states[i].log[g]
    decreases j - i
  {
    hide *;
    if i < j {
      LogOnlyGrows(run, i, j - 1, g);
      EveryReachableStateKeepsInv(run, j - 1);
      RunStep(run, j - 1);
      StepKeepsLog(run.states[j - 1], run.events[j - 1], g);
    }
  }

  /** Until an Admit in progress ends, and as it ends, no block goes or moves. */
  lemma WritingRemovesNothing<S>(st: Sys<S>, e: Event<S>)
    requires SysInv(st) && Enabled(st, e) && st.writing.Some?
    ensures forall k :: k in st.tier.resident ==>
      k in Step(st, e).tier.resident && Step(st, e).tier.resident[k] == st.tier.resident[k]
  {
    WritingIsAway(st);
    hide SysInv, Offer, Recheck, AddCapacity, Revoke, Forget, PutByte, ReleaseSlot;
    if e.PutNext? {
      var w := st.writing.value;
      BytesMoveNothing(st.tier, w.slab, w.slot, w.done, w.data[w.done]);
    } else if e.WriteError? {
      SlotMovesNothing(st.tier, st.writing.value.slab, st.writing.value.slot);
    }
  }

  lemma BytesMoveNothing<S>(t: Tier<S>, s: S, slot: nat, at: nat, b: Byte)
    ensures PutByte(t, s, slot, at, b).resident == t.resident
  {
  }

  lemma SlotMovesNothing<S>(t: Tier<S>, s: S, slot: nat)
    requires s in t.heap
    ensures ReleaseSlot(t, s, slot).resident == t.resident
  {
  }

  lemma OfferedPrefetch<S>(st: Sys<S>, e: Event<S>)
    requires SysInv(st) && Enabled(st, e) && e.OfferBlock? && e.prefetched
    ensures Step(st, e).tier.resident == st.tier.resident
  {
    OfferKeepsInv(st.tier, e.k, e.data, true);
    hide Offer, TierInv;
  }

  /** A prediction never costs a resident block: from its offer to the end of the Admit,
      with any unlocked steps of readers in between, every block resident before stays
      resident where it was. */
  lemma {:induction false} PrefetchRemovesNothing<S>(run: Run<S>, i: nat, j: nat, k: Key)
    requires IsRun(run) && i < j < |run.states| && run.events[i].OfferBlock? && run.events[i].prefetched
    requires forall m :: i < m < j ==> run.states[m].writing.Some?
    requires k in run.states[i].tier.resident
    ensures k in run.states[j].tier.resident && run.states[j].tier.resident[k] == run.states[i].tier.resident[k]
    decreases j - i
  {
    hide Step, Enabled, SysInv;
    EveryReachableStateKeepsInv(run, j - 1);
    RunStep(run, j - 1);
    if i == j - 1 {
      OfferedPrefetch(run.states[i], run.events[i]);
    } else {
      PrefetchRemovesNothing(run, i, j - 1, k);
      WritingRemovesNothing(run.states[j - 1], run.events[j - 1]);
    }
  }

  // ---- Admission on the second offer ----

  ghost predicate DemandOnly<S>(run: Run<S>) {
    forall i :: 0 <= i < |run.events| && run.events[i].OfferBlock? ==> !run.events[i].prefetched
  }

  ghost predicate AwayBetween<S>(run: Run<S>, k: Key, i: int, j: int)
    requires 0 <= i <= j < |run.states|
  {
    forall m :: i <= m <= j ==> k !in run.states[m].tier.resident
  }

  /** A key in the record of first reads was offered once and not resident since. */
  lemma {:induction false} SeenWasOffered<S>(run: Run<S>, i: nat, k: Key) returns (a: int)
    requires IsRun(run) && i < |run.states| && k in run.states[i].tier.first.seen
    ensures 0 <= a < i && run.events[a].OfferBlock? && run.events[a].k == k && AwayBetween(run, k, a, i)
  {
    EveryReachableStateKeepsInv(run, i);
    assert k !in run.states[i].tier.resident;
    assert i > 0;
    EveryReachableStateKeepsInv(run, i - 1);
    SeenGrowsByOffers(run.states[i - 1], run.events[i - 1], k);
    if k in run.states[i - 1].tier.first.seen {
      a := SeenWasOffered(run, i - 1, k);
    } else {
      a := i - 1;
    }
  }

  lemma SeenGrowsByOffers<S>(st: Sys<S>, e: Event<S>, k: Key)
    requires SysInv(st) && Enabled(st, e) && k in Step(st, e).tier.first.seen
    ensures k in st.tier.first.seen || (e.OfferBlock? && e.k == k && k !in st.tier.resident)
  {
    if e.OfferBlock? {
      OfferKeepsInv(st.tier, e.k, e.data, e.prefetched);
      OfferedAlready(st.tier, e.k, e.data, e.prefetched);
    } else if e.CommitBlock? {
      ForgetOnly(st.tier.first, st.writing.value.k);
    }
    hide SysInv, Offer, Recheck, AddCapacity, Revoke, PutByte, Forget;
    if e.Finish? {
      RecheckRecords(st.tier, st.readers[e.reader].k, st.readers[e.reader].p, Answer(st.readers[e.reader]));
    } else if e.AddSlab? || e.RevokeLease? || e.PutNext? {
      QuietRecords(st, e);
    }
  }

  lemma OfferedAlready<S>(t: Tier<S>, k: Key, data: Bytes, prefetched: bool)
    requires TierInv(t, {})
    ensures k in t.resident ==> Offer(t, k, data, prefetched).0 == t
  {
    ResidentsAreInHeap(t);
    hide Place;
  }

  lemma ForgetOnly(f: First, k: Key)
    ensures Forget(f, k).seen <= f.seen
  {
  }

  lemma RecheckRecords<S>(t: Tier<S>, k: Key, p: Placement<S>, got: Option<Bytes>)
    requires p.slab in t.heap
    ensures Recheck(t, k, p, got).0.first == t.first
  {
  }

  lemma QuietRecords<S>(st: Sys<S>, e: Event<S>)
    requires Enabled(st, e) && (e.AddSlab? || e.RevokeLease? || e.PutNext?)
    ensures Step(st, e).tier.first == st.tier.first
  {
    hide Offer, Recheck;
  }

  /** Where only demand offers blocks, a block becomes resident on no fewer than
      two offers since it was last resident. */
  lemma ResidentOnlyAfterTwoOffers<S>(run: Run<S>, c: nat) returns (first: int, second: int)
    requires IsRun(run) && DemandOnly(run) && c < |run.events| && run.events[c].CommitBlock?
    ensures var k := run.states[c].writing.value.k;
      && 0 <= first < second < c
      && run.events[first].OfferBlock? && run.events[first].k == k
      && run.events[second].OfferBlock? && run.events[second].k == k
      && AwayBetween(run, k, first, c)
  {
    var k := run.states[c].writing.value.k;
    second := AcceptedOffer(run, c);
    first := SeenWasOffered(run, second, k);
  }

  lemma AcceptedOfferWasSeen<S>(st: Sys<S>, k: Key, data: Bytes)
    requires SysInv(st) && Enabled(st, OfferBlock(k, data, false)) && Offer(st.tier, k, data, false).1.Writing?
    ensures k !in st.tier.resident && k in st.tier.first.seen
  {
    OfferKeepsInv(st.tier, k, data, false);
    hide Place, SawBefore, TierInv;
  }

  lemma WritingIsAway<S>(st: Sys<S>)
    requires SysInv(st) && st.writing.Some?
    ensures st.writing.value.k !in st.tier.resident
  {
    hide TierInv, ReaderInv, ContentInv;
  }

  /** The offer behind a write in progress found its key in the record, and the
      key has not been resident since. */
  lemma {:induction false} AcceptedOffer<S>(run: Run<S>, i: nat) returns (a: int)
    requires IsRun(run) && DemandOnly(run) && i < |run.states| && run.states[i].writing.Some?
    ensures var k := run.states[i].writing.value.k;
      && 0 <= a < i && run.events[a].OfferBlock? && run.events[a].k == k
      && k in run.states[a].tier.first.seen && AwayBetween(run, k, a, i)
  {
    hide SysInv, Step, Enabled, Offer;
    assert i > 0;
    EveryReachableStateKeepsInv(run, i);
    EveryReachableStateKeepsInv(run, i - 1);
    RunStep(run, i - 1);
    WritingIsAway(run.states[i]);
    var e := run.events[i - 1];
    StepFrame(run.states[i - 1], e);
    if e.OfferBlock? {
      AcceptedOfferWasSeen(run.states[i - 1], e.k, e.data);
      a := i - 1;
    } else {
      a := AcceptedOffer(run, i - 1);
    }
  }

  // ---- One Admit call, as the cache makes it under its mutex ----

  /** The first n bytes of a write have landed. */
  function PutAll<S>(t: Tier<S>, s: S, slot: nat, data: Bytes, n: nat): Tier<S>
    requires n <= |data|
  {
    if n == 0 then t else PutByte(PutAll(t, s, slot, data, n - 1), s, slot, n - 1, data[n - 1])
  }

  /** Admit from its call to its return; `landed` bytes reach the file before a
      write that fails. */
  ghost function Admit<S>(
    t: Tier<S>, k: Key, data: Bytes, prefetched: bool, ok: bool, landed: nat): (Tier<S>, Offered<S>)
    requires forall j :: j in t.resident ==> t.resident[j].slab in t.heap
    requires landed <= |data|
  {
    var (u, o) := Offer(t, k, data, prefetched);
    if !o.Writing? then (u, o)
    else if ok then (Commit(PutAll(u, o.slab, o.slot, data, |data|), k, data, o.slab, o.slot), o)
    else
      var w := PutAll(u, o.slab, o.slot, data, landed);
      (if o.slab in w.heap then ReleaseSlot(w, o.slab, o.slot) else w, o)
  }

  ghost function Puts<S>(st: Sys<S>, n: nat): Option<Sys<S>> {
    if n == 0 then Some(st)
    else
      var before := Puts(st, n - 1);
      if before.Some? && Enabled(before.value, PutNext) then Some(Step(before.value, PutNext)) else None
  }

  lemma {:induction false} PutsArePutAll<S>(st: Sys<S>, n: nat)
    requires SysInv(st) && st.writing.Some? && st.writing.value.done == 0 && n <= |st.writing.value.data|
    ensures var w := st.writing.value;
      && Puts(st, n) == Some(st.(tier := PutAll(st.tier, w.slab, w.slot, w.data, n), writing := Some(w.(done := n))))
      && SysInv(Puts(st, n).value)
  {
    hide SysInv, PutByte;
    if n > 0 {
      PutsArePutAll(st, n - 1);
      ResidentsHaveSlabs(Puts(st, n - 1).value);
      PutKeepsInv(Puts(st, n - 1).value);
      PutIsEnabled(Puts(st, n - 1).value);
      hide Enabled;
    }
  }

  lemma PutIsEnabled<S>(st: Sys<S>)
    requires SysInv(st) && st.writing.Some? && st.writing.value.done < |st.writing.value.data|
    ensures Enabled(st, PutNext)
  {
    ResidentsHaveSlabs(st);
    hide SysInv;
  }

  lemma ResidentsHaveSlabs<S>(st: Sys<S>)
    requires SysInv(st)
    ensures forall k :: k in st.tier.resident ==> st.tier.resident[k].slab in st.tier.heap
  {
  }

  /** An Admit nobody interleaves with is an offer, its bytes and a commit or a
      write error, each step enabled: the sequential cache only takes steps the
      interleaving model knows. */
  lemma AdmitIsSteps<S>(st: Sys<S>, k: Key, data: Bytes, prefetched: bool, ok: bool, landed: nat)
    requires SysInv(st) && st.writing.None? && landed <= |data|
    ensures Enabled(st, OfferBlock(k, data, prefetched))
    ensures var offered := Step(st, OfferBlock(k, data, prefetched));
      var end := Puts(offered, if ok then |data| else landed);
      var last := if ok then CommitBlock else WriteError;
      if offered.writing.None? then offered.tier == Admit(st.tier, k, data, prefetched, ok, landed).0
      else
        && end.Some? && Enabled(end.value, last)
        && Step(end.value, last).tier == Admit(st.tier, k, data, prefetched, ok, landed).0
        && SysInv(Step(end.value, last))
  {
    hide TierInv, Offer, PutByte, Commit;
    ResidentsHaveSlabs(st);
    OfferKeepsSysInv(st, k, data, prefetched);
    var offered := Step(st, OfferBlock(k, data, prefetched));
    if offered.writing.Some? {
      var n := if ok then |data| else landed;
      PutsArePutAll(offered, n);
      var end := Puts(offered, n).value;
      ResidentsHaveSlabs(end);
      WrittenSlotIsNobodys(end);
      StepKeepsInv(end, if ok then CommitBlock else WriteError);
    }
  }
}
