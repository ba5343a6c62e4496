/** The cached read path closed: the tier's offers are the server's own, its hits are
    what reads get, and so reads are slices in every interleaving. */
module ReadRuns {
  import opened Common
  import opened FastTier
  import opened TierRuns
  import opened DataServer
  import Prefetch

  /** Where each object's bytes are. */
  type World = map<(string, string), Bytes>

  ghost predicate Fits(world: World, block: int) {
    block > 0 && forall x :: x in world ==> |world[x]| <= MAX_INT64 - block
  }

  ghost predicate IsBlockOf(world: World, block: int, k: Key, data: Bytes) {
    && (k.block.backend, k.block.obj) in world
    && IsBlock(world[(k.block.backend, k.block.obj)], block, k.block.index, data)
  }

  /** A run whose every Admit is one the data server makes: on demand, what blockAt and
      tailBySize offer of some object; as a prediction, what fetchOne does. */
  ghost predicate ServerRun<S>(run: Run<S>, world: World, block: int) {
    && IsRun(run) && Fits(world, block)
    && forall i :: 0 <= i < |run.events| && run.events[i].OfferBlock? ==> ServerOffer(world, block, run.events[i])
  }

  ghost predicate ServerOffer<S>(world: World, block: int, e: Event<S>)
    requires e.OfferBlock?
  {
    var x := (e.k.block.backend, e.k.block.obj);
    x in world &&
    if e.prefetched then PredictedOffer(world[x], block, e.k.block.index, e.data)
    else DemandOffer(world[x], block, e.k.block.index, e.data)
  }

  /** What the server offers under a name a read can ask for is that block. */
  lemma OffersAreHonest<S>(run: Run<S>, world: World, block: int, i: nat)
    requires ServerRun(run, world, block) && i < |run.events| && run.events[i].OfferBlock?
    requires Addressable(block, run.events[i].k.block.index)
    ensures IsBlockOf(world, block, run.events[i].k, run.events[i].data)
  {
    hide IsRun, DemandOffer, PredictedOffer;
    var e := run.events[i];
    var o := world[(e.k.block.backend, e.k.block.obj)];
    assert ServerOffer(world, block, e);
    if e.prefetched {
      PredictionIsHonestExactly(o, block, e.k.block.index, e.data);
    } else {
      DemandIsHonest(o, block, e.k.block.index, e.data);
    }
  }

  /** In every state of every such run, a resident block under a name a read can ask for
      is a whole block of its object or the exact tail, in its slot and in full. */
  lemma ResidentIsTheBlock<S>(run: Run<S>, world: World, block: int, i: nat, k: Key)
    requires ServerRun(run, world, block) && i < |run.states|
    requires k in run.states[i].tier.resident && Addressable(block, k.block.index)
    ensures var t := run.states[i].tier; var p := t.resident[k];
      exists data :: Holds(t, p, data) && |data| == p.length && IsBlockOf(world, block, k, data)
  {
    hide Step, Enabled, TierInv, ServerOffer, IsBlockOf;
    EveryReachableStateKeepsInv(run, i);
    var st := run.states[i];
    var gen := st.tier.resident[k].gen;
    assert gen in st.log && st.log[gen].key == k && Holds(st.tier, st.tier.resident[k], st.log[gen].data);
    var commit := LogHasACommit(run, i, gen);
    var offer := WriteHasAnOffer(run, commit);
    OffersAreHonest(run, world, block, offer);
  }

  /** And a hit is the block it was asked for. */
  lemma TierHitsAreFaithful<S>(run: Run<S>, world: World, block: int, i: nat, r: nat)
    requires ServerRun(run, world, block)
    requires i < |run.events| && run.events[i] == Finish(r) && Returned(run.states[i], r).Some?
    requires Addressable(block, run.states[i].readers[r].k.block.index)
    ensures IsBlockOf(world, block, run.states[i].readers[r].k, Returned(run.states[i], r).value)
  {
    hide Step, Enabled, ServerOffer, IsBlockOf;
    var offer, commit, lookup := HitReturnsTheAdmittedBytes(run, i, r);
    OffersAreHonest(run, world, block, offer);
  }

  // ---- Reads over a run ----

  /** This is what some Read of k returned in the run. */
  ghost predicate HitIn<S>(run: Run<S>, k: Key, data: Bytes)
    requires IsRun(run)
  {
    exists i, r :: HitAt(run, k, data, i, r)
  }

  ghost predicate HitAt<S>(run: Run<S>, k: Key, data: Bytes, i: int, r: nat)
    requires IsRun(run)
  {
    && 0 <= i < |run.events| && run.events[i] == Finish(r) && run.states[i].readers[r].k == k
    && Returned(run.states[i], r) == Some(data)
  }

  function KeyOf(tenant: string, backend: string, name: string, index: int): Key {
    Key(tenant, BlockRef(backend, name, index))
  }

  /** Every hit the read gets is one the tier gave in the run. */
  ghost predicate DrawnFrom<S>(run: Run<S>, tenant: string, backend: string, name: string, env: int -> Answers)
    requires IsRun(run)
  {
    forall i :: env(i).hit.Some? ==> HitIn(run, KeyOf(tenant, backend, name, i), env(i).hit.value)
  }

  lemma DrawnHitsAreFaithful<S>(
    run: Run<S>, world: World, block: int, tenant: string, backend: string, name: string, env: int -> Answers)
    requires ServerRun(run, world, block) && (backend, name) in world && DrawnFrom(run, tenant, backend, name, env)
    ensures forall i :: Addressable(block, i) ==> Faithful(world[(backend, name)], block, i, env(i))
  {
    hide Step, Enabled, ServerOffer, IsRun, Addressable;
    forall i | Addressable(block, i) ensures Faithful(world[(backend, name)], block, i, env(i)) {
      if env(i).hit.Some? {
        var k := KeyOf(tenant, backend, name, i);
        var j, r :| HitAt(run, k, env(i).hit.value, j, r);
        TierHitsAreFaithful(run, world, block, j, r);
      }
    }
  }

  /** The cached read path refines plain slicing: with hits drawn from any run of the
      tier that the server's own offers fill, whatever else happens in it and whatever
      fails, bytes that come back are the slice of the object; and what the read offers
      in turn is again an offer such a run may hold. */
  method ReadCached<S>(
    server: Server, ghost run: Run<S>, ghost world: World, tenant: string, backend: string, name: string,
    o: Bytes, offset: int, length: int, env: int -> Answers)
    returns (r: Result, offers: seq<(int, Bytes)>)
    requires server.Valid() && IsInt64(offset) && IsInt64(length)
    requires ServerRun(run, world, server.block) && (backend, name) in world && world[(backend, name)] == o
    requires DrawnFrom(run, tenant, backend, name, env)
    modifies server
    ensures r.Ok? && length > 0 ==> 0 <= offset && offset + length <= |o| && r.value == o[offset..offset + length]
    ensures r == Fail(ErrRange) ==> offset + length > |o|
    ensures r.Fail? ==> r.err != ErrContradiction && r.err != ErrAssembled
    ensures InBounds(tenant, name, offset, length, server.maxRead) && (forall i :: Smooth(env(i))) ==>
      if offset + length <= |o| then r.Ok? else r == Fail(ErrRange)
    ensures forall x :: x in offers ==>
      ServerOffer(world, server.block, Event<S>.OfferBlock(KeyOf(tenant, backend, name, x.0), x.1, false))
  {
    DrawnHitsAreFaithful(run, world, server.block, tenant, backend, name, env);
    hide ServerRun, DrawnFrom, DemandOffer, IsRun;
    assert |o| <= MAX_INT64 - server.block by {
      FitsOne(run, world, server.block, (backend, name));
    }
    r, offers := server.ReadRange(tenant, name, o, offset, length, env);
  }

  lemma FitsOne<S>(run: Run<S>, world: World, block: int, x: (string, string))
    requires ServerRun(run, world, block) && x in world
    ensures |world[x]| <= MAX_INT64 - block
  {
    hide IsRun;
  }

  // ---- The prediction that wraps ----

  function Defaults(): Prefetch.Config {
    Prefetch.Config(8, 3, 64, 0.5, 60_000_000_000)
  }

  /** Reads of blocks 0, 2^39 and 2^40, each of which a read can ask for. */
  function FarApart(): seq<Prefetch.Read> {
    [Prefetch.Read(0, 0), Prefetch.Read(0x80_0000_0000, 1), Prefetch.Read(0x100_0000_0000, 2)]
  }

  lemma TwoReads()
    ensures Prefetch.After(Defaults(), FarApart()[..2]) ==
      Prefetch.Stream(0x80_0000_0000, 0x80_0000_0000, 0, true, map[], [], false, 0)
  {
    var c, h := Defaults(), FarApart();
    var s0 := Prefetch.NewStream();
    assert h[..2][..1] == h[..1] && h[..1][..0] == [];
    NothingToJudge(c, s0, 0, 0);
    var s1 := Prefetch.Stream(0, 0, 0, true, map[], [], false, 0);
    assert Prefetch.After(c, h[..1]) == s1 by {
      NothingNoted(map[], 0);
    }
    NothingToJudge(c, s1, 0x80_0000_0000, 1);
    NothingNoted(map[], 1);
  }

  lemma NothingToJudge(c: Prefetch.Config, s: Prefetch.Stream, index: int, now: int)
    requires c.window > 0 && s.outstanding == map[]
    ensures Prefetch.Score(c, s, index, now) == s
  {
    assert Prefetch.Overdue(c, map[], now) == {};
    assert s.outstanding - {} == s.outstanding;
  }

  lemma NothingNoted(m: map<int, int>, now: int)
    ensures Prefetch.Noted(m, [], now) == m
  {
  }

  /** The detector predicts block 2^42 from them. */
  lemma FarBlockIsPredicted()
    ensures 0x400_0000_0000 in Prefetch.PredictedAt(Defaults(), FarApart())
  {
    var c, h := Defaults(), FarApart();
    TwoReads();
    var s := Prefetch.After(c, h[..2]);
    NothingToJudge(c, s, 0x100_0000_0000, 2);
    var t := Prefetch.Judged(c, s, 0x100_0000_0000, 2);
    assert t.stride == 0x80_0000_0000 && t.runs == 1 && Prefetch.Predicts(c, t) && t.outstanding == map[];
    Prefetch.AheadIsNew(0x100_0000_0000, t.stride, 1, 8, t.outstanding.Keys);
    assert Prefetch.NextAt(0x100_0000_0000, t.stride, 6) == 0x400_0000_0000;
  }

  /** And with 4 MiB blocks its fetch is of offset 0: the object's first block is offered
      to the tier under a name that is not its own, and that no read can ask for. */
  lemma WrappedPredictionOffersTheWrongBlock(o: Bytes)
    requires 0x40_0000 <= |o| <= MAX_INT64 - 0x40_0000
    ensures 0x400_0000_0000 in Prefetch.PredictedAt(Defaults(), FarApart())
    ensures forall i :: 0 <= i < 3 ==> Addressable(0x40_0000, FarApart()[i].index)
    ensures FetchOffer(o, 0x40_0000, 0x400_0000_0000, true) == Some(o[..0x40_0000])
    ensures !IsBlock(o, 0x40_0000, 0x400_0000_0000, o[..0x40_0000]) && !Addressable(0x40_0000, 0x400_0000_0000)
  {
    FarBlockIsPredicted();
    hide Prefetch.PredictedAt;
    assert Wrap64(0x400_0000_0000 * 0x40_0000) == 0;
    assert o[0..0x40_0000] == o[..0x40_0000];
    assert FetchOffer(o, 0x40_0000, 0x400_0000_0000, true) == Some(o[..0x40_0000]);
    assert PredictedOffer(o, 0x40_0000, 0x400_0000_0000, o[..0x40_0000]);
    PredictionIsHonestExactly(o, 0x40_0000, 0x400_0000_0000, o[..0x40_0000]);
  }
}
