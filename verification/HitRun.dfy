/** One literal run of the fast tier: a block of one byte offered twice by demand,
    written, committed, looked up and read back. */
module HitRun {
  import opened Common
  import opened FastTier
  import opened TierRuns

  const BLOCK: Key := Key("t", BlockRef("b", "o", 0))

  /** A tier of one slab of one slot, which holds the byte b. */
  function OneSlot(
    free: seq<nat>, b: Byte, resident: map<Key, Placement<nat>>, first: First, stamp: nat, hits: nat): Tier<nat> {
    Tier(1, map[0 := SlabState("l", 1, free, false, [[b]])], map["l" := 0], ["l"], resident, first,
      stamp, if resident == map[] then 0 else 1, hits, 0)
  }

  function At(stamp: nat): Placement<nat> {
    Placement(0, 0, 1, stamp, 1)
  }

  function Log(): map<nat, Admission> {
    map[1 := Admission(BLOCK, [7])]
  }

  function Reads(rd: Reader<nat>): Sys<nat> {
    Sys(OneSlot([], 7, map[BLOCK := At(2)], First(1, [], {}), 2, 0), None, map[0 := rd], Log())
  }

  ghost function States(): seq<Sys<nat>> {
    [Sys(Empty(1, 1), None, map[], map[]),
     Sys(OneSlot([0], 0, map[], First(1, [], {}), 0, 0), None, map[], map[]),
     Sys(OneSlot([0], 0, map[], First(1, [BLOCK], {BLOCK}), 0, 0), None, map[], map[]),
     Sys(OneSlot([], 0, map[], First(1, [BLOCK], {BLOCK}), 0, 0), Some(Write(BLOCK, [7], 0, 0, 0)), map[], map[]),
     Sys(OneSlot([], 7, map[], First(1, [BLOCK], {BLOCK}), 0, 0), Some(Write(BLOCK, [7], 0, 0, 1)), map[], map[]),
     Sys(OneSlot([], 7, map[BLOCK := At(1)], First(1, [], {}), 1, 0), None, map[], Log()),
     Reads(Opening(BLOCK, At(2))),
     Reads(Reading(BLOCK, At(2), [])),
     Reads(Reading(BLOCK, At(2), [7])),
     Sys(OneSlot([], 7, map[BLOCK := At(2)], First(1, [], {}), 2, 1), None, map[], Log())]
  }

  ghost function Events(): seq<Event<nat>> {
    [AddSlab("l", 0, [[0]]), OfferBlock(BLOCK, [7], false), OfferBlock(BLOCK, [7], false), PutNext, CommitBlock,
     Lookup(0, BLOCK), OpenSlot(0), GetByte(0), Finish(0)]
  }

  ghost predicate Goes(i: nat)
    requires i < 9
  {
    Enabled(States()[i], Events()[i]) && States()[i + 1] == Step(States()[i], Events()[i])
  }

  lemma Adds()
    ensures Goes(0)
  {
    assert seq(1, i requires 0 <= i < 1 => 1 - 1 - i) == [0];
  }

  lemma OffersFirst()
    ensures Goes(1)
  {
  }

  lemma OffersAgain()
    ensures Goes(2)
  {
    var t := States()[2].tier;
    assert FirstTakeable(t, ["l"]) == Some(0);
    assert [0][..0] == [];
  }

  lemma Writes()
    ensures Goes(3)
  {
    var row: Bytes, data: seq<Bytes> := [0], [[0]];
    assert row[0 := 7] == [7] && data[0 := [7]] == [[7]];
  }

  lemma Commits()
    ensures Goes(4)
  {
    var none: map<Key, Placement<nat>> := map[];
    assert none[BLOCK := At(1)] == map[BLOCK := At(1)] && BLOCK in none[BLOCK := At(1)];
    assert Forget(First(1, [BLOCK], {BLOCK}), BLOCK) == First(1, [], {});
  }

  lemma LooksUp()
    ensures Goes(5)
  {
  }

  lemma Opens()
    ensures Goes(6)
  {
  }

  lemma Gets()
    ensures Goes(7)
  {
    var none: Bytes := [];
    assert none + [7] == [7];
  }

  lemma Finishes()
    ensures Goes(8) && Returned(States()[8], 0) == Some([7])
  {
  }

  /** The promises about hits and about admission are not empty: this is a run, only
      demand offers in it, a block is committed at step 4 and its read returns the byte
      it was offered with at step 8. */
  lemma ABlockIsAdmittedAndRead()
    ensures var run := Run(States(), Events());
      && IsRun(run) && DemandOnly(run) && run.events[4].CommitBlock?
      && run.events[8] == Finish(0) && Returned(run.states[8], 0) == Some([7])
  {
    AllGo();
    hide Enabled, Step, Goes;
    var run := Run(States(), Events());
    assert Init(run.states[0]);
    forall i | 0 <= i < |run.events|
      ensures Enabled(run.states[i], run.events[i]) && run.states[i + 1] == Step(run.states[i], run.events[i]) {
      Gone(i);
    }
    Finishes();
  }

  lemma Gone(i: nat)
    requires i < 9 && Goes(i)
    ensures Enabled(States()[i], Events()[i]) && States()[i + 1] == Step(States()[i], Events()[i])
  {
    hide Enabled, Step, States, Events;
  }

  lemma AllGo()
    ensures forall i: nat :: i < 9 ==> Goes(i)
  {
    hide Goes, Returned;
    Adds();
    OffersFirst();
    OffersAgain();
    Writes();
    Commits();
    LooksUp();
    Opens();
    Gets();
    Finishes();
  }
}
