/** One literal run of checkpoint staging: a node starts, and one checkpoint of one
    byte is staged on it. */
module StagedRun {
  import opened Common
  import opened Leases
  import opened LeaseManager
  import opened AgentRuns
  import opened AgentClass
  import opened StagingRuns
  import opened StagingClass
  import opened StagingSteps
  import GrantPromise
  import ReclaimHistory
  import RegrantRace

  /** While nobody is staging, a run of the agent is a run of moves. */
  lemma {:induction false} LiftIdle(s: Sys, es: seq<Event>)
    requires s.calls == map[] && AgentRuns.IsRun(s.agent, es)
    ensures StagingRuns.IsRun(s, Lifted(es))
    ensures End(s, Lifted(es)).agent == After(s.agent, es) && End(s, Lifted(es)).calls == map[]
    decreases |es|
  {
    hide Enabled, Step;
    if es != [] {
      var front, e := es[..|es| - 1], es[|es| - 1];
      LiftIdle(s, front);
      hide StagingRuns.IsRun, End;
      ExtendMoves(s, Lifted(front), Agent(e));
    }
  }

  const ASKED: Request := Request("a", "", "d", 1)

  const FAIR: Luck := Luck(Saved, true, AllocStep.Reserved, Saved, true, true, true, false, Unlinked, Saved)

  function Idle(agent: St): Sys {
    Sys(agent, map[], map[], map[], map[])
  }

  lemma BeginsOn(s: Sys)
    requires RegrantRace.At(s.agent, false, {}, map[], 3) && s.calls == map[]
    ensures Can(s, Begin(ASKED, [7], 100, 0, Saved)) && Grants(s, ASKED, 100, 0, FAIR)
  {
    var m := s.agent.node.mgr;
    RoomForIt(m);
    RegrantRace.NameIsValid();
    AcceptsIt(m);
    hide GuaranteedFree, Accept;
    assert Unthreatened(s.agent, "a", -1);
  }

  lemma RoomForIt(m: Mgr)
    requires m == RegrantRace.Holding(false)
    ensures Allowed(1, GuaranteedFree(m))
  {
    assert GuaranteedOf(m.leases) == map[];
    assert MgrInv(m) by {
      forall t ensures OfTenant(m.leases, t) == map[] && GuaranteedOf(OfTenant(m.leases, t)) == map[] {
        assert OfTenant(m.leases, t) == map[];
      }
    }
    AllowedFits(m, 1);
  }

  lemma AcceptsIt(m: Mgr)
    requires m == RegrantRace.Holding(false)
    ensures Accept(m, LeaseFor(ASKED, 100), 0, Saved).1.None?
  {
    assert ReclaimHistory.Prune(m.cfg.policy, [], 0) == [];
    assert GuaranteedOf(m.leases) == map[];
    assert Lend(m.acct, 1) == Some(Accounting(10, 0, 1));
  }

  /** The promise to a staged checkpoint is not empty: a run from a fresh start reaches
      a call that has staged its bytes within its term. */
  lemma ACheckpointIsStaged() returns (ms: seq<Move>, k: nat)
    ensures var s := Idle(RegrantRace.Start());
      && Started(s) && StagingRuns.IsRun(s, ms)
      && var u := End(s, ms);
        k in u.calls && u.calls[k].at == Staged && u.calls[k].src == [7] && !Expired(u.calls[k].g, u.agent.node.now)
  {
    var s := Idle(RegrantRace.Start());
    RegrantRace.FirstGrantIsPromised();
    RegrantRace.BootsUp();
    LiftIdle(s, RegrantRace.BootRun());
    ms := Lifted(RegrantRace.BootRun());
    var up := End(s, ms);
    hide AgentRuns.IsRun, StagingRuns.IsRun, End, After, Can, SysInv, Grants;
    StagingRuns.RunKeepsInv(s, ms);
    BeginsOn(up);
    var more := StageIsMoves(up, ASKED, StagedAck, [7], 100, 0, FAIR);
    MovesConcat(s, ms, more);
    ms, k := ms + more, up.agent.steps;
  }
}
