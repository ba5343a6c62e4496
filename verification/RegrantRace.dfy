/** Literal runs behind the conditions on a grant's promise: a first grant meets them
    all, a start that cannot read the journal forgets it, and a name granted again
    while an older release of it is outstanding loses its extent. */
module RegrantRace {
  import opened Common
  import opened Leases
  import opened ReclaimHistory
  import opened LeaseManager
  import opened PoolNames
  import opened AgentRuns
  import opened GrantPromise
  import LeaseRuns

  function Lent(): Lease {
    Lease("a", "", OPPORTUNISTIC, 1, 0, 100)
  }

  function Settings(): Config {
    Config(Policy(0, 0, 0, false), 1, 10, Quota(0, 0))
  }

  /** The manager with or without the one lease. */
  function Holding(yes: bool): Mgr {
    Mgr(Settings(), Accounting(10, 0, if yes then 1 else 0), if yes then map["a" := Lent()] else map[], [], true)
  }

  ghost function Start(): St {
    St(LeaseRuns.Node(Holding(false), Missing, [], 0), Accounting(10, 0, 0), {}, Down, map[], 0)
  }

  ghost predicate At(s: St, holds: bool, extents: set<string>, ops: map<nat, Pc>, steps: nat) {
    && s.phase.Up? && s.node.mgr == Holding(holds) && s.node.now == 0
    && s.disk == {LOCK, HEARTBEAT} + extents && s.ops == ops && s.steps == steps
  }

  lemma Accepts(n: LeaseRuns.Node)
    requires n.mgr == Holding(false) && n.now == 0
    ensures Accept(n.mgr, Lent(), 0, Saved).1.None?
    ensures LeaseRuns.Step(n, LeaseRuns.DoAccept(Lent(), 0, Saved)).mgr == Holding(true)
    ensures LeaseRuns.Step(n, LeaseRuns.DoAccept(Lent(), 0, Saved)).now == 0
  {
    hide Ladder, FileAfter;
    assert Prune(n.mgr.cfg.policy, [], 0) == [];
    assert Lend(n.mgr.acct, 1) == Some(Accounting(10, 0, 1));
    hide Prune, Lend;
  }

  lemma Releases(n: LeaseRuns.Node)
    requires n.mgr == Holding(true) && n.now == 0
    ensures LeaseRuns.Step(n, LeaseRuns.DoRelease("a", 0, Saved)).mgr == Holding(false)
    ensures LeaseRuns.Step(n, LeaseRuns.DoRelease("a", 0, Saved)).now == 0
  {
    hide Ladder, FileAfter;
    assert IdSet([Lent()]) == {"a"} && Total([Lent()]) == 1;
    assert n.mgr.leases - {"a"} == map[];
  }

  lemma Starts()
    ensures var s := Start(); var e := Boot(0, true, Saved);
      && Enabled(s, e) && Boots(s, e) && NodeAfter(s, e).mgr == Holding(false) && NodeAfter(s, e).now == 0
  {
    hide Ladder;
  }

  ghost function BootRun(): seq<Event> {
    [Boot(0, true, Saved)] + [Sweep(LOCK, true)] + [Ready]
  }

  lemma BootsUp()
    ensures IsRun(Start(), BootRun()) && At(After(Start(), BootRun()), false, {}, map[], 3)
  {
    Starts();
    hide LeaseRuns.Step, Boots;
    var s := Start();
    assert IsRun(s, []) && After(s, []) == s;
    Extend(s, [], Boot(0, true, Saved));
    assert [] + [Boot(0, true, Saved)] == [Boot(0, true, Saved)];
    var s1 := After(s, [Boot(0, true, Saved)]);
    assert s1.phase == Opening({LOCK}, {}) && s1.disk == {LOCK};
    Extend(s, [Boot(0, true, Saved)], Sweep(LOCK, true));
    var s2 := Step(s1, Sweep(LOCK, true));
    assert s2.phase == Opening({}, {}) && s2.disk == {LOCK};
    Extend(s, [Boot(0, true, Saved)] + [Sweep(LOCK, true)], Ready);
  }

  /** A grant that goes through, as call number k. */
  ghost function GrantRun(k: nat): seq<Event> {
    [StartGrant(Lent(), 0, Saved)] + [Create(k, true)] + [Reserve(k, Done)]
  }

  lemma NameIsValid()
    ensures ValidLeaseId("a") && "a" != LOCK && "a" != HEARTBEAT
    ensures Invalidated("a") != "a" && Invalidated("a") != LOCK && Invalidated("a") != HEARTBEAT
  {
    assert Invalidated("a")[0] == 'a' && LOCK[0] == '.' && HEARTBEAT[0] == '.' && |Invalidated("a")| == 9;
  }

  lemma Granting(s: St, ops: map<nat, Pc>, k: nat)
    requires At(s, false, {}, ops, k)
    ensures var e := StartGrant(Lent(), 0, Saved);
      Enabled(s, e) && At(Step(s, e), true, {}, ops[k := Creating(Lent())], k + 1)
    ensures Accept(s.node.mgr, Lent(), 0, Saved).1.None?
  {
    Accepts(s.node);
    hide LeaseRuns.Step, Accept;
  }

  lemma Making(s: St, ops: map<nat, Pc>, k: nat)
    requires At(s, true, {}, ops[k := Creating(Lent())], k + 1)
    ensures var e := Create(k, true); Enabled(s, e) && At(Step(s, e), true, {"a"}, ops[k := Reserving(Lent())], k + 2)
  {
    NameIsValid();
    hide ValidLeaseId;
  }

  lemma Returning(s: St, ops: map<nat, Pc>, k: nat)
    requires At(s, true, {"a"}, ops[k := Reserving(Lent())], k + 2) && k !in ops
    ensures var e := Reserve(k, Done); Enabled(s, e) && At(Step(s, e), true, {"a"}, ops, k + 3)
  {
  }

  lemma Grants(es: seq<Event>, ops: map<nat, Pc>, k: nat)
    requires IsRun(Start(), es) && At(After(Start(), es), false, {}, ops, k) && k !in ops
    ensures IsRun(Start(), es + GrantRun(k)) && At(After(Start(), es + GrantRun(k)), true, {"a"}, ops, k + 3)
    ensures Accept(After(Start(), es).node.mgr, Lent(), 0, Saved).1.None?
  {
    hide Enabled, Step, At, Accept, Lent;
    var s, e0, e1, e2 := Start(), StartGrant(Lent(), 0, Saved), Create(k, true), Reserve(k, Done);
    Granting(After(s, es), ops, k);
    Extend(s, es, e0);
    Making(After(s, es + [e0]), ops, k);
    Extend(s, es + [e0], e1);
    Returning(After(s, es + [e0] + [e1]), ops, k);
    Extend(s, es + [e0] + [e1], e2);
    assert es + [e0] + [e1] + [e2] == es + GrantRun(k);
  }

  /** The promise to a grant is not empty: this first grant meets every condition it
      is stated under. */
  lemma FirstGrantIsPromised()
    ensures var es := BootRun() + GrantRun(3);
      && Fresh(Start()) && IsRun(Start(), es) && Began(Start(), es, 3, Lent())
      && SparedSince(Start(), es, 3, Lent()) && ReturnedOk(es[4..], 3)
  {
    BootsUp();
    hide Enabled, Step, Accept;
    var es := BootRun() + GrantRun(3);
    Grants(BootRun(), map[], 3);
    assert es[..3] == BootRun();
    assert es[4..] == [Create(3, true)] + [Reserve(3, Done)] && es[4..][1] == Reserve(3, Done);
    forall j | 3 < j < |es| ensures (PrefixIsRun(Start(), es, j); Spares(After(Start(), es[..j]), es[j], Lent())) {
      PrefixIsRun(Start(), es, j);
      assert es[j] == es[4..][j - 4];
    }
  }

  // ---- A journal that cannot be read ----

  /** A grant that returned, and a kill. */
  ghost function KilledRun(): seq<Event> {
    BootRun() + GrantRun(3) + [Crash]
  }

  lemma KilledIsRecorded()
    ensures IsRun(Start(), KilledRun()) && ReturnedOk(KilledRun(), 3)
    ensures var s := After(Start(), KilledRun()); s.phase.Down? && s.node.now == 0 && Recorded(s.node.file, Lent())
  {
    hide Began, SparedSince, Recorded, Fresh, BootRun, Lent, Start, IsRun, After, OnItsWay, Failed, LeaseRuns.Step;
    var es := BootRun() + GrantRun(3);
    FirstGrantIsPromised();
    GrantRuns(Start(), es, 3, Lent());
    hide Pledged, Unthreatened, ValidLeaseId;
    FirstGrantEnds();
    Extend(Start(), es, Crash);
    assert GrantRun(3)[2] == Reserve(3, Done) && KilledRun()[|es| - 1] == GrantRun(3)[2];
    PledgeIsRecorded(After(Start(), es), Lent());
  }

  lemma FirstGrantEnds()
    ensures var es := BootRun() + GrantRun(3); IsRun(Start(), es) && After(Start(), es).node.now == 0
  {
    BootsUp();
    hide Start, BootRun, GrantRun, IsRun, After;
    Grants(BootRun(), map[], 3);
  }

  lemma PledgeIsRecorded(s: St, g: Lease)
    requires Pledged(s, g)
    ensures Recorded(s.node.file, g)
  {
    hide Recorded, Unthreatened, ValidLeaseId;
  }

  /** A start that cannot read the journal of that grant writes an empty one: the lease
      that was recorded is not, though nothing released it and its term has not ended. */
  lemma UnreadStartForgetsTheGrant()
    ensures var e := Boot(0, false, Saved);
      && IsRun(Start(), KilledRun() + [e]) && ReturnedOk(KilledRun(), 3) && !Expired(Lent(), 0)
      && Recorded(After(Start(), KilledRun()).node.file, Lent())
      && !Recorded(After(Start(), KilledRun() + [e]).node.file, Lent())
  {
    KilledIsRecorded();
    hide LeaseRuns.Step, Recorded, KilledRun, ReturnedOk, IsRun, After;
    Extend(Start(), KilledRun(), Boot(0, false, Saved));
    var s := After(Start(), KilledRun());
    UnreadIsForgotten(s.acct, s.node, 0, Saved, Lent());
  }

  // ---- A name granted again ----

  /** Two releases of it asked for, the first of them carried through. */
  ghost function ReleaseRun(): seq<Event> {
    [StartRelease("a")] + [StartRelease("a")] + [Rename(6, true)] + [Unlink(6, true)] + [Free(6, Saved)]
  }

  /** The second release, waiting. */
  function Waiting(): map<nat, Pc> {
    map[7 := Discarding(["a"], true)]
  }

  lemma Asking(s: St)
    requires At(s, true, {"a"}, map[], 6)
    ensures var e := StartRelease("a");
      Enabled(s, e) && At(Step(s, e), true, {"a"}, map[6 := Discarding(["a"], true)], 7)
  {
  }

  lemma AskingAgain(s: St)
    requires At(s, true, {"a"}, map[6 := Discarding(["a"], true)], 7)
    ensures var e := StartRelease("a");
      Enabled(s, e) && At(Step(s, e), true, {"a"}, Waiting()[6 := Discarding(["a"], true)], 8)
  {
    assert map[6 := Discarding(["a"], true)][7 := Discarding(["a"], true)] == Waiting()[6 := Discarding(["a"], true)];
  }

  lemma Renaming(s: St)
    requires At(s, true, {"a"}, Waiting()[6 := Discarding(["a"], true)], 8)
    ensures var e := Rename(6, true);
      Enabled(s, e) && At(Step(s, e), true, {Invalidated("a")}, Waiting()[6 := Unlinking(["a"], true)], 9)
  {
    NameIsValid();
    hide ValidLeaseId, Invalidated;
  }

  lemma Removing(s: St)
    requires At(s, true, {Invalidated("a")}, Waiting()[6 := Unlinking(["a"], true)], 9)
    ensures var e := Unlink(6, true); Enabled(s, e) && At(Step(s, e), true, {}, Waiting()[6 := Freeing("a")], 10)
  {
    NameIsValid();
    hide ValidLeaseId, Invalidated;
  }

  lemma GivingBack(s: St)
    requires At(s, true, {}, Waiting()[6 := Freeing("a")], 10)
    ensures var e := Free(6, Saved); Enabled(s, e) && At(Step(s, e), false, {}, Waiting(), 11)
  {
    Releases(s.node);
    hide LeaseRuns.Step;
    assert Waiting()[6 := Freeing("a")] - {6} == Waiting();
  }

  lemma ReleasesOnce(es: seq<Event>)
    requires IsRun(Start(), es) && At(After(Start(), es), true, {"a"}, map[], 6)
    ensures IsRun(Start(), es + ReleaseRun())
    ensures At(After(Start(), es + ReleaseRun()), false, {}, Waiting(), 11)
  {
    hide Enabled, Step, At, Waiting;
    var s, ask := Start(), StartRelease("a");
    Asking(After(s, es));
    Extend(s, es, ask);
    AskingAgain(After(s, es + [ask]));
    Extend(s, es + [ask], ask);
    Renaming(After(s, es + [ask] + [ask]));
    Extend(s, es + [ask] + [ask], Rename(6, true));
    Removing(After(s, es + [ask] + [ask] + [Rename(6, true)]));
    Extend(s, es + [ask] + [ask] + [Rename(6, true)], Unlink(6, true));
    GivingBack(After(s, es + [ask] + [ask] + [Rename(6, true)] + [Unlink(6, true)]));
    Extend(s, es + [ask] + [ask] + [Rename(6, true)] + [Unlink(6, true)], Free(6, Saved));
    assert es + [ask] + [ask] + [Rename(6, true)] + [Unlink(6, true)] + [Free(6, Saved)] == es + ReleaseRun();
  }

  /** Granted, released twice over, granted again as call 11, and then the second
      release gets to its rename. */
  ghost function RegrantRun(): seq<Event> {
    BootRun() + GrantRun(3) + ReleaseRun() + GrantRun(11) + [Rename(7, true)]
  }

  /** Grant 11 returned success, and nothing since asked for its release, reclaimed
      it or restarted: the lease is live and its extent is gone. */
  lemma RegrantLosesItsExtent()
    ensures IsRun(Start(), RegrantRun()) && Fresh(Start())
    ensures RegrantRun()[11] == StartGrant(Lent(), 0, Saved) && ReturnedOk(RegrantRun()[12..], 11)
    ensures SparedSince(Start(), RegrantRun(), 11, Lent())
    ensures var at := After(Start(), RegrantRun()); at.phase.Up? && Live(at.node.mgr, Lent()) && Lent().id !in at.disk
  {
    NameIsValid();
    BootsUp();
    hide Enabled, Step;
    Grants(BootRun(), map[], 3);
    ReleasesOnce(BootRun() + GrantRun(3));
    var es := BootRun() + GrantRun(3) + ReleaseRun();
    Grants(es, Waiting(), 11);
    LastRename(es + GrantRun(11));
    assert RegrantRun()[12..] == [Create(11, true)] + [Reserve(11, Done)] + [Rename(7, true)];
    assert RegrantRun()[12..][1] == Reserve(11, Done);
    forall j | 11 < j < |RegrantRun()|
      ensures (PrefixIsRun(Start(), RegrantRun(), j);
               Spares(After(Start(), RegrantRun()[..j]), RegrantRun()[j], Lent()))
    {
      PrefixIsRun(Start(), RegrantRun(), j);
      assert RegrantRun()[j] == RegrantRun()[12..][j - 12];
    }
  }

  lemma LastRename(es: seq<Event>)
    requires IsRun(Start(), es) && At(After(Start(), es), true, {"a"}, Waiting(), 14)
    ensures IsRun(Start(), es + [Rename(7, true)])
    ensures var at := After(Start(), es + [Rename(7, true)]);
      at.phase.Up? && Live(at.node.mgr, Lent()) && "a" !in at.disk
  {
    NameIsValid();
    hide ValidLeaseId, Invalidated;
    Extend(Start(), es, Rename(7, true));
  }
}
