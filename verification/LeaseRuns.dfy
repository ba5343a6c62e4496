/** The lease manager over whole runs, with saves that fail before or after their
    rename, and with restarts over whatever the journal then holds. */
module LeaseRuns {
  import opened Common
  import opened Leases
  import opened ReclaimHistory
  import opened LeaseManager

  /** `history` is every reclaim since the process started, never pruned. */
  datatype Node = Node(mgr: Mgr, file: File, history: seq<int>, now: int)

  datatype Op =
    | DoAccept(l: Lease, now: int, save: Saving)
    | DoRelease(id: string, now: int, save: Saving)
    | DoReclaim(need: int, now: int, save: Saving)
    | DoExpire(now: int, save: Saving)
    | DoRestart(acct: Accounting, now: int, readable: bool, save: Saving)

  /** The clock does not run backwards, and a node's accounting fits its device. */
  ghost predicate Legal(n: Node, op: Op) {
    n.now <= op.now && (op.DoRestart? ==> Balanced(op.acct))
  }

  ghost function Step(n: Node, op: Op): Node {
    var m := n.mgr;
    match op
    case DoAccept(l, now, save) =>
      var (u, no) := Accept(m, l, now, save);
      var tried := no.None? || no == Some(NotSaved);
      Node(u, if tried then FileAfter(n.file, Ladder(Granted(m, l, now).leases), save) else n.file, n.history, now)
    case DoRelease(id, now, save) =>
      var u := Release(m, id);
      Node(u, if id in m.leases then FileAfter(n.file, Ladder(u.leases), save) else n.file, n.history, now)
    case DoReclaim(need, now, save) =>
      var (u, o) := Reclaim(m, need, now);
      if o.dropped == [] then Node(u, n.file, n.history, now)
      else Node(u, FileAfter(n.file, Ladder(u.leases), save), n.history + [now], now)
    case DoExpire(now, save) =>
      var (u, o) := Expire(m, now);
      Node(u, if o.dropped == [] then n.file else FileAfter(n.file, Ladder(u.leases), save), n.history, now)
    case DoRestart(acct, now, readable, save) =>
      var u := Restore(m.cfg, acct, n.file, now, readable, save);
      Node(u, if RestoreSaves(acct, n.file, now, readable) then FileAfter(n.file, Ladder(u.leases), save) else n.file,
        [], now)
  }

  /** A journal only ever holds leases the node held together. */
  ghost predicate SnapshotWithinCaps(cfg: Config, f: File) {
    exists m :: SnapshotOf(cfg, f, m)
  }

  ghost predicate SnapshotOf(cfg: Config, f: File, m: LeaseMap) {
    Keyed(m) && WithinCaps(cfg, m) && Load(f) == Some(Ladder(m))
  }

  ghost predicate NodeInv(n: Node) {
    && MgrInv(n.mgr) && SnapshotWithinCaps(n.mgr.cfg, n.file)
    && Tail(n.mgr.cfg.policy, n.history, n.mgr.reclaims, n.now)
  }

  lemma BooksOf(n: Node)
    requires NodeInv(n)
    ensures MgrInv(n.mgr) && Books(n.mgr) && Keyed(n.mgr.leases)
  {
    hide SnapshotWithinCaps, Tail, WithinCaps;
  }

  lemma SavedSnapshot(cfg: Config, f: File, m: LeaseMap, save: Saving)
    requires SnapshotWithinCaps(cfg, f) && Keyed(m) && WithinCaps(cfg, m)
    ensures SnapshotWithinCaps(cfg, FileAfter(f, Ladder(m), save))
  {
    hide WithinCaps, Ladder, Load;
    if save != FailedOld {
      LoadInvertsSave(m, f, save);
      assert SnapshotOf(cfg, FileAfter(f, Ladder(m), save), m);
    }
  }

  lemma AcceptStepKeepsInv(n: Node, l: Lease, now: int, save: Saving)
    requires NodeInv(n) && n.now <= now
    ensures NodeInv(Step(n, DoAccept(l, now, save)))
  {
    var m := n.mgr;
    AcceptKeepsInv(m, l, now, save);
    TailLasts(m.cfg.policy, n.history, m.reclaims, n.now, now);
    PruneKeepsATail(m.cfg.policy, n.history, m.reclaims, now);
    if Refused(Pruned(m, now), l, now).None? {
      AcceptKeepsInv(m, l, now, Saved);
      SavedSnapshot(m.cfg, n.file, Granted(m, l, now).leases, save);
    }
    hide WithinCaps, Tail, Balanced, Keyed, Prune, FileAfter, Ladder, SnapshotWithinCaps, Refused;
  }

  lemma ReleaseStepKeepsInv(n: Node, id: string, now: int, save: Saving)
    requires NodeInv(n) && n.now <= now
    ensures NodeInv(Step(n, DoRelease(id, now, save)))
  {
    hide WithinCaps, Tail, Balanced, Prune, FileAfter, Ladder, SnapshotWithinCaps;
    var m := n.mgr;
    TailLasts(m.cfg.policy, n.history, m.reclaims, n.now, now);
    if id in m.leases {
      DropKeepsInv(m, [m.leases[id]]);
      SavedSnapshot(m.cfg, n.file, Release(m, id).leases, save);
    }
  }

  lemma ReclaimStepKeepsInv(n: Node, need: int, now: int, save: Saving)
    requires NodeInv(n) && n.now <= now
    ensures NodeInv(Step(n, DoReclaim(need, now, save)))
  {
    var m := n.mgr;
    var p := m.cfg.policy;
    ReclaimKeepsInv(m, need, now);
    TailLasts(p, n.history, m.reclaims, n.now, now);
    ReclaimKeepsATail(p, n.history, m.reclaims, now);
    PruneKeepsATail(p, n.history + [now], m.reclaims + [now], now);
    SavedSnapshot(m.cfg, n.file, Reclaim(m, need, now).0.leases, save);
    ReclaimRecords(m, need, now);
    hide WithinCaps, Tail, Balanced, Keyed, Prune, FileAfter, Ladder, SnapshotWithinCaps, Reclaim;
  }

  /** What a reclaim writes in the history, and what it never changes. */
  lemma ReclaimRecords(m: Mgr, need: int, now: int)
    ensures var (u, o) := Reclaim(m, need, now);
      && u.cfg == m.cfg
      && u.reclaims == if o.dropped == [] then m.reclaims else Prune(m.cfg.policy, m.reclaims + [now], now)
  {
    hide Ladder, Taken, Total, Ids, AnyElastic, Prune;
  }

  lemma ExpireStepKeepsInv(n: Node, now: int, save: Saving)
    requires NodeInv(n) && n.now <= now
    ensures NodeInv(Step(n, DoExpire(now, save)))
  {
    var m := n.mgr;
    ExpireKeepsInv(m, now);
    TailLasts(m.cfg.policy, n.history, m.reclaims, n.now, now);
    SavedSnapshot(m.cfg, n.file, Expire(m, now).0.leases, save);
    hide WithinCaps, Tail, Balanced, Keyed, Prune, FileAfter, Ladder, SnapshotWithinCaps;
  }

  lemma RestartStepKeepsInv(n: Node, acct: Accounting, now: int, readable: bool, save: Saving)
    requires NodeInv(n) && n.now <= now && Balanced(acct)
    ensures NodeInv(Step(n, DoRestart(acct, now, readable, save)))
  {
    hide WithinCaps, Balanced, Keyed, FileAfter, Ladder, SnapshotWithinCaps, Restore, RestoreSaves, Sum, Load;
    var cfg := n.mgr.cfg;
    var u := Restore(cfg, acct, n.file, now, readable, save);
    EmptiedIsBalanced(acct);
    RestoreKeepsBalance(cfg, acct, n.file, now, readable, save);
    RestoredWithinCaps(cfg, acct, n.file, now, readable, save);
    SavedSnapshot(cfg, n.file, u.leases, save);
    RestoredForgets(cfg, acct, n.file, now, readable, save);
  }

  lemma RestoredForgets(cfg: Config, acct: Accounting, f: File, now: int, readable: bool, save: Saving)
    ensures Restore(cfg, acct, f, now, readable, save).reclaims == []
  {
  }

  lemma RestoredWithinCaps(cfg: Config, acct: Accounting, f: File, now: int, readable: bool, save: Saving)
    requires SnapshotWithinCaps(cfg, f) && Balanced(acct)
    ensures WithinCaps(cfg, Restore(cfg, acct, f, now, readable, save).leases)
  {
    RestoreKeepsBalance(cfg, acct, f, now, readable, save);
    var kept := Restore(cfg, acct, f, now, readable, save).leases;
    var m :| SnapshotOf(cfg, f, m);
    LadderIs(m);
    forall id | id in kept ensures id in m && m[id] == kept[id] {
      assert kept[id] in Ladder(m);
    }
    hide WithinCaps, Restore, Ladder, Load;
    PartsStayWithinCaps(cfg, m, kept);
  }

  lemma StepKeepsInv(n: Node, op: Op)
    requires NodeInv(n) && Legal(n, op)
    ensures NodeInv(Step(n, op))
  {
    hide NodeInv, Step;
    match op
    case DoAccept(l, now, save) => AcceptStepKeepsInv(n, l, now, save);
    case DoRelease(id, now, save) => ReleaseStepKeepsInv(n, id, now, save);
    case DoReclaim(need, now, save) => ReclaimStepKeepsInv(n, need, now, save);
    case DoExpire(now, save) => ExpireStepKeepsInv(n, now, save);
    case DoRestart(acct, now, readable, save) => RestartStepKeepsInv(n, acct, now, readable, save);
  }

  // ---- Runs ----

  /** A node that has never lent anything. */
  ghost predicate Fresh(n: Node) {
    && Balanced(n.mgr.acct) && n.mgr.acct.borrowed == 0 && n.mgr.cfg.limit >= 0
    && n.mgr.leases == map[] && n.mgr.reclaims == [] && n.file == Missing && n.history == []
  }

  ghost function After(n: Node, ops: seq<Op>): Node {
    if ops == [] then n else Step(After(n, ops[..|ops| - 1]), ops[|ops| - 1])
  }

  ghost predicate IsRun(n: Node, ops: seq<Op>) {
    Fresh(n) && forall i :: 0 <= i < |ops| ==> Legal(After(n, ops[..i]), ops[i])
  }

  lemma FreshInv(n: Node)
    requires Fresh(n)
    ensures NodeInv(n)
  {
    assert GuaranteedOf(n.mgr.leases) == map[];
    forall t ensures OfTenant(n.mgr.leases, t) == map[] && GuaranteedOf(OfTenant(n.mgr.leases, t)) == map[] {
      assert OfTenant(n.mgr.leases, t) == map[];
    }
    assert SnapshotOf(n.mgr.cfg, n.file, n.mgr.leases);
  }

  /** In every run, whatever saves fail and however often the node restarts:
      Borrowed is the sum of the live leases, the pools fit the device, and the
      guaranteed cap and every tenant's quotas hold. */
  lemma {:induction false} EveryRunKeepsTheBooks(n: Node, ops: seq<Op>)
    requires IsRun(n, ops)
    ensures NodeInv(After(n, ops))
    ensures var m := After(n, ops).mgr;
      && m.acct.borrowed == Sum(m.leases) && m.acct.reserved + m.acct.borrowed <= m.acct.capacity
      && WithinCaps(m.cfg, m.leases)
    decreases |ops|
  {
    if ops == [] {
      FreshInv(n);
    } else {
      var front := ops[..|ops| - 1];
      forall i | 0 <= i < |front| ensures Legal(After(n, front[..i]), front[i]) {
        assert front[..i] == ops[..i];
      }
      EveryRunKeepsTheBooks(n, front);
      assert Legal(After(n, ops[..|ops| - 1]), ops[|ops| - 1]);
      hide WithinCaps, Tail, Step;
      StepKeepsInv(After(n, front), ops[|ops| - 1]);
    }
  }

  /** Op i of the run is a reclaim that dropped something. */
  ghost predicate Reclaimed(n: Node, ops: seq<Op>, i: int) {
    && 0 <= i < |ops| && ops[i].DoReclaim?
    && Reclaim(After(n, ops[..i]).mgr, ops[i].need, ops[i].now).1.dropped != []
  }

  ghost predicate NoRestartSince(ops: seq<Op>, i: int) {
    forall j :: i < j < |ops| ==> 0 <= j && !ops[j].DoRestart?
  }

  /** A reclaim since the process started is still in the history. */
  lemma {:induction false} ReclaimIsRemembered(n: Node, ops: seq<Op>, i: int)
    requires IsRun(n, ops) && Reclaimed(n, ops, i) && NoRestartSince(ops, i)
    ensures var h := After(n, ops).history; h != [] && ops[i].now <= h[|h| - 1]
    decreases |ops|
  {
    hide Step, NodeInv, Reclaim, Fresh;
    var front, last := ops[..|ops| - 1], ops[|ops| - 1];
    RunWithoutLast(n, ops);
    StepHistory(After(n, front), last);
    assert ops[..i] == front[..i];
    if i < |ops| - 1 {
      ReclaimIsRemembered(n, front, i);
      EveryRunKeepsTheBooks(n, front);
      HistoryIsPast(After(n, front));
    } else {
      assert front[..i] == front;
    }
  }

  lemma RunWithoutLast(n: Node, ops: seq<Op>)
    requires IsRun(n, ops) && ops != []
    ensures var front := ops[..|ops| - 1]; IsRun(n, front) && Legal(After(n, front), ops[|ops| - 1])
  {
    hide Fresh, After, Legal;
    var front := ops[..|ops| - 1];
    forall j | 0 <= j < |front| ensures Legal(After(n, front[..j]), front[j]) {
      assert front[..j] == ops[..j];
    }
    assert Legal(After(n, ops[..|ops| - 1]), ops[|ops| - 1]);
  }

  lemma StepHistory(n: Node, op: Op)
    requires !op.DoRestart?
    ensures var reclaimed := op.DoReclaim? && Reclaim(n.mgr, op.need, op.now).1.dropped != [];
      Step(n, op).history == if reclaimed then n.history + [op.now] else n.history
    ensures Step(n, op).now == op.now
  {
    hide Accept, Release, Reclaim, Expire, FileAfter, Ladder;
  }

  lemma HistoryIsPast(n: Node)
    requires NodeInv(n)
    ensures n.history != [] ==> n.history[|n.history| - 1] <= n.now
  {
    hide MgrInv, SnapshotWithinCaps;
  }

  /** No grant is accepted within the term of an earlier reclaim of this process
      that dropped something, pruned history and all. The policies are exactly those
      GrantsKeepTheTermExactly names. */
  lemma NoGrantSoonAfterAReclaim(n: Node, ops: seq<Op>, i: int, l: Lease, now: int, save: Saving)
    requires IsRun(n, ops) && Reclaimed(n, ops, i) && NoRestartSince(ops, i) && After(n, ops).now <= now
    requires var p := After(n, ops).mgr.cfg.policy; p.churnWindow <= MAX_INT64 && GrantsKeepTheTerm(p)
    requires Accept(After(n, ops).mgr, l, now, save).1.None?
    ensures now >= ops[i].now + After(n, ops).mgr.cfg.policy.minTerm
  {
    hide MgrInv, SnapshotWithinCaps, Step, QuotaRefusal, Lend, GrantsKeepTheTerm, InCooldown, Churning;
    var at := After(n, ops);
    var p := at.mgr.cfg.policy;
    EveryRunKeepsTheBooks(n, ops);
    ReclaimIsRemembered(n, ops, i);
    TailLasts(p, at.history, at.mgr.reclaims, at.now, now);
    PruneKeepsATail(p, at.history, at.mgr.reclaims, now);
    PruningIsInvisible(p, at.history, Prune(p, at.mgr.reclaims, now), now, now);
    GrantIsATermLater(p, at.history, now);
  }

  // ---- A restart forgets ----

  /** From op i on, nothing was reclaimed that dropped anything. */
  ghost predicate NothingReclaimedSince(n: Node, ops: seq<Op>, i: int) {
    forall j :: i < j < |ops| ==> 0 <= j && !Reclaimed(n, ops, j)
  }

  lemma {:induction false} HistoryIsEmpty(n: Node, ops: seq<Op>, i: nat)
    requires i < |ops| && ops[i].DoRestart? && NothingReclaimedSince(n, ops, i)
    ensures After(n, ops).history == [] && After(n, ops).mgr.reclaims == []
    decreases |ops|
  {
    hide Step, Reclaim;
    var front, last := ops[..|ops| - 1], ops[|ops| - 1];
    if last.DoRestart? {
      RestartForgets(After(n, front), last);
    } else {
      forall j | i < j < |front| ensures !Reclaimed(n, front, j) {
        assert front[..j] == ops[..j];
        assert !Reclaimed(n, ops, j);
      }
      HistoryIsEmpty(n, front, i);
      assert ops[..|ops| - 1] == front && !Reclaimed(n, ops, |ops| - 1);
      StepHistory(After(n, front), last);
      StepReclaims(After(n, front), last);
    }
  }

  lemma RestartForgets(n: Node, op: Op)
    requires op.DoRestart?
    ensures Step(n, op).history == [] && Step(n, op).mgr.reclaims == []
  {
    hide Restore, RestoreSaves, FileAfter, Ladder;
    RestoredForgets(n.mgr.cfg, op.acct, n.file, op.now, op.readable, op.save);
  }

  lemma StepReclaims(n: Node, op: Op)
    requires !op.DoRestart? && n.mgr.reclaims == []
    requires op.DoReclaim? ==> Reclaim(n.mgr, op.need, op.now).1.dropped == []
    ensures Step(n, op).mgr.reclaims == []
  {
    if op.DoReclaim? {
      ReclaimRecords(n.mgr, op.need, op.now);
    }
    hide Refused, Reclaim, FileAfter, Ladder;
  }

  /** After a restart, until a reclaim drops something, no grant is refused for churn
      or cooldown, whatever was reclaimed before it. */
  lemma RestartOpensToGrants(n: Node, ops: seq<Op>, i: nat, l: Lease, now: int, save: Saving)
    requires i < |ops| && ops[i].DoRestart? && NothingReclaimedSince(n, ops, i)
    ensures Accept(After(n, ops).mgr, l, now, save).1 != Some(Churns)
    ensures Accept(After(n, ops).mgr, l, now, save).1 != Some(Cools)
  {
    HistoryIsEmpty(n, ops, i);
    hide Accept, After, NothingReclaimedSince;
    NothingRemembered(After(n, ops).mgr, l, now, save);
  }

  lemma NothingRemembered(m: Mgr, l: Lease, now: int, save: Saving)
    requires m.reclaims == []
    ensures Accept(m, l, now, save).1 != Some(Churns) && Accept(m, l, now, save).1 != Some(Cools)
  {
    assert Prune(m.cfg.policy, [], now) == [];
    hide Prune, Lend, Wrap64, Sum, GuaranteedOf, OfTenant;
  }

  /** A reclaim takes something if there is anything it may take. */
  lemma ReclaimTakesSomething(m: Mgr, need: int, now: int, id: string)
    requires MgrInv(m) && need > 0 && id in m.leases && m.leases[id].cls != GUARANTEED
    ensures Reclaim(m, need, now).1.dropped != []
  {
    hide Reclaim, MgrInv;
    ReclaimMeetsItsContract(m, need, now);
    NothingDroppedIsNothingDone(m, need, now);
  }

  lemma NothingDroppedIsNothingDone(m: Mgr, need: int, now: int)
    ensures Reclaim(m, need, now).1.dropped == [] ==>
      Reclaim(m, need, now).0.leases == m.leases && Reclaim(m, need, now).0.acct == m.acct
  {
    var expired, early := Ladder(ExpiredOf(m.leases, now)), TakenEarly(m, need, now);
    IdsAre(expired);
    IdsAre(early);
    hide Ladder, TakenEarly, ExpiredOf;
    assert |Ids(expired) + Ids(early)| == |expired| + |early|;
    assert expired == [] && early == [] ==> IdSet(expired) == {} && IdSet(early) == {};
    assert m.leases - {} - {} == m.leases;
  }

  // ---- A run that shows it ----

  function Once(): Lease {
    Lease("a", "", OPPORTUNISTIC, 1, 0, 100)
  }

  /** A node with a term of 100 and nothing else to refuse a grant for. */
  function Patient(): Mgr {
    Mgr(Config(Policy(100, 0, 0, false), 1, 0, Quota(0, 0)), Accounting(10, 0, 0), map[], [], true)
  }

  ghost function Restarted(): seq<Op> {
    [DoAccept(Once(), 0, Saved)] + [DoReclaim(1, 0, Saved)] + [DoRestart(Accounting(10, 0, 0), 0, true, Saved)]
  }

  lemma PatientAccepts(m: Mgr)
    requires m == Patient()
    ensures Accept(m, Once(), 0, Saved) == (Granted(m, Once(), 0), None)
  {
    assert Prune(m.cfg.policy, [], 0) == [];
    assert Lend(m.acct, 1).Some?;
    hide Prune, Lend, Ladder;
  }

  /** Granted, reclaimed and restarted at one moment, a node with a term of 100 grants
      again at that moment. */
  lemma RestartLetsAGrantThrough()
    ensures var n := Node(Patient(), Missing, [], 0);
      && IsRun(n, Restarted()) && Reclaimed(n, Restarted(), 1) && GrantsKeepTheTerm(Patient().cfg.policy)
      && Accept(After(n, Restarted()).mgr, Once(), 0, Saved).1.None? && After(n, Restarted()).now == 0
      && After(n, Restarted()).mgr.cfg.policy.minTerm == 100
  {
    var n := Node(Patient(), Missing, [], 0);
    hide Step, Reclaim, Accept, NodeInv, Fresh;
    var a, b, c := Restarted()[0], Restarted()[1], Restarted()[2];
    var n1 := Step(n, a);
    PatientStarts();
    FreshInv(n);
    StepKeepsInv(n, a);
    BooksOf(n1);
    ReclaimTakesSomething(n1.mgr, 1, 0, "a");
    RestartsPatient(n1);
    AfterThree(n, a, b, c);
    PatientAccepts(Patient());
  }

  lemma PatientStarts()
    ensures var n := Node(Patient(), Missing, [], 0);
      && Fresh(n) && Step(n, Restarted()[0]).mgr == Granted(Patient(), Once(), 0) && Step(n, Restarted()[0]).now == 0
  {
    PatientAccepts(Patient());
    hide Accept, FileAfter, Ladder;
  }

  /** What is left after the reclaim and the restart is the node as it began. */
  lemma RestartsPatient(n: Node)
    requires NodeInv(n) && n.mgr == Granted(Patient(), Once(), 0) && n.now == 0
    ensures var u := Step(n, Restarted()[1]);
      u.now == 0 && Step(u, Restarted()[2]).mgr == Patient() && Step(u, Restarted()[2]).now == 0
  {
    hide Step;
    BooksOf(n);
    AfterItsReclaim(n);
    FromNothing(Step(n, Restarted()[1]));
  }

  lemma AfterItsReclaim(n: Node)
    requires MgrInv(n.mgr) && n.mgr == Granted(Patient(), Once(), 0)
    ensures var u := Step(n, Restarted()[1]); u.now == 0 && u.mgr.cfg == Patient().cfg && Load(u.file) == Some([])
  {
    hide Reclaim, MgrInv, Ladder, FileAfter, Load;
    ReclaimedEverything(n.mgr);
    ReclaimTakesSomething(n.mgr, 1, 0, "a");
    ReclaimRecords(n.mgr, 1, 0);
    NothingToRead(n.file, Reclaim(n.mgr, 1, 0).0.leases);
  }

  lemma FromNothing(n: Node)
    requires n.mgr.cfg == Patient().cfg && Load(n.file) == Some([])
    ensures Step(n, Restarted()[2]).mgr == Patient() && Step(n, Restarted()[2]).now == 0
  {
    hide Load, Ladder, FileAfter;
  }

  lemma NothingToRead(f: File, m: LeaseMap)
    requires m == map[]
    ensures Load(FileAfter(f, Ladder(m), Saved)) == Some([])
  {
    LoadInvertsSave(m, f, Saved);
  }

  lemma AfterThree(n: Node, a: Op, b: Op, c: Op)
    ensures After(n, []) == n && After(n, [a]) == Step(n, a) && After(n, [a] + [b]) == Step(Step(n, a), b)
    ensures After(n, [a] + [b] + [c]) == Step(Step(Step(n, a), b), c)
    ensures ([a] + [b] + [c])[..0] == [] && ([a] + [b] + [c])[..1] == [a] && ([a] + [b] + [c])[..2] == [a] + [b]
  {
    hide Step;
    assert [a][..0] == [] && ([a] + [b])[..1] == [a] && ([a] + [b] + [c])[..2] == [a] + [b];
  }

  lemma ReclaimedEverything(m: Mgr)
    requires MgrInv(m) && m.leases == map["a" := Once()]
    ensures Reclaim(m, 1, 0).0.leases == map[]
  {
    ReclaimMeetsItsContract(m, 1, 0);
    NothingDroppedIsNothingDone(m, 1, 0);
    ReclaimTakesSomething(m, 1, 0, "a");
    ReclaimKeepsInv(m, 1, 0);
    var u := Reclaim(m, 1, 0).0;
    assert "a" in u.leases ==> u.leases == m.leases;
    hide Reclaim;
    assert u.leases == map[];
  }
}
