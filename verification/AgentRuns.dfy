/** Names in the borrowed pool's directory. */
module PoolNames {
  const AGENT_PREFIX := ".forebay-"

  const LOCK := ".forebay-node.lock"

  const HEARTBEAT := ".forebay-heartbeat"

  const INVALID_SUFFIX := ".invalid"

  predicate HasPrefix(s: string, p: string) {
    p <= s
  }

  predicate HasSuffix(s: string, p: string) {
    |p| <= |s| && s[|s| - |p|..] == p
  }

  /** A single ordinary file name. One without a separator is already clean. */
  predicate ValidLeaseId(id: string) {
    && id != "" && id != "." && id != ".."
    && !HasPrefix(id, AGENT_PREFIX) && !HasSuffix(id, INVALID_SUFFIX) && '/' !in id
  }

  /** The name an extent is renamed to before it is unlinked. */
  function Invalidated(id: string): string {
    id + INVALID_SUFFIX
  }

  predicate Spared(name: string) {
    name == LOCK || name == HEARTBEAT
  }

  predicate AgentFile(name: string) {
    HasPrefix(name, AGENT_PREFIX)
  }

  /** Nor can a file of the agent's own be an extent on its way out. */
  lemma InvalidatedIsNotTheAgents(id: string)
    requires ValidLeaseId(id)
    ensures !AgentFile(Invalidated(id)) && !Spared(Invalidated(id))
  {
    var name := Invalidated(id);
    assert LOCK[..9] == AGENT_PREFIX && HEARTBEAT[..9] == AGENT_PREFIX;
    assert |id| >= 9 ==> name[..9] == id[..9];
    assert |id| < 9 ==> name[|id|] == '.' && (AGENT_PREFIX[|id|] == '.' ==> id == "");
  }

  lemma InvalidatedIsInjective(a: string, b: string)
    requires Invalidated(a) == Invalidated(b)
    ensures a == b
  {
    assert a == Invalidated(a)[..|Invalidated(a)| - |INVALID_SUFFIX|];
    assert b == Invalidated(b)[..|Invalidated(b)| - |INVALID_SUFFIX|];
  }

  /** No discard, and no file of the agent's own, can touch a lease's extent. */
  lemma ExtentsAreApart(id: string, other: string)
    requires ValidLeaseId(id)
    ensures id != Invalidated(other) && !AgentFile(id) && !Spared(id)
  {
    var s := Invalidated(other);
    assert s[|s| - |INVALID_SUFFIX|..] == INVALID_SUFFIX;
    assert LOCK[..9] == AGENT_PREFIX && HEARTBEAT[..9] == AGENT_PREFIX;
  }
}

/** The agent over whole lives of a node: grants, releases and reclaims as steps
    on the journal and on the pool's directory, in any interleaving, killed
    between any two of them, and the startup that makes the two agree. */
module AgentRuns {
  import opened Common
  import opened Leases
  import opened LeaseManager
  import opened PoolNames
  import opened ReclaimHistory
  import LeaseRuns

  /** Where one outstanding call is. */
  datatype Pc =
    | Creating(l: Lease)                           // accepted, extent not made
    | Reserving(l: Lease)                          // extent made, bytes not reserved
    | Partial(id: string)                          // reserving failed, extent to remove
    | Undoing(id: string)                          // lease to give back
    | Discarding(ids: seq<string>, release: bool)  // about to rename ids[0]
    | Unlinking(ids: seq<string>, release: bool)   // ids[0] renamed, about to unlink
    | Freeing(id: string)                          // extent gone, lease to give back

  /** Opening is reconcile: entries not yet looked at, and the extents seen. */
  datatype Phase = Down | Opening(todo: set<string>, seen: set<string>) | Up

  /** `acct` is what the node is started with, the same every time. A call is
      numbered by the step that began it. */
  datatype St = St(
    node: LeaseRuns.Node, acct: Accounting, disk: set<string>, phase: Phase, ops: map<nat, Pc>, steps: nat)

  datatype Reserved = Done | NoSpace | CloseFailed

  datatype Event =
    | Boot(now: int, readable: bool, save: Saving)
    | Sweep(name: string, removed: bool)
    | DropMissing(id: string, save: Saving)
    | Ready
    | Crash
    | StartGrant(l: Lease, now: int, save: Saving)
    | Create(t: nat, ok: bool)
    | Reserve(t: nat, how: Reserved)
    | RemovePartial(t: nat, ok: bool)
    | Undo(t: nat, save: Saving)
    | StartRelease(id: string)
    | Rename(t: nat, ok: bool)
    | Unlink(t: nat, ok: bool)
    | Free(t: nat, save: Saving)
    | StartReclaim(need: int, now: int, save: Saving)
    | Litter(name: string, there: bool)

  ghost predicate Enabled(s: St, e: Event) {
    match e
    case Boot(now, _, _) => s.phase.Down? && s.node.now <= now
    case Sweep(name, _) => s.phase.Opening? && name in s.phase.todo
    case DropMissing(id, _) =>
      s.phase.Opening? && s.phase.todo == {} && id in s.node.mgr.leases && id !in s.phase.seen
    case Ready => s.phase.Opening? && s.phase.todo == {} && s.node.mgr.leases.Keys <= s.phase.seen
    case Crash => true
    case StartGrant(_, now, _) => s.phase.Up? && s.node.now <= now
    case Create(t, _) => s.phase.Up? && t in s.ops && s.ops[t].Creating?
    case Reserve(t, _) => s.phase.Up? && t in s.ops && s.ops[t].Reserving?
    case RemovePartial(t, _) => s.phase.Up? && t in s.ops && s.ops[t].Partial?
    case Undo(t, _) => s.phase.Up? && t in s.ops && s.ops[t].Undoing?
    case StartRelease(_) => s.phase.Up?
    case Rename(t, _) => s.phase.Up? && t in s.ops && s.ops[t].Discarding? && s.ops[t].ids != []
    case Unlink(t, _) => s.phase.Up? && t in s.ops && s.ops[t].Unlinking? && s.ops[t].ids != []
    case Free(t, _) => s.phase.Up? && t in s.ops && s.ops[t].Freeing?
    case StartReclaim(_, now, _) => s.phase.Up? && s.node.now <= now
    case Litter(name, _) => s.phase.Up? && AgentFile(name) && !Spared(name)
  }

  /** What a step asks of the lease manager, if anything. */
  ghost function Asks(s: St, e: Event): Option<LeaseRuns.Op>
    requires Enabled(s, e)
  {
    match e
    case Boot(now, readable, save) => Some(LeaseRuns.DoRestart(s.acct, now, readable, save))
    case DropMissing(id, save) => Some(LeaseRuns.DoRelease(id, s.node.now, save))
    case StartGrant(l, now, save) => Some(LeaseRuns.DoAccept(l, now, save))
    case Undo(t, save) => Some(LeaseRuns.DoRelease(s.ops[t].id, s.node.now, save))
    case Free(t, save) => Some(LeaseRuns.DoRelease(s.ops[t].id, s.node.now, save))
    case StartReclaim(need, now, save) => Some(LeaseRuns.DoReclaim(need, now, save))
    case _ => None
  }

  ghost function NodeAfter(s: St, e: Event): LeaseRuns.Node
    requires Enabled(s, e)
  {
    var op := Asks(s, e);
    if op.None? then s.node else LeaseRuns.Step(s.node, op.value)
  }

  /** Open goes on after Restore unless the journal could not be read at all, or
      what was dropped from it could not be recorded. */
  ghost predicate Boots(s: St, e: Event)
    requires Enabled(s, e) && e.Boot?
  {
    e.readable && (Load(s.node.file).None? || NodeAfter(s, e).mgr.restored)
  }

  predicate Removes(name: string, live: set<string>) {
    !Spared(name) && (AgentFile(name) || name !in live)
  }

  ghost function PhaseAfter(s: St, e: Event): Phase
    requires Enabled(s, e)
  {
    match e
    case Boot(_, _, _) => if Boots(s, e) then Opening(s.disk + {LOCK}, {}) else Down
    case Sweep(name, removed) =>
      if Removes(name, s.node.mgr.leases.Keys) && !removed then Down
      else
        Opening(
          s.phase.todo - {name}, if AgentFile(name) || Spared(name) then s.phase.seen else s.phase.seen + {name})
    case DropMissing(_, save) => if save == Saved then s.phase else Down
    case Ready => Up
    case Crash => Down
    case _ => Up
  }

  /** Whether a rename or an unlink gets done. */
  predicate Renames(s: St, id: string, ok: bool) {
    ok && ValidLeaseId(id) && id in s.disk
  }

  predicate Unlinks(s: St, id: string, ok: bool) {
    ok && Invalidated(id) in s.disk
  }

  ghost predicate Creates(s: St, l: Lease, ok: bool) {
    ok && ValidLeaseId(l.id) && l.id !in s.disk
  }

  ghost function DiskAfter(s: St, e: Event): set<string>
    requires Enabled(s, e)
  {
    match e
    case Boot(_, _, _) => s.disk + {LOCK}
    case Sweep(name, removed) => if Removes(name, s.node.mgr.leases.Keys) && removed then s.disk - {name} else s.disk
    case Ready => s.disk + {HEARTBEAT}
    case Create(t, ok) => if Creates(s, s.ops[t].l, ok) then s.disk + {s.ops[t].l.id} else s.disk
    case RemovePartial(t, ok) => if ok then s.disk - {s.ops[t].id} else s.disk
    case Rename(t, ok) =>
      var id := s.ops[t].ids[0];
      if Renames(s, id, ok) then s.disk - {id} + {Invalidated(id)} else s.disk
    case Unlink(t, ok) => if ok then s.disk - {Invalidated(s.ops[t].ids[0])} else s.disk
    case Litter(name, there) => if there then s.disk + {name} else s.disk - {name}
    case _ => s.disk
  }

  /** A discard has ended: Release stops at an error and otherwise frees the
      lease; a reclaim goes on with the next extent whatever happened. */
  function Discarded(ids: seq<string>, release: bool, ok: bool): Option<Pc>
    requires ids != []
  {
    if release then if ok then Some(Freeing(ids[0])) else None
    else if |ids| > 1 then Some(Discarding(ids[1..], false))
    else None
  }

  ghost function PcAfter(s: St, e: Event): (nat, Option<Pc>)
    requires Enabled(s, e)
  {
    match e
    case StartGrant(l, now, save) =>
      (s.steps, if Accept(s.node.mgr, l, now, save).1.None? then Some(Creating(l.(grantedAt := now))) else None)
    case Create(t, ok) =>
      var l := s.ops[t].l;
      (t, if Creates(s, l, ok) then Some(Reserving(l)) else Some(Undoing(l.id)))
    case Reserve(t, how) =>
      var id := s.ops[t].l.id;
      (t, match how case Done => None case NoSpace => Some(Partial(id)) case CloseFailed => Some(Undoing(id)))
    case RemovePartial(t, _) => (t, Some(Undoing(s.ops[t].id)))
    case Undo(t, _) => (t, None)
    case StartRelease(id) => (s.steps, Some(Discarding([id], true)))
    case Rename(t, ok) =>
      var pc := s.ops[t];
      var done := Renames(s, pc.ids[0], ok);
      (t, if done then Some(Unlinking(pc.ids, pc.release)) else Discarded(pc.ids, pc.release, false))
    case Unlink(t, ok) =>
      var pc := s.ops[t];
      (t, Discarded(pc.ids, pc.release, Unlinks(s, pc.ids[0], ok)))
    case Free(t, _) => (t, None)
    case StartReclaim(need, now, _) =>
      var gone := Reclaim(s.node.mgr, need, now).1.dropped;
      (s.steps, if gone == [] then None else Some(Discarding(gone, false)))
    case _ => (s.steps, None)
  }

  ghost function OpsAfter(s: St, e: Event): map<nat, Pc>
    requires Enabled(s, e)
  {
    var (t, pc) := PcAfter(s, e);
    if PhaseAfter(s, e) != Up then map[] else if pc.None? then s.ops - {t} else s.ops[t := pc.value]
  }

  ghost function Step(s: St, e: Event): St
    requires Enabled(s, e)
  {
    St(NodeAfter(s, e), s.acct, DiskAfter(s, e), PhaseAfter(s, e), OpsAfter(s, e), s.steps + 1)
  }

  // ---- Runs ----

  ghost predicate IsRun(s: St, es: seq<Event>)
    decreases |es|, 0
  {
    es == [] || (IsRun(s, es[..|es| - 1]) && Enabled(After(s, es[..|es| - 1]), es[|es| - 1]))
  }

  ghost function After(s: St, es: seq<Event>): St
    requires IsRun(s, es)
    decreases |es|, 1
  {
    if es == [] then s else Step(After(s, es[..|es| - 1]), es[|es| - 1])
  }

  lemma Extend(s: St, es: seq<Event>, e: Event)
    requires IsRun(s, es) && Enabled(After(s, es), e)
    ensures IsRun(s, es + [e]) && After(s, es + [e]) == Step(After(s, es), e)
  {
    hide Enabled, Step;
    assert (es + [e])[..|es + [e]| - 1] == es;
  }

  lemma {:induction false} RunConcat(s: St, a: seq<Event>, b: seq<Event>)
    requires IsRun(s, a) && IsRun(After(s, a), b)
    ensures IsRun(s, a + b) && After(s, a + b) == After(After(s, a), b)
    decreases |b|
  {
    hide Enabled, Step;
    if b == [] {
      assert a + b == a;
    } else {
      RunConcat(s, a, b[..|b| - 1]);
      assert (a + b)[..|a + b| - 1] == a + b[..|b| - 1];
    }
  }

  lemma OneStep(s: St, e: Event)
    requires Enabled(s, e)
    ensures IsRun(s, [e]) && After(s, [e]) == Step(s, e)
  {
    hide Enabled, Step;
    assert [e][..0] == [];
  }

  lemma TwoSteps(s: St, e: Event, f: Event)
    requires Enabled(s, e) && Enabled(Step(s, e), f)
    ensures IsRun(s, [e, f]) && After(s, [e, f]) == Step(Step(s, e), f)
  {
    hide Enabled, Step;
    OneStep(s, e);
    OneStep(Step(s, e), f);
    RunConcat(s, [e], [f]);
    assert [e] + [f] == [e, f];
  }

  lemma {:induction false} PrefixIsRun(s: St, es: seq<Event>, j: nat)
    requires IsRun(s, es) && j <= |es|
    ensures IsRun(s, es[..j])
    decreases |es|
  {
    if j == |es| {
      assert es[..j] == es;
    } else {
      PrefixIsRun(s, es[..|es| - 1], j);
      assert es[..|es| - 1][..j] == es[..j];
    }
  }

  // ---- From any journal and any directory ----

  /** What startup keeps, whatever it started from. */
  ghost predicate OpenInv(s: St) {
    && Balanced(s.acct) && (!s.phase.Up? ==> s.ops == map[])
    && (s.phase.Opening? ==>
      && Books(s.node.mgr) && s.phase.todo <= s.disk
      && (forall name :: name in s.disk ==>
        name in s.phase.todo || Spared(name) || (name in s.phase.seen && name in s.node.mgr.leases && !AgentFile(name)))
      && (forall id :: id in s.phase.seen && id in s.node.mgr.leases ==> id in s.disk && !AgentFile(id) && !Spared(id)))
  }

  /** Journal and disk agree. */
  ghost predicate Agrees(s: St) {
    Books(s.node.mgr) && (set name | name in s.disk && !Spared(name)) == s.node.mgr.leases.Keys
  }

  lemma BootStartsOpening(s: St, e: Event)
    requires OpenInv(s) && Enabled(s, e) && e.Boot?
    ensures OpenInv(Step(s, e))
  {
    RestoreKeepsBalance(s.node.mgr.cfg, s.acct, s.node.file, e.now, e.readable, e.save);
    hide Restore, RestoreSaves, Balanced, Load, Sum, Keyed, Spared, AgentFile, Ladder, FileAfter;
  }

  lemma StepKeepsOpenInv(s: St, e: Event)
    requires OpenInv(s) && Enabled(s, e)
    ensures OpenInv(Step(s, e))
  {
    if e.Boot? {
      BootStartsOpening(s, e);
    } else if e.DropMissing? {
      hide Balanced, Load, Sum, Keyed, Spared, AgentFile, Ladder, FileAfter;
      DropKeepsBooks(s.node.mgr, [s.node.mgr.leases[e.id]]);
    } else {
      hide Balanced, Keyed, Sum, Spared, AgentFile, LeaseRuns.Step;
    }
  }

  lemma ReadyAgrees(s: St)
    requires OpenInv(s) && Enabled(s, Ready)
    ensures Agrees(Step(s, Ready))
  {
    hide Balanced, Keyed, Sum, AgentFile;
  }

  lemma {:induction false} RunKeepsOpenInv(s: St, es: seq<Event>)
    requires OpenInv(s) && IsRun(s, es)
    ensures OpenInv(After(s, es))
    decreases |es|
  {
    hide OpenInv, Enabled, Step;
    if es != [] {
      RunKeepsOpenInv(s, es[..|es| - 1]);
      StepKeepsOpenInv(After(s, es[..|es| - 1]), es[|es| - 1]);
    }
  }

  /** From any journal and any contents of the directory, killed and restarted any
      number of times on the way, an Open that succeeds leaves exactly the live
      leases as extents and Borrowed equal to the sum of their sizes. */
  lemma EveryOpenReconciles(s: St, es: seq<Event>)
    requires s.phase.Down? && s.ops == map[] && Balanced(s.acct) && IsRun(s, es)
    requires es != [] && es[|es| - 1] == Ready
    ensures Agrees(After(s, es))
  {
    hide Balanced, Agrees, Step;
    var front := es[..|es| - 1];
    assert OpenInv(s);
    hide OpenInv;
    RunKeepsOpenInv(s, front);
    ReadyAgrees(After(s, front));
  }

  // ---- What the node keeps while it runs ----

  /** The journal holds leases that fit the device together. */
  ghost predicate Fits(acct: Accounting, f: File, m: LeaseMap) {
    Keyed(m) && Load(f) == Some(Ladder(m)) && acct.reserved + Sum(m) <= acct.capacity
  }

  ghost predicate JournalFits(acct: Accounting, f: File) {
    exists m :: Fits(acct, f, m)
  }

  ghost predicate SameDevice(acct: Accounting, m: Mgr) {
    m.acct == acct.(borrowed := m.acct.borrowed)
  }

  ghost predicate Sound(acct: Accounting, n: LeaseRuns.Node) {
    LeaseRuns.NodeInv(n) && SameDevice(acct, n.mgr) && JournalFits(acct, n.file)
  }

  lemma SavedFits(acct: Accounting, f: File, m: Mgr, save: Saving)
    requires JournalFits(acct, f) && Books(m) && SameDevice(acct, m)
    ensures JournalFits(acct, FileAfter(f, Ladder(m.leases), save))
  {
    hide Ladder, Load;
    if save != FailedOld {
      LoadInvertsSave(m.leases, f, save);
      assert Fits(acct, FileAfter(f, Ladder(m.leases), save), m.leases);
    }
  }

  lemma GrantFits(acct: Accounting, n: LeaseRuns.Node, l: Lease, now: int, save: Saving)
    requires Sound(acct, n) && n.now <= now
    ensures Sound(acct, LeaseRuns.Step(n, LeaseRuns.DoAccept(l, now, save)))
  {
    hide LeaseRuns.NodeInv, LeaseRuns.Step, Accept, Ladder, FileAfter, Books, JournalFits;
    LeaseRuns.StepKeepsInv(n, LeaseRuns.DoAccept(l, now, save));
    LeaseRuns.BooksOf(n);
    AcceptKeepsBooks(n.mgr, l, now, Saved);
    AcceptJournals(n, l, now, save);
    SavedFits(acct, n.file, Accept(n.mgr, l, now, Saved).0, save);
  }

  /** What an Accept writes is what the node would then hold. */
  lemma AcceptJournals(n: LeaseRuns.Node, l: Lease, now: int, save: Saving)
    ensures var u, m := LeaseRuns.Step(n, LeaseRuns.DoAccept(l, now, save)), Accept(n.mgr, l, now, Saved).0;
      && (u.file == n.file || u.file == FileAfter(n.file, Ladder(m.leases), save))
      && u.mgr.acct == n.mgr.acct.(borrowed := u.mgr.acct.borrowed)
      && m.acct == n.mgr.acct.(borrowed := m.acct.borrowed)
  {
    hide Prune, Ladder, FileAfter, Churning, InCooldown, Lend, Wrap64, Sum, OfTenant, GuaranteedOf;
  }

  lemma OpKeepsSound(acct: Accounting, n: LeaseRuns.Node, op: LeaseRuns.Op)
    requires Sound(acct, n) && LeaseRuns.Legal(n, op) && (op.DoRestart? ==> op.acct == acct)
    ensures Sound(acct, LeaseRuns.Step(n, op))
  {
    if op.DoAccept? {
      GrantFits(acct, n, op.l, op.now, op.save);
    } else {
      var u := LeaseRuns.Step(n, op);
      LeaseRuns.StepKeepsInv(n, op);
      LeaseRuns.BooksOf(u);
      hide LeaseRuns.NodeInv, Prune, Ladder, FileAfter, Balanced, JournalFits, Ids, Total, Taken, Books;
      if op.DoRestart? {
        RestoreKeepsBalance(n.mgr.cfg, acct, n.file, op.now, op.readable, op.save);
        hide Restore, RestoreSaves;
        SavedFits(acct, n.file, u.mgr, op.save);
      } else {
        assert SameDevice(acct, u.mgr);
        SavedFits(acct, n.file, u.mgr, op.save);
      }
    }
  }

  /** Only a valid name is ever renamed, and a reclaim discards each name once. */
  ghost predicate PcInv(pc: Pc) {
    match pc
    case Discarding(ids, release) => ids != [] && (!release ==> NoDup(ids))
    case Unlinking(ids, release) => ids != [] && ValidLeaseId(ids[0]) && (!release ==> NoDup(ids))
    case _ => true
  }

  ghost predicate AgentInv(s: St) {
    && Balanced(s.acct) && Sound(s.acct, s.node)
    && (!s.phase.Up? ==> s.ops == map[]) && (forall t :: t in s.ops ==> t < s.steps && PcInv(s.ops[t]))
  }

  lemma StepKeepsInv(s: St, e: Event)
    requires AgentInv(s) && Enabled(s, e)
    ensures AgentInv(Step(s, e))
  {
    hide LeaseRuns.Step, Balanced;
    var op := Asks(s, e);
    if op.Some? {
      OpKeepsSound(s.acct, s.node, op.value);
    }
    NextPcInv(s, e);
    hide Sound, PcInv, PcAfter;
  }

  lemma NextPcInv(s: St, e: Event)
    requires AgentInv(s) && Enabled(s, e)
    ensures PcAfter(s, e).1.Some? ==> PcInv(PcAfter(s, e).1.value)
  {
    if e.StartReclaim? {
      LeaseRuns.BooksOf(s.node);
      DroppedOnce(s.node.mgr, e.need, e.now);
    }
    hide Sound, Accept, Reclaim, ValidLeaseId, Unlinks, Creates;
  }

  /** A reclaim names each lease it drops once. */
  lemma DroppedOnce(m: Mgr, need: int, now: int)
    requires Keyed(m.leases)
    ensures NoDup(Reclaim(m, need, now).1.dropped)
  {
    hide Taken, Total, Prune, AnyElastic, Ladder;
    if need > 0 {
      var expired, early := Ladder(ExpiredOf(m.leases, now)), TakenEarly(m, need, now);
      LadderParts(m.leases, ExpiredOf(m.leases, now));
      EarlyIsLive(m, need, now);
      hide TakenEarly;
      DistinctIdsOnce(expired);
      DistinctIdsOnce(early);
      IdsAre(expired);
      IdsAre(early);
      hide Ids, DistinctIds;
      forall i, j | 0 <= i < |expired| && 0 <= j < |early| ensures Ids(expired)[i] != Ids(early)[j] {
        assert expired[i] in expired && early[j] in early;
      }
    }
  }

  lemma {:induction false} DistinctIdsOnce(ls: seq<Lease>)
    requires DistinctIds(ls)
    ensures NoDup(Ids(ls))
  {
    if ls != [] {
      DistinctIdsOnce(ls[1..]);
      IdsAre(ls[1..]);
      var rest := Ids(ls[1..]);
      forall j | 0 <= j < |rest| ensures rest[j] != ls[0].id {
        assert ls[1..][j] in ls[1..];
      }
    }
  }

  // ---- A grant that returned ----

  /** The call is about this name, and may yet take away its extent or its lease. */
  predicate Touches(pc: Pc, id: string) {
    match pc
    case Creating(l) => l.id == id
    case Reserving(l) => l.id == id
    case Partial(x) => x == id
    case Undoing(x) => x == id
    case Freeing(x) => x == id
    case Discarding(ids, release) => if release then ids != [] && ids[0] == id else id in ids
    case Unlinking(ids, release) => ids != [] && if release then ids[0] == id else id in ids[1..]
  }

  /** And can. A release between its rename and its unlink fails, and so frees nothing,
      if what it renamed has gone. */
  predicate Threatens(disk: set<string>, pc: Pc, id: string) {
    Touches(pc, id) && (pc.Unlinking? && pc.release ==> Invalidated(id) in disk)
  }

  ghost predicate Unthreatened(s: St, id: string, but: int) {
    forall t :: t in s.ops && t != but ==> !Threatens(s.disk, s.ops[t], id)
  }

  /** The call may take an extent of this name off the disk. */
  predicate Clears(pc: Pc, id: string) {
    Touches(pc, id) && (pc.Reserving? || pc.Partial? || pc.Discarding? || (pc.Unlinking? && !pc.release))
  }

  ghost predicate Recorded(f: File, g: Lease) {
    Load(f).Some? && g in Load(f).value
  }

  ghost predicate Live(m: Mgr, g: Lease) {
    g.id in m.leases && m.leases[g.id] == g
  }

  /** The lease is recorded, its extent is there, and nothing outstanding will
      change that. */
  ghost predicate Pledged(s: St, g: Lease) {
    && ValidLeaseId(g.id) && g.id in s.disk && Recorded(s.node.file, g) && Unthreatened(s, g.id, -1)
    && (!s.phase.Down? ==> Live(s.node.mgr, g))
    && (s.phase.Opening? ==> g.id in s.phase.todo + s.phase.seen)
  }

  /** Grant number i is still on its way to success. */
  ghost predicate Underway(s: St, g: Lease, i: nat) {
    && s.phase.Up? && i in s.ops && Live(s.node.mgr, g) && Recorded(s.node.file, g) && Unthreatened(s, g.id, i)
    && (s.ops[i] == Creating(g) || (s.ops[i] == Reserving(g) && g.id in s.disk && ValidLeaseId(g.id)))
  }

  /** Grant number i cannot return success any more. */
  ghost predicate Failed(s: St, i: nat) {
    i < s.steps && (i in s.ops ==> !s.ops[i].Creating? && !s.ops[i].Reserving?)
  }

  /** The step is not a release of the lease, a reclaim that takes it, a start
      after its term, or one that cannot read the journal and replaces it. */
  ghost predicate Spares(s: St, e: Event, g: Lease) {
    && e != StartRelease(g.id)
    && (e.StartReclaim? ==> g.id !in Reclaim(s.node.mgr, e.need, e.now).1.dropped)
    && (e.Boot? ==> !Expired(g, e.now) && (e.readable || e.save == FailedOld))
  }

  // ---- The lease and its record ----

  lemma SavedRecords(f: File, m: LeaseMap, g: Lease, save: Saving)
    requires Keyed(m) && Recorded(f, g) && g.id in m && m[g.id] == g
    ensures Recorded(FileAfter(f, Ladder(m), save), g)
  {
    if save != FailedOld {
      LoadInvertsSave(m, f, save);
      LadderIs(m);
    }
  }

  lemma NeverTwice(n: LeaseRuns.Node, l: Lease, now: int, save: Saving, g: Lease)
    requires LeaseRuns.NodeInv(n) && n.now <= now && Live(n.mgr, g) && Recorded(n.file, g)
    ensures var u := LeaseRuns.Step(n, LeaseRuns.DoAccept(l, now, save)); Live(u.mgr, g) && Recorded(u.file, g)
    ensures l.id == g.id ==> Accept(n.mgr, l, now, save).1.Some?
  {
    LeaseRuns.BooksOf(n);
    AcceptKeepsBooks(n.mgr, l, now, Saved);
    hide LeaseRuns.NodeInv, Prune, Ladder, FileAfter, Balanced, Churning, InCooldown, QuotaRefusal, Lend, Recorded;
    var p := Pruned(n.mgr, now);
    if Refused(p, l, now).None? {
      assert l.id != g.id;
      SavedRecords(n.file, Granted(p, l, now).leases, g, save);
    }
  }

  lemma ReleaseOfAnother(n: LeaseRuns.Node, id: string, now: int, save: Saving, g: Lease)
    requires LeaseRuns.NodeInv(n) && n.now <= now && Live(n.mgr, g) && Recorded(n.file, g) && id != g.id
    ensures var u := LeaseRuns.Step(n, LeaseRuns.DoRelease(id, now, save)); Live(u.mgr, g) && Recorded(u.file, g)
  {
    var u := LeaseRuns.Step(n, LeaseRuns.DoRelease(id, now, save));
    LeaseRuns.StepKeepsInv(n, LeaseRuns.DoRelease(id, now, save));
    LeaseRuns.BooksOf(u);
    hide LeaseRuns.NodeInv, Ladder, FileAfter, Balanced, Recorded, Sum;
    SavedRecords(n.file, u.mgr.leases, g, save);
  }

  lemma ReclaimOfOthers(n: LeaseRuns.Node, need: int, now: int, save: Saving, g: Lease)
    requires LeaseRuns.NodeInv(n) && n.now <= now && Live(n.mgr, g) && Recorded(n.file, g)
    requires g.id !in Reclaim(n.mgr, need, now).1.dropped
    ensures var u := LeaseRuns.Step(n, LeaseRuns.DoReclaim(need, now, save)); Live(u.mgr, g) && Recorded(u.file, g)
  {
    var u := LeaseRuns.Step(n, LeaseRuns.DoReclaim(need, now, save));
    LeaseRuns.StepKeepsInv(n, LeaseRuns.DoReclaim(need, now, save));
    LeaseRuns.BooksOf(u);
    hide LeaseRuns.NodeInv, Ladder, FileAfter, Balanced, Recorded, Sum, Prune, Ids, Total, Taken, AnyElastic;
    if need > 0 {
      IdsAre(Ladder(ExpiredOf(n.mgr.leases, now)));
      IdsAre(TakenEarly(n.mgr, need, now));
      hide TakenEarly, ExpiredOf;
      assert g.id in u.mgr.leases;
    }
    SavedRecords(n.file, u.mgr.leases, g, save);
  }

  lemma RestartRemembers(acct: Accounting, n: LeaseRuns.Node, now: int, save: Saving, g: Lease)
    requires Sound(acct, n) && Balanced(acct) && n.now <= now && Recorded(n.file, g) && !Expired(g, now)
    ensures var u := LeaseRuns.Step(n, LeaseRuns.DoRestart(acct, now, true, save));
      Live(u.mgr, g) && Recorded(u.file, g)
  {
    hide LeaseRuns.NodeInv, Ladder, FileAfter, Balanced, Sum, Restore, RestoreSaves, Load;
    var u := LeaseRuns.Step(n, LeaseRuns.DoRestart(acct, now, true, save));
    LeaseRuns.StepKeepsInv(n, LeaseRuns.DoRestart(acct, now, true, save));
    LeaseRuns.BooksOf(u);
    RestoredHolds(acct, n.mgr.cfg, n.file, now, save, g);
    SavedRecords(n.file, u.mgr.leases, g, save);
  }

  lemma RestoredHolds(acct: Accounting, cfg: Config, f: File, now: int, save: Saving, g: Lease)
    requires JournalFits(acct, f) && Balanced(acct) && Recorded(f, g) && !Expired(g, now)
    ensures Live(Restore(cfg, acct, f, now, true, save), g)
  {
    hide Balanced, Sum, Restore, Load;
    var snap :| Fits(acct, f, snap);
    LadderIs(snap);
    RestoreKeepsASnapshot(cfg, acct, f, snap, now, save);
  }

  /** A start that cannot read the journal replaces it by an empty one, and so
      forgets every lease, exactly when it gets to write it. */
  lemma UnreadIsForgotten(acct: Accounting, n: LeaseRuns.Node, now: int, save: Saving, g: Lease)
    requires Recorded(n.file, g)
    ensures Recorded(LeaseRuns.Step(n, LeaseRuns.DoRestart(acct, now, false, save)).file, g) <==> save == FailedOld
  {
    hide Relend;
    if save != FailedOld {
      LoadInvertsSave(map[], n.file, save);
    }
  }

  /** No step that spares a recorded lease, and does not give that very lease
      back, loses it or its record. */
  lemma NodeKeepsLease(s: St, e: Event, g: Lease)
    requires AgentInv(s) && Enabled(s, e) && Spares(s, e, g) && Recorded(s.node.file, g)
    requires !s.phase.Down? ==> Live(s.node.mgr, g)
    requires e.Undo? || e.Free? ==> s.ops[e.t].id != g.id
    requires e.DropMissing? ==> e.id != g.id
    ensures Recorded(NodeAfter(s, e).file, g)
    ensures !s.phase.Down? || (e.Boot? && e.readable) ==> Live(NodeAfter(s, e).mgr, g)
  {
    hide Live, Recorded, LeaseRuns.Step, LeaseRuns.NodeInv, JournalFits, Balanced, Reclaim;
    match e
    case Boot(now, readable, save) =>
      if readable {
        RestartRemembers(s.acct, s.node, now, save, g);
      } else {
        UnreadIsForgotten(s.acct, s.node, now, save, g);
      }
    case DropMissing(id, save) => ReleaseOfAnother(s.node, id, s.node.now, save, g);
    case StartGrant(l, now, save) => NeverTwice(s.node, l, now, save, g);
    case Undo(t, save) => ReleaseOfAnother(s.node, s.ops[t].id, s.node.now, save, g);
    case Free(t, save) => ReleaseOfAnother(s.node, s.ops[t].id, s.node.now, save, g);
    case StartReclaim(need, now, save) => ReclaimOfOthers(s.node, need, now, save, g);
    case _ =>
  }

  // ---- The extent ----

  /** The call a step moves on, if it moves one on. */
  function Moves(e: Event): Option<nat> {
    match e
    case Create(t, _) => Some(t)
    case Reserve(t, _) => Some(t)
    case RemovePartial(t, _) => Some(t)
    case Undo(t, _) => Some(t)
    case Rename(t, _) => Some(t)
    case Unlink(t, _) => Some(t)
    case Free(t, _) => Some(t)
    case _ => None
  }

  /** A call never comes to be about a name by moving on, and one that starts is about
      it only if it is named. */
  lemma TouchesDoNotAppear(s: St, e: Event, g: Lease)
    requires Enabled(s, e) && Spares(s, e, g)
    ensures var (t, pc) := PcAfter(s, e); pc.Some? && Touches(pc.value, g.id) ==>
      || (t in s.ops && Moves(e) == Some(t) && Touches(s.ops[t], g.id))
      || (e.StartGrant? && pc == Some(Creating(e.l.(grantedAt := e.now))) && g.id !in s.node.mgr.leases)
  {
    if e.StartGrant? && e.l.id == g.id {
      AcceptedIsNew(s.node.mgr, e.l, e.now, e.save);
    }
    hide Accept, Reclaim, Renames, Unlinks, Creates;
  }

  /** Nor does an extent on its way out come back but by a rename of this name. */
  lemma InvalidStaysAway(s: St, e: Event, id: string)
    requires Enabled(s, e) && s.phase.Up? && ValidLeaseId(id) && Invalidated(id) !in s.disk
    requires e.Rename? ==> s.ops[e.t].ids[0] != id
    ensures Invalidated(id) !in DiskAfter(s, e)
  {
    InvalidatedIsNotTheAgents(id);
    if e.Create? && ValidLeaseId(s.ops[e.t].l.id) {
      ExtentsAreApart(s.ops[e.t].l.id, id);
    }
    if e.Rename? && Invalidated(s.ops[e.t].ids[0]) == Invalidated(id) {
      InvalidatedIsInjective(s.ops[e.t].ids[0], id);
    }
    hide ValidLeaseId, AgentFile, Spared, Invalidated;
  }

  /** A call that is no threat to a lease live does not become one, moved on or not. */
  lemma ThreatsDoNotAppear(s: St, e: Event, g: Lease, t: nat)
    requires AgentInv(s) && Enabled(s, e) && Spares(s, e, g) && Live(s.node.mgr, g) && s.phase.Up?
    requires t in OpsAfter(s, e) && Threatens(DiskAfter(s, e), OpsAfter(s, e)[t], g.id)
    requires e.Rename? ==> !Threatens(s.disk, s.ops[e.t], g.id)
    ensures t in s.ops && Threatens(s.disk, s.ops[t], g.id)
  {
    hide Sound, Spares;
    TouchesDoNotAppear(s, e, g);
    var pc := OpsAfter(s, e)[t];
    if t in s.ops && s.ops[t] == pc && Invalidated(g.id) !in s.disk && pc.Unlinking? && pc.release {
      assert PcInv(pc);
      InvalidStaysAway(s, e, g.id);
    }
    if Moves(e) == Some(t) && Touches(s.ops[t], g.id) {
      MovedThreat(s, e, g.id, t);
    }
  }

  lemma MovedThreat(s: St, e: Event, id: string, t: nat)
    requires AgentInv(s) && Enabled(s, e) && Moves(e) == Some(t) && t in OpsAfter(s, e) && Touches(s.ops[t], id)
    ensures Threatens(DiskAfter(s, e), OpsAfter(s, e)[t], id) ==> Threatens(s.disk, s.ops[t], id)
  {
    hide Sound, ValidLeaseId;
  }

  lemma AcceptedIsNew(m: Mgr, l: Lease, now: int, save: Saving)
    ensures Accept(m, l, now, save).1.None? ==> l.id !in m.leases && save == Saved
  {
    hide Churning, InCooldown, QuotaRefusal, Lend, Prune;
  }

  /** Only a call that clears an extent's name takes it off the disk. */
  lemma ExtentStays(s: St, e: Event, g: Lease)
    requires Enabled(s, e) && ValidLeaseId(g.id) && g.id in s.disk
    requires Moves(e).Some? ==> !Clears(s.ops[Moves(e).value], g.id) || e.Reserve?
    requires s.phase.Opening? ==> Live(s.node.mgr, g)
    ensures g.id in DiskAfter(s, e)
  {
    ExtentsAreApart(g.id, if e.Unlink? then s.ops[e.t].ids[0] else g.id);
    hide ValidLeaseId, AgentFile, Spared, Invalidated;
  }

  lemma StepKeepsPledge(s: St, e: Event, g: Lease)
    requires AgentInv(s) && Enabled(s, e) && Spares(s, e, g) && Pledged(s, g)
    ensures Pledged(Step(s, e), g)
  {
    ExtentsAreApart(g.id, g.id);
    hide ValidLeaseId, AgentFile, Spared, Invalidated, Sound, Recorded, Spares, NodeAfter, DiskAfter, Live;
    MissingIsAnother(s, e, g);
    NodeKeepsLease(s, e, g);
    ExtentStays(s, e, g);
    PledgePhase(s, e, g);
    StaysUnthreatened(s, e, g, -1);
    hide Enabled, Unthreatened, PhaseAfter, OpsAfter;
  }

  lemma StaysUnthreatened(s: St, e: Event, g: Lease, but: int)
    requires AgentInv(s) && Enabled(s, e) && Spares(s, e, g) && Unthreatened(s, g.id, but)
    requires s.phase.Up? ==> Live(s.node.mgr, g)
    requires but in s.ops ==> s.ops[but].Creating? || s.ops[but].Reserving?
    ensures Unthreatened(Step(s, e), g.id, but)
  {
    hide PcAfter, Threatens, AgentInv, Spares, Live, NodeAfter, DiskAfter, PhaseAfter;
    if PhaseAfter(s, e).Up? && s.phase.Up? {
      forall t | t in OpsAfter(s, e) && t != but ensures !Threatens(DiskAfter(s, e), OpsAfter(s, e)[t], g.id) {
        if Threatens(DiskAfter(s, e), OpsAfter(s, e)[t], g.id) {
          ThreatsDoNotAppear(s, e, g, t);
          assert false;
        }
      }
    } else {
      NoOpsUnlessUp(s, e);
    }
  }

  lemma NoOpsUnlessUp(s: St, e: Event)
    requires AgentInv(s) && Enabled(s, e) && !(PhaseAfter(s, e).Up? && s.phase.Up?)
    ensures OpsAfter(s, e) == map[]
  {
    hide Sound;
  }

  lemma MissingIsAnother(s: St, e: Event, g: Lease)
    requires Enabled(s, e) && Pledged(s, g)
    ensures e.Undo? || e.Free? ==> s.ops[e.t].id != g.id
    ensures e.DropMissing? ==> e.id != g.id
    ensures Moves(e).Some? ==> Moves(e).value in s.ops && !Threatens(s.disk, s.ops[Moves(e).value], g.id)
    ensures Moves(e).Some? ==> !Clears(s.ops[Moves(e).value], g.id)
  {
    hide Recorded, Live, ValidLeaseId;
  }

  lemma PledgePhase(s: St, e: Event, g: Lease)
    requires Enabled(s, e) && Pledged(s, g) && !Spared(g.id) && !AgentFile(g.id)
    ensures var p := PhaseAfter(s, e);
      && (p.Opening? ==> g.id in p.todo + p.seen)
      && (!p.Down? ==> !s.phase.Down? || (e.Boot? && e.readable))
  {
    hide Recorded, Live, ValidLeaseId, Spared, AgentFile;
  }

  // ---- From the grant to its return ----

  /** Each step of an accepted grant leaves it under way, or failed, or returned. */
  lemma StepKeepsGrant(s: St, e: Event, g: Lease, i: nat)
    requires AgentInv(s) && Enabled(s, e) && Spares(s, e, g) && Underway(s, g, i)
    ensures var u := Step(s, e);
      if e == Reserve(i, Done) then Pledged(u, g) else Underway(u, g, i) || Failed(u, i)
  {
    hide ValidLeaseId, AgentFile, Spared, Invalidated, Sound, Recorded, Spares, NodeAfter, Live, Accept, Reclaim;
    if e.Crash? || (Moves(e) == Some(i) && e != Reserve(i, Done) && !(e.Create? && Creates(s, g, e.ok))) {
    } else {
      NotItself(s, e, g, i);
      NodeKeepsLease(s, e, g);
      StaysUnthreatened(s, e, g, i);
      if s.ops[i].Reserving? {
        ExtentStays(s, e, g);
      }
      hide DiskAfter, Threatens;
      if e.Create? && e.t == i {
        CreatedIsThere(s, e);
      }
    }
  }

  lemma NotItself(s: St, e: Event, g: Lease, i: nat)
    requires Enabled(s, e) && Underway(s, g, i) && (Moves(e) == Some(i) ==> e.Create? || e.Reserve?)
    ensures e.Undo? || e.Free? ==> s.ops[e.t].id != g.id
    ensures Moves(e).Some? && Moves(e) != Some(i) ==> !Clears(s.ops[Moves(e).value], g.id)
    ensures !e.DropMissing? && !e.Boot?
  {
    hide Recorded, Live, ValidLeaseId;
  }

  lemma CreatedIsThere(s: St, e: Event)
    requires Enabled(s, e) && e.Create? && Creates(s, s.ops[e.t].l, e.ok)
    ensures s.ops[e.t].l.id in DiskAfter(s, e) && ValidLeaseId(s.ops[e.t].l.id)
  {
    hide ValidLeaseId;
  }

  lemma FailedStaysFailed(s: St, e: Event, i: nat)
    requires AgentInv(s) && Enabled(s, e) && Failed(s, i)
    ensures Failed(Step(s, e), i) && e != Reserve(i, Done)
  {
    hide Accept, Reclaim, Sound, NodeAfter, DiskAfter, Renames, Unlinks, Creates;
  }

  /** An accepted grant starts under way if nothing outstanding threatens its name. */
  lemma GrantStarts(s: St, l: Lease, now: int, save: Saving)
    requires AgentInv(s) && Enabled(s, StartGrant(l, now, save)) && Accept(s.node.mgr, l, now, save).1.None?
    requires Unthreatened(s, l.id, -1)
    ensures Underway(Step(s, StartGrant(l, now, save)), l.(grantedAt := now), s.steps)
  {
    hide Sound, Threatens, Accept, LeaseRuns.Step, Live, Recorded;
    GrantIsRecorded(s.acct, s.node, l, now, save);
  }

  lemma GrantIsRecorded(acct: Accounting, n: LeaseRuns.Node, l: Lease, now: int, save: Saving)
    requires Sound(acct, n) && Accept(n.mgr, l, now, save).1.None?
    ensures var g, u := l.(grantedAt := now), LeaseRuns.Step(n, LeaseRuns.DoAccept(l, now, save));
      Live(u.mgr, g) && Recorded(u.file, g)
  {
    var u := LeaseRuns.Step(n, LeaseRuns.DoAccept(l, now, save));
    LeaseRuns.BooksOf(n);
    AcceptKeepsBooks(n.mgr, l, now, save);
    AcceptedIsNew(n.mgr, l, now, save);
    hide LeaseRuns.NodeInv, JournalFits, Refused, Prune, Ladder, Balanced, Load;
    LoadInvertsSave(u.mgr.leases, n.file, save);
    LadderIs(u.mgr.leases);
  }

  // ---- Whole runs ----

  ghost predicate Fresh(s: St) {
    && LeaseRuns.Fresh(s.node) && s.node.mgr.acct == s.acct
    && s.phase.Down? && s.ops == map[] && s.steps == 0
  }

  lemma FreshInv(s: St)
    requires Fresh(s)
    ensures AgentInv(s)
  {
    LeaseRuns.FreshInv(s.node);
    hide LeaseRuns.NodeInv;
    assert Fits(s.acct, s.node.file, map[]);
  }

  lemma {:induction false} RunKeepsInv(s: St, es: seq<Event>)
    requires Fresh(s) && IsRun(s, es)
    ensures AgentInv(After(s, es)) && After(s, es).steps == |es|
    decreases |es|
  {
    hide AgentInv, Enabled, Fresh;
    if es == [] {
      FreshInv(s);
      StartsAtZero(s);
    } else {
      RunKeepsInv(s, es[..|es| - 1]);
      StepKeepsInv(After(s, es[..|es| - 1]), es[|es| - 1]);
    }
  }

  lemma StartsAtZero(s: St)
    requires Fresh(s)
    ensures s.steps == 0
  {
  }
}
