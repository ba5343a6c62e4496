/** When the promise to a grant holds: exactly when, as it begins, no call outstanding
    on its name could both let it succeed and undo it. */
module GrantPromise {
  import opened Common
  import opened Leases
  import opened LeaseManager
  import opened PoolNames
  import opened AgentRuns
  import LeaseRuns

  // ---- Calls on a name that do no harm ----

  predicate Reclaiming(pc: Pc, id: string) {
    (pc.Discarding? || pc.Unlinking?) && !pc.release && Touches(pc, id)
  }

  /** An extent of this name is still there, a reclaim is about to discard it, and no
      other call is about the name. Until the rename no grant of it can succeed, and
      after it the reclaim is done with it. */
  ghost predicate ShadowedBy(s: St, id: string, but: int, r: nat) {
    && ValidLeaseId(id) && id in s.disk && r in s.ops && r != but && Reclaiming(s.ops[r], id)
    && forall t :: t in s.ops && t != r && t != but ==> !Touches(s.ops[t], id)
  }

  /** No grant of this name can succeed: it is no name for an extent, or one is there
      and no call will take it away. */
  ghost predicate Hopeless(s: St, id: string, but: int) {
    !ValidLeaseId(id) || (id in s.disk && forall t :: t in s.ops && t != but ==> !Clears(s.ops[t], id))
  }

  ghost predicate Calm(s: St, id: string) {
    Hopeless(s, id, -1) || Unthreatened(s, id, -1) || exists r :: ShadowedBy(s, id, -1, r)
  }

  // ---- A calm beginning keeps the promise ----

  ghost predicate Waiting(s: St, g: Lease, i: nat) {
    && s.phase.Up? && i in s.ops && s.ops[i] == Creating(g)
    && (Hopeless(s, g.id, i) ||
        (Live(s.node.mgr, g) && Recorded(s.node.file, g) && exists r :: ShadowedBy(s, g.id, i, r)))
  }

  ghost predicate OnItsWay(s: St, g: Lease, i: nat) {
    Underway(s, g, i) || Waiting(s, g, i)
  }

  lemma CalmGrantStarts(s: St, l: Lease, now: int, save: Saving)
    requires AgentInv(s) && Enabled(s, StartGrant(l, now, save)) && Accept(s.node.mgr, l, now, save).1.None?
    requires Calm(s, l.id)
    ensures OnItsWay(Step(s, StartGrant(l, now, save)), l.(grantedAt := now), s.steps)
  {
    hide Sound, Threatens, Touches, Clears, Accept, LeaseRuns.Step, Live, Recorded, ValidLeaseId, Underway,
      Unthreatened;
    if Unthreatened(s, l.id, -1) {
      GrantStarts(s, l, now, save);
    } else {
      GrantIsRecorded(s.acct, s.node, l, now, save);
      var u := Step(s, StartGrant(l, now, save));
      if !Hopeless(s, l.id, -1) {
        var r :| ShadowedBy(s, l.id, -1, r);
        assert ShadowedBy(u, l.id, s.steps, r);
      }
    }
  }

  /** A call that would clear a name does not appear while its extent is there. */
  lemma ClearsDoNotAppear(s: St, e: Event, g: Lease)
    requires Enabled(s, e) && Spares(s, e, g) && g.id in s.disk
    ensures var (t, pc) := PcAfter(s, e); pc.Some? && Clears(pc.value, g.id) ==>
      t in s.ops && Moves(e) == Some(t) && Clears(s.ops[t], g.id)
  {
    TouchesDoNotAppear(s, e, g);
    hide Accept, Reclaim, ValidLeaseId, Spares;
  }

  lemma HopelessStays(s: St, e: Event, g: Lease, i: nat)
    requires AgentInv(s) && Enabled(s, e) && Spares(s, e, g) && s.phase.Up? && i in s.ops && s.ops[i] == Creating(g)
    requires Hopeless(s, g.id, i)
    ensures Waiting(Step(s, e), g, i) || Failed(Step(s, e), i)
  {
    hide Sound, Spares, NodeAfter, ValidLeaseId, Clears, Live, Recorded;
    if ValidLeaseId(g.id) && !e.Crash? && Moves(e) != Some(i) {
      ClearsDoNotAppear(s, e, g);
      ExtentStays(s, e, g);
    }
    hide PcAfter, DiskAfter;
    MovesOn(s, e, g, i);
  }

  /** What becomes of the grant's own call while its extent cannot be made. */
  lemma MovesOn(s: St, e: Event, g: Lease, i: nat)
    requires AgentInv(s) && Enabled(s, e) && s.phase.Up? && i in s.ops && s.ops[i] == Creating(g)
    requires !ValidLeaseId(g.id) || g.id in s.disk
    ensures Failed(Step(s, e), i) || (Step(s, e).phase.Up? && i in Step(s, e).ops && Step(s, e).ops[i] == Creating(g))
    ensures e.Crash? || Moves(e) == Some(i) ==> Failed(Step(s, e), i)
    ensures !e.Crash? ==> Step(s, e).phase.Up?
  {
    hide Sound, ValidLeaseId, NodeAfter, Accept, Reclaim;
  }

  /** The reclaim on the name either stays before it or has done with it. */
  lemma ReclaimMoves(s: St, e: Event, id: string, r: nat)
    requires AgentInv(s) && Enabled(s, e) && s.phase.Up? && r in s.ops && Reclaiming(s.ops[r], id)
    requires Moves(e) == Some(r)
    requires ValidLeaseId(id) && id in s.disk
    ensures var after := OpsAfter(s, e);
      || (r in after && Reclaiming(after[r], id) && id in DiskAfter(s, e))
      || (r in after ==> !Touches(after[r], id))
  {
    ExtentsAreApart(id, s.ops[r].ids[0]);
    hide Sound, ValidLeaseId, Invalidated, AgentFile, Spared;
    assert PcInv(s.ops[r]);
    var ids := s.ops[r].ids;
    assert forall j :: 0 < j < |ids| ==> ids[j] != ids[0];
    assert forall x :: x in ids[1..] ==> x in ids && x != ids[0];
  }

  lemma ShadowStays(s: St, e: Event, g: Lease, i: nat, r: nat)
    requires AgentInv(s) && Enabled(s, e) && Spares(s, e, g) && s.phase.Up? && i in s.ops && s.ops[i] == Creating(g)
    requires Live(s.node.mgr, g) && Recorded(s.node.file, g) && ShadowedBy(s, g.id, i, r)
    ensures OnItsWay(Step(s, e), g, i) || Failed(Step(s, e), i)
  {
    hide Sound, Spares, ValidLeaseId, Live, Recorded, NodeAfter, Step;
    MovesOn(s, e, g, i);
    if !e.Crash? && Moves(e) != Some(i) {
      OthersStayAway(s, e, g, i, r);
      NodeKeepsLease(s, e, g);
      if Moves(e) == Some(r) {
        ReclaimMoves(s, e, g.id, r);
      } else {
        ExtentStays(s, e, g);
      }
      Settles(s, e, g, i, r);
    }
  }

  /** No other call comes to be about the name. */
  lemma OthersStayAway(s: St, e: Event, g: Lease, i: nat, r: nat)
    requires AgentInv(s) && Enabled(s, e) && Spares(s, e, g) && s.phase.Up? && i in s.ops && s.ops[i] == Creating(g)
    requires Live(s.node.mgr, g) && ShadowedBy(s, g.id, i, r) && !e.Crash? && Moves(e) != Some(i)
    ensures forall t :: t in OpsAfter(s, e) && t != r && t != i ==> !Touches(OpsAfter(s, e)[t], g.id)
    ensures e.Undo? || e.Free? ==> s.ops[e.t].id != g.id
    ensures !e.DropMissing? && !e.Boot?
    ensures Moves(e).Some? && Moves(e) != Some(r) ==> !Clears(s.ops[Moves(e).value], g.id)
    ensures Moves(e) != Some(r) ==> r in OpsAfter(s, e) && OpsAfter(s, e)[r] == s.ops[r]
    ensures i in OpsAfter(s, e) && OpsAfter(s, e)[i] == Creating(g)
  {
    TouchesDoNotAppear(s, e, g);
    hide Sound, Spares, ValidLeaseId, PcAfter;
    StartsFresh(s, e);
  }

  /** A step moves on one call or starts a new one. */
  lemma StartsFresh(s: St, e: Event)
    requires Enabled(s, e)
    ensures PcAfter(s, e).0 == if Moves(e).Some? then Moves(e).value else s.steps
    ensures Moves(e).Some? ==> Moves(e).value in s.ops
  {
    hide Accept, Reclaim;
  }

  lemma Settles(s: St, e: Event, g: Lease, i: nat, r: nat)
    requires Enabled(s, e) && i != r && Live(NodeAfter(s, e).mgr, g) && Recorded(NodeAfter(s, e).file, g)
    requires ValidLeaseId(g.id)
    requires PhaseAfter(s, e).Up? && i in OpsAfter(s, e) && OpsAfter(s, e)[i] == Creating(g)
    requires forall t :: t in OpsAfter(s, e) && t != r && t != i ==> !Touches(OpsAfter(s, e)[t], g.id)
    requires var after := OpsAfter(s, e);
      (r in after && Reclaiming(after[r], g.id) && g.id in DiskAfter(s, e)) || (r in after ==> !Touches(after[r], g.id))
    ensures OnItsWay(Step(s, e), g, i)
  {
    hide Touches, NodeAfter, PhaseAfter, OpsAfter, DiskAfter, Live, Recorded, ValidLeaseId, Reclaiming;
    var u := Step(s, e);
    if r in u.ops && Reclaiming(u.ops[r], g.id) && g.id in u.disk {
      assert ShadowedBy(u, g.id, i, r);
    } else {
      assert Unthreatened(u, g.id, i);
    }
  }

  /** Each step of a grant begun calmly leaves it on its way, or failed, or returned. */
  lemma StepOnItsWay(s: St, e: Event, g: Lease, i: nat)
    requires AgentInv(s) && Enabled(s, e) && Spares(s, e, g) && OnItsWay(s, g, i)
    ensures var u := Step(s, e);
      if e == Reserve(i, Done) then Pledged(u, g) else OnItsWay(u, g, i) || Failed(u, i)
  {
    hide Underway, Pledged, Failed, AgentInv, Spares, Step, Hopeless, Live, Recorded;
    if Underway(s, g, i) {
      StepKeepsGrant(s, e, g, i);
    } else if Hopeless(s, g.id, i) {
      HopelessStays(s, e, g, i);
    } else {
      var r :| ShadowedBy(s, g.id, i, r);
      ShadowStays(s, e, g, i, r);
    }
  }

  // ---- Whole runs ----

  /** Event i of the run began a grant of g, which was accepted while the calls
      outstanding on its name could do it no harm. */
  ghost predicate Began(s: St, es: seq<Event>, i: nat, g: Lease)
    requires IsRun(s, es)
  {
    i < |es| && es[i].StartGrant? && g == es[i].l.(grantedAt := es[i].now) &&
    (PrefixIsRun(s, es, i);
     var at := After(s, es[..i]);
     Accept(at.node.mgr, es[i].l, es[i].now, es[i].save).1.None? && Calm(at, g.id))
  }

  /** Nothing later in the run releases it, reclaims it, restarts after its term,
      or replaces a journal it could not read. */
  ghost predicate SparedSince(s: St, es: seq<Event>, i: nat, g: Lease)
    requires IsRun(s, es)
  {
    forall j :: i < j < |es| ==> (PrefixIsRun(s, es, j); Spares(After(s, es[..j]), es[j], g))
  }

  ghost predicate ReturnedOk(es: seq<Event>, i: nat) {
    Reserve(i, Done) in es
  }

  lemma OneLess(s: St, es: seq<Event>, i: nat, g: Lease)
    requires IsRun(s, es) && es != [] && i < |es| - 1 && Began(s, es, i, g) && SparedSince(s, es, i, g)
    ensures var front := es[..|es| - 1];
      && IsRun(s, front) && Began(s, front, i, g) && SparedSince(s, front, i, g)
      && Enabled(After(s, front), es[|es| - 1]) && Spares(After(s, front), es[|es| - 1], g)
      && After(s, es) == Step(After(s, front), es[|es| - 1])
  {
    hide Enabled, Step, Spares, Calm, Accept;
    var front := es[..|es| - 1];
    assert front[..i] == es[..i];
    forall j | i < j < |front| ensures (PrefixIsRun(s, front, j); Spares(After(s, front[..j]), front[j], g)) {
      assert front[..j] == es[..j];
      PrefixIsRun(s, front, j);
    }
  }

  lemma {:induction false} GrantRuns(s: St, es: seq<Event>, i: nat, g: Lease)
    requires Fresh(s) && IsRun(s, es) && Began(s, es, i, g) && SparedSince(s, es, i, g)
    ensures var at := After(s, es);
      if ReturnedOk(es[i + 1..], i) then Pledged(at, g) else OnItsWay(at, g, i) || Failed(at, i)
    decreases |es|
  {
    hide AgentInv, Enabled, Fresh, Pledged, OnItsWay, Failed, Step, Spares, Accept, Calm;
    var front, last := es[..|es| - 1], es[|es| - 1];
    RunKeepsInv(s, front);
    if i == |es| - 1 {
      CalmGrantStarts(After(s, front), last.l, last.now, last.save);
    } else {
      OneLess(s, es, i, g);
      GrantRuns(s, front, i, g);
      ReturnsAtTheEnd(es, i);
      hide ReturnedOk, Began, SparedSince;
      var at := After(s, front);
      if ReturnedOk(front[i + 1..], i) {
        StepKeepsPledge(at, last, g);
      } else if OnItsWay(at, g, i) {
        StepOnItsWay(at, last, g, i);
      } else {
        FailedStaysFailed(at, last, i);
      }
    }
  }

  lemma ReturnsAtTheEnd(es: seq<Event>, i: nat)
    requires i < |es| - 1
    ensures ReturnedOk(es[i + 1..], i) <==> ReturnedOk(es[..|es| - 1][i + 1..], i) || es[|es| - 1] == Reserve(i, Done)
  {
    assert es[i + 1..] == es[..|es| - 1][i + 1..] + [es[|es| - 1]];
  }

  /** Over any run, killed at any step: a lease whose Grant returned success and
      which was not released, reclaimed or expired is live with its extent whenever
      the agent is up, and recorded with its extent whenever it is down. */
  lemma GrantedLeaseSurvives(s: St, es: seq<Event>, i: nat, g: Lease)
    requires Fresh(s) && IsRun(s, es) && Began(s, es, i, g) && SparedSince(s, es, i, g) && ReturnedOk(es[i + 1..], i)
    ensures var at := After(s, es);
      g.id in at.disk && if at.phase.Down? then Recorded(at.node.file, g) else Live(at.node.mgr, g)
  {
    hide Fresh, Began, SparedSince, Recorded, Live, ValidLeaseId, Unthreatened;
    GrantRuns(s, es, i, g);
  }

  // ---- And only a calm beginning does ----

  /** Calls already outstanding move on, and nothing else happens. */
  ghost predicate Quiet(es: seq<Event>) {
    forall e :: e in es ==> Moves(e).Some?
  }

  ghost predicate Lost(s: St, id: string) {
    s.phase.Up? && (id !in s.disk || id !in s.node.mgr.leases)
  }

  lemma {:induction false} InvAlong(s: St, es: seq<Event>)
    requires AgentInv(s) && IsRun(s, es)
    ensures AgentInv(After(s, es))
    decreases |es|
  {
    hide AgentInv, Enabled, Step;
    if es != [] {
      InvAlong(s, es[..|es| - 1]);
      StepKeepsInv(After(s, es[..|es| - 1]), es[|es| - 1]);
    }
  }

  /** A reclaim brought to the name without a name before it being discarded. */
  lemma {:induction false} SkipTo(s: St, r: nat, id: string) returns (es: seq<Event>)
    requires s.phase.Up? && r in s.ops && Reclaiming(s.ops[r], id)
    ensures IsRun(s, es) && Quiet(es)
    ensures var u := After(s, es);
      && u.phase.Up? && u.node == s.node && u.disk == s.disk && r in u.ops && u.ops == s.ops[r := u.ops[r]]
      && u.ops[r].Discarding? && !u.ops[r].release && u.ops[r].ids != [] && u.ops[r].ids[0] == id
    decreases |s.ops[r].ids|
  {
    var pc := s.ops[r];
    if pc.Discarding? && pc.ids[0] == id {
      es := [];
      assert s.ops[r := pc] == s.ops;
    } else {
      var e := if pc.Discarding? then Rename(r, false) else Unlink(r, false);
      SkipsOne(s, r, id);
      OneStep(s, e);
      hide Step, Reclaiming;
      var more := SkipTo(Step(s, e), r, id);
      RunConcat(s, [e], more);
      es := [e] + more;
      var u := After(s, es);
      assert s.ops[r := Step(s, e).ops[r]][r := u.ops[r]] == s.ops[r := u.ops[r]];
    }
  }

  lemma SkipsOne(s: St, r: nat, id: string)
    requires s.phase.Up? && r in s.ops && Reclaiming(s.ops[r], id) && !(s.ops[r].Discarding? && s.ops[r].ids[0] == id)
    ensures var e := if s.ops[r].Discarding? then Rename(r, false) else Unlink(r, false);
      && Enabled(s, e)
      && var u := Step(s, e);
        && u.phase.Up? && u.node == s.node && u.disk == s.disk && r in u.ops && Reclaiming(u.ops[r], id)
        && u.ops == s.ops[r := u.ops[r]] && |u.ops[r].ids| < |s.ops[r].ids|
  {
    hide ValidLeaseId, Invalidated;
    var ids := s.ops[r].ids;
    assert ids[0] != id ==> (id in ids <==> id in ids[1..]);
  }

  lemma ReleaseRemoves(n: LeaseRuns.Node, id: string, save: Saving)
    requires LeaseRuns.NodeInv(n)
    ensures id !in LeaseRuns.Step(n, LeaseRuns.DoRelease(id, n.now, save)).mgr.leases
  {
    LeaseRuns.BooksOf(n);
    hide LeaseRuns.NodeInv, Ladder, FileAfter;
    if id in n.mgr.leases {
      assert n.mgr.leases[id] in [n.mgr.leases[id]];
    }
  }

  /** A call about to give back a lease of this name does so. */
  lemma GivesBack(s: St, t: nat, id: string) returns (es: seq<Event>)
    requires AgentInv(s) && s.phase.Up? && t in s.ops && (s.ops[t] == Undoing(id) || s.ops[t] == Freeing(id))
    ensures IsRun(s, es) && Quiet(es) && Lost(After(s, es), id)
  {
    var e := if s.ops[t].Undoing? then Undo(t, Saved) else Free(t, Saved);
    ReleaseRemoves(s.node, id, Saved);
    hide Sound, LeaseRuns.Step;
    OneStep(s, e);
    es := [e];
  }

  /** A first step after which the call is giving back the lease. */
  lemma TurnsToGivingBack(s: St, t: nat, id: string) returns (e: Event)
    requires s.phase.Up? && t in s.ops && ValidLeaseId(id) && id in s.disk && Threatens(s.disk, s.ops[t], id)
    requires var pc := s.ops[t]; pc.Creating? || pc.Reserving? || pc.Partial? || (pc.Unlinking? && pc.release)
    ensures Enabled(s, e) && Moves(e).Some?
    ensures var u := Step(s, e); u.phase.Up? && t in u.ops && (u.ops[t] == Undoing(id) || u.ops[t] == Freeing(id))
  {
    hide ValidLeaseId, Invalidated;
    var pc := s.ops[t];
    e := if pc.Creating? then Create(t, true)
         else if pc.Reserving? then Reserve(t, CloseFailed)
         else if pc.Partial? then RemovePartial(t, false)
         else Unlink(t, true);
  }

  lemma RenamesAway(s: St, t: nat, id: string)
    requires s.phase.Up? && t in s.ops && s.ops[t].Discarding? && s.ops[t].ids != [] && s.ops[t].ids[0] == id
    requires ValidLeaseId(id) && id in s.disk
    ensures var e := Rename(t, true);
      && Enabled(s, e)
      && var u := Step(s, e);
        && u.phase.Up? && u.node == s.node && u.disk == s.disk - {id} + {Invalidated(id)} && id !in u.disk
        && u.ops == s.ops[t := Unlinking(s.ops[t].ids, s.ops[t].release)]
  {
    ExtentsAreApart(id, id);
    hide ValidLeaseId, Invalidated;
  }

  /** A threat carried out. */
  lemma Strike(s: St, t: nat, id: string) returns (es: seq<Event>)
    requires AgentInv(s) && s.phase.Up? && t in s.ops && ValidLeaseId(id) && id in s.disk
    requires Threatens(s.disk, s.ops[t], id)
    ensures IsRun(s, es) && Quiet(es) && Lost(After(s, es), id)
  {
    hide ValidLeaseId, Invalidated, AgentInv, Step, Enabled;
    var pc := s.ops[t];
    if pc.Undoing? || pc.Freeing? {
      es := GivesBack(s, t, id);
    } else if pc.Discarding? && pc.release {
      RenamesAway(s, t, id);
      OneStep(s, Rename(t, true));
      es := [Rename(t, true)];
    } else if Reclaiming(pc, id) {
      var skip := SkipTo(s, t, id);
      var u := After(s, skip);
      RenamesAway(u, t, id);
      OneStep(u, Rename(t, true));
      RunConcat(s, skip, [Rename(t, true)]);
      es := skip + [Rename(t, true)];
    } else {
      var e := TurnsToGivingBack(s, t, id);
      OneStep(s, e);
      StepKeepsInv(s, e);
      var more := GivesBack(Step(s, e), t, id);
      RunConcat(s, [e], more);
      es := [e] + more;
    }
  }

  /** The grant itself, with its name free. */
  lemma Succeeds(s: St, i: nat, g: Lease)
    requires s.phase.Up? && i in s.ops && s.ops[i] == Creating(g) && ValidLeaseId(g.id) && g.id !in s.disk
    ensures var es := [Create(i, true), Reserve(i, Done)];
      && IsRun(s, es)
      && var u := After(s, es); u.phase.Up? && u.disk == s.disk + {g.id} && u.ops == s.ops - {i} && u.node == s.node
  {
    hide ValidLeaseId;
    var u := Step(s, Create(i, true));
    assert u.ops == s.ops[i := Reserving(g)] && u.disk == s.disk + {g.id};
    var v := Step(u, Reserve(i, Done));
    assert v.ops == s.ops - {i};
    TwoSteps(s, Create(i, true), Reserve(i, Done));
  }

  /** With its name free, a grant can succeed and then be struck. */
  lemma FreeNameLoses(s: St, i: nat, g: Lease, t: nat) returns (es: seq<Event>)
    requires AgentInv(s) && s.phase.Up? && i in s.ops && s.ops[i] == Creating(g) && ValidLeaseId(g.id)
    requires g.id !in s.disk
    requires t in s.ops && t != i && Threatens(s.disk, s.ops[t], g.id)
    ensures IsRun(s, es) && Quiet(es) && Reserve(i, Done) in es && Lost(After(s, es), g.id)
  {
    hide AgentInv, Step, Enabled, ValidLeaseId, Touches, IsRun, After, Lost;
    var made := [Create(i, true), Reserve(i, Done)];
    Succeeds(s, i, g);
    InvAlong(s, made);
    var more := Strike(After(s, made), t, g.id);
    RunConcat(s, made, more);
    es := made + more;
    assert made[1] in es;
  }

  /** A call that takes an extent away and comes back for the lease. */
  lemma ClearsForItself(s: St, t: nat, id: string) returns (es: seq<Event>)
    requires s.phase.Up? && t in s.ops && Clears(s.ops[t], id) && !Reclaiming(s.ops[t], id) && ValidLeaseId(id)
    requires id in s.disk
    ensures IsRun(s, es) && Quiet(es)
    ensures var u := After(s, es);
      && u.phase.Up? && id !in u.disk && t in u.ops && Threatens(u.disk, u.ops[t], id) && u.ops == s.ops[t := u.ops[t]]
  {
    hide Step, Enabled, ValidLeaseId, Invalidated, IsRun, After;
    var pc := s.ops[t];
    if pc.Discarding? {
      RenamesAway(s, t, id);
      var e, f := Rename(t, true), Unlink(t, true);
      UnlinksIt(Step(s, e), t, id);
      TwoSteps(s, e, f);
      es := [e, f];
      assert s.ops[t := Unlinking(pc.ids, true)][t := Freeing(id)] == s.ops[t := Freeing(id)];
    } else if pc.Partial? {
      RemovesIt(s, t, id);
      OneStep(s, RemovePartial(t, true));
      es := [RemovePartial(t, true)];
    } else {
      var e, f := Reserve(t, NoSpace), RemovePartial(t, true);
      RunsOutOfSpace(s, t, id);
      RemovesIt(Step(s, e), t, id);
      TwoSteps(s, e, f);
      es := [e, f];
      assert s.ops[t := Partial(id)][t := Undoing(id)] == s.ops[t := Undoing(id)];
    }
  }

  lemma UnlinksIt(s: St, t: nat, id: string)
    requires s.phase.Up? && t in s.ops && s.ops[t].Unlinking? && s.ops[t].release && s.ops[t].ids != []
    requires s.ops[t].ids[0] == id
    requires Invalidated(id) in s.disk && id !in s.disk
    ensures var e := Unlink(t, true);
      Enabled(s, e) && Step(s, e).phase.Up? && id !in Step(s, e).disk && Step(s, e).ops == s.ops[t := Freeing(id)]
  {
    hide Invalidated;
  }

  lemma RemovesIt(s: St, t: nat, id: string)
    requires s.phase.Up? && t in s.ops && s.ops[t] == Partial(id)
    ensures var e := RemovePartial(t, true);
      Enabled(s, e) && Step(s, e).phase.Up? && id !in Step(s, e).disk && Step(s, e).ops == s.ops[t := Undoing(id)]
  {
  }

  lemma RunsOutOfSpace(s: St, t: nat, id: string)
    requires s.phase.Up? && t in s.ops && s.ops[t].Reserving? && s.ops[t].l.id == id
    ensures var e := Reserve(t, NoSpace);
      Enabled(s, e) && Step(s, e).phase.Up? && Step(s, e).ops == s.ops[t := Partial(id)]
  {
  }

  /** A reclaim that takes the extent away, with another call on the name behind it. */
  lemma ClearsForAnother(s: St, r: nat, t: nat, id: string) returns (es: seq<Event>)
    requires s.phase.Up? && r in s.ops && t in s.ops && r != t && Reclaiming(s.ops[r], id) && Touches(s.ops[t], id)
    requires ValidLeaseId(id) && id in s.disk
    ensures IsRun(s, es) && Quiet(es)
    ensures var u := After(s, es);
      && u.phase.Up? && id !in u.disk && t in u.ops && Threatens(u.disk, u.ops[t], id)
      && r in u.ops && u.ops == s.ops[r := u.ops[r]]
  {
    hide Step, Enabled, ValidLeaseId, Touches, IsRun, After;
    var skip := SkipTo(s, r, id);
    var u := After(s, skip);
    RenamesAway(u, r, id);
    OneStep(u, Rename(r, true));
    RunConcat(s, skip, [Rename(r, true)]);
    es := skip + [Rename(r, true)];
    var v := After(s, es);
    assert s.ops[r := u.ops[r]][r := v.ops[r]] == s.ops[r := v.ops[r]];
  }

  /** For every state, and every grant accepted in it that does not begin calmly: the
      calls outstanding can move on so that it returns success and then loses its
      extent or its lease, with no release, reclaim, kill or start in between. */
  lemma CalmIsNeeded(s: St, l: Lease, now: int, save: Saving) returns (es: seq<Event>)
    requires AgentInv(s) && Enabled(s, StartGrant(l, now, save)) && Accept(s.node.mgr, l, now, save).1.None?
    requires !Calm(s, l.id)
    ensures IsRun(s, [StartGrant(l, now, save)] + es) && Quiet(es) && Reserve(s.steps, Done) in es
    ensures Lost(After(s, [StartGrant(l, now, save)] + es), l.id)
  {
    var e, i, id, g := StartGrant(l, now, save), s.steps, l.id, l.(grantedAt := now);
    StepKeepsInv(s, e);
    Begins(s, l, now, save);
    OneStep(s, e);
    var s1 := Step(s, e);
    hide Step, Enabled, AgentInv, ValidLeaseId, Touches, IsRun, After, Lost, Accept;
    es := LosesFrom(s, s1, i, g);
    RunConcat(s, [e], es);
  }

  lemma Begins(s: St, l: Lease, now: int, save: Saving)
    requires AgentInv(s) && Enabled(s, StartGrant(l, now, save)) && Accept(s.node.mgr, l, now, save).1.None?
    ensures var u := Step(s, StartGrant(l, now, save));
      && u.phase.Up? && u.disk == s.disk && u.ops == s.ops[s.steps := Creating(l.(grantedAt := now))]
      && s.steps !in s.ops
  {
    hide Sound, Accept, LeaseRuns.Step;
  }

  lemma LosesFrom(s: St, s1: St, i: nat, g: Lease) returns (es: seq<Event>)
    requires AgentInv(s1) && !Calm(s, g.id) && i !in s.ops
    requires s1.phase.Up? && s1.disk == s.disk && s1.ops == s.ops[i := Creating(g)]
    ensures IsRun(s1, es) && Quiet(es) && Reserve(i, Done) in es && Lost(After(s1, es), g.id)
  {
    hide Step, Enabled, AgentInv, ValidLeaseId, Touches, IsRun, After, Lost;
    var id := g.id;
    if id !in s.disk {
      var t :| t in s.ops && Threatens(s.disk, s.ops[t], id);
      es := FreeNameLoses(s1, i, g, t);
    } else {
      var c :| c in s.ops && Clears(s.ops[c], id);
      var first, t;
      if !Reclaiming(s.ops[c], id) {
        t := c;
        first := ClearsForItself(s1, c, id);
      } else {
        assert !ShadowedBy(s, id, -1, c);
        t :| t in s.ops && t != c && Touches(s.ops[t], id);
        first := ClearsForAnother(s1, c, t, id);
      }
      InvAlong(s1, first);
      var more := FreeNameLoses(After(s1, first), i, g, t);
      RunConcat(s1, first, more);
      es := first + more;
    }
  }
}
