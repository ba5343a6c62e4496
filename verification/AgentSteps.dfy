/** The agent's sequential code takes only steps the interleaving model knows, and a
    call nobody interleaves with ends where its method says. */
module AgentSteps {
  import opened Common
  import opened Leases
  import opened ReclaimHistory
  import opened LeaseManager
  import opened PoolNames
  import opened AgentRuns
  import opened AgentClass
  import LeaseRuns

  // ---- Discard ----

  /** Every step of the run moves on the one call. */
  ghost predicate OfCall(es: seq<Event>, t: nat) {
    forall e :: e in es ==> Moves(e) == Some(t)
  }

  /** A discard on its own: rename, and unlink if the rename was done. */
  lemma DiscardIsSteps(s: St, t: nat, id: string, d: DiscardStep) returns (es: seq<Event>)
    requires s.phase.Up? && t in s.ops && s.ops[t] == Discarding([id], true)
    ensures IsRun(s, es) && OfCall(es, t) && After(s, es).phase.Up?
    ensures After(s, es).node == s.node && After(s, es).disk == AgentClass.Discarded(s.disk, id, d).0
    ensures After(s, es).ops ==
      if AgentClass.Discarded(s.disk, id, d).1 == Gone then s.ops[t := Freeing(id)] else s.ops - {t}
  {
    hide ValidLeaseId, Invalidated;
    var e := Rename(t, d != NotRenamed);
    assert IsRun(s, []) && After(s, []) == s && [] + [e] == [e];
    Extend(s, [], e);
    es := [e];
    if Renames(s, id, d != NotRenamed) {
      var s1 := Step(s, e);
      var f := Unlink(t, d == Unlinked);
      Extend(s, es, f);
      es := es + [f];
      assert s1.ops == s.ops[t := Unlinking([id], true)];
      assert s.disk - {id} + {Invalidated(id)} - {Invalidated(id)} == s.disk - {id} - {Invalidated(id)};
      var s2 := Step(s1, f);
      assert s2.ops == if d == Unlinked then s.ops[t := Freeing(id)] else s.ops - {t};
    }
  }

  /** A release nobody interleaves with: its discard, and then the lease given back if
      the extent is gone. */
  lemma ReleaseIsSteps(s: St, t: nat, id: string, d: DiscardStep, save: Saving) returns (es: seq<Event>)
    requires s.phase.Up? && t in s.ops && s.ops[t] == Discarding([id], true)
    ensures IsRun(s, es) && OfCall(es, t)
    ensures var u, (disk, how) := After(s, es), AgentClass.Discarded(s.disk, id, d);
      && u.phase.Up? && u.disk == disk && u.ops == s.ops - {t}
      && u.node.mgr == if how == Gone then Release(s.node.mgr, id) else s.node.mgr
  {
    es := DiscardIsSteps(s, t, id, d);
    hide IsRun, After, AgentClass.Discarded, LeaseRuns.Step, Release;
    var u := After(s, es);
    if AgentClass.Discarded(s.disk, id, d).1 == Gone {
      var e := Free(t, save);
      assert Enabled(u, e);
      Extend(s, es, e);
      es := es + [e];
      ReleasedMgr(u.node, id, u.node.now, save);
      assert s.ops[t := Freeing(id)] - {t} == s.ops - {t};
    }
  }

  // ---- Reclaim ----

  lemma {:induction false} DiscardedFromTheFront(names: set<string>, ids: seq<string>, ds: map<string, DiscardStep>)
    requires ids != []
    ensures DiscardedAll(names, ids, ds).0 ==
      DiscardedAll(AgentClass.Discarded(names, ids[0], StepOf(ds, ids[0])).0, ids[1..], ds).0
  {
    hide AgentClass.Discarded;
    var front, last := ids[..|ids| - 1], ids[|ids| - 1];
    if front == [] {
      assert ids[1..] == [];
    } else {
      DiscardedFromTheFront(names, front, ds);
      assert front[1..] == ids[1..][..|ids[1..]| - 1] && ids[1..][|ids[1..]| - 1] == last;
    }
  }

  /** What a reclaim's call becomes when it has done with the first of its extents. */
  function Onward(ops: map<nat, Pc>, t: nat, ids: seq<string>): map<nat, Pc>
    requires ids != []
  {
    if |ids| == 1 then ops - {t} else ops[t := Discarding(ids[1..], false)]
  }

  lemma FirstDiscard(s: St, t: nat, ids: seq<string>, d: DiscardStep) returns (es: seq<Event>)
    requires s.phase.Up? && t in s.ops && ids != [] && s.ops[t] == Discarding(ids, false)
    ensures IsRun(s, es)
    ensures var u := After(s, es);
      && u.phase.Up? && u.node == s.node && u.disk == AgentClass.Discarded(s.disk, ids[0], d).0
      && u.ops == Onward(s.ops, t, ids)
  {
    hide IsRun, After;
    var e, f := Rename(t, d != NotRenamed), Unlink(t, d == Unlinked);
    RenameFirst(s, t, ids, d);
    if Renames(s, ids[0], d != NotRenamed) {
      UnlinkFirst(Step(s, e), t, ids, d);
      hide Step, Enabled, AgentClass.Discarded;
      TwoSteps(s, e, f);
      es := [e, f];
      assert Onward(s.ops[t := Unlinking(ids, false)], t, ids) == Onward(s.ops, t, ids);
      RenamedThenUnlinked(s.disk, ids[0], d);
    } else {
      hide Step, Enabled;
      OneStep(s, e);
      es := [e];
    }
  }

  lemma RenamedThenUnlinked(names: set<string>, id: string, d: DiscardStep)
    requires ValidLeaseId(id) && id in names && d != NotRenamed
    ensures var renamed := names - {id} + {Invalidated(id)};
      AgentClass.Discarded(names, id, d).0 == if d == Unlinked then renamed - {Invalidated(id)} else renamed
  {
    hide ValidLeaseId, Invalidated;
    assert names - {id} + {Invalidated(id)} - {Invalidated(id)} == names - {id} - {Invalidated(id)};
  }

  lemma RenameFirst(s: St, t: nat, ids: seq<string>, d: DiscardStep)
    requires s.phase.Up? && t in s.ops && ids != [] && s.ops[t] == Discarding(ids, false)
    ensures var e := Rename(t, d != NotRenamed);
      && Enabled(s, e)
      && var u := Step(s, e);
        && u.phase.Up? && u.node == s.node
        && if Renames(s, ids[0], d != NotRenamed) then
             u.disk == s.disk - {ids[0]} + {Invalidated(ids[0])} && u.ops == s.ops[t := Unlinking(ids, false)]
           else u.disk == s.disk == AgentClass.Discarded(s.disk, ids[0], d).0 && u.ops == Onward(s.ops, t, ids)
  {
    hide ValidLeaseId, Invalidated;
  }

  lemma UnlinkFirst(s: St, t: nat, ids: seq<string>, d: DiscardStep)
    requires s.phase.Up? && t in s.ops && ids != [] && s.ops[t] == Unlinking(ids, false)
    ensures var e := Unlink(t, d == Unlinked);
      && Enabled(s, e)
      && var u := Step(s, e);
        && u.phase.Up? && u.node == s.node && u.ops == Onward(s.ops, t, ids)
        && u.disk == if d == Unlinked then s.disk - {Invalidated(ids[0])} else s.disk
  {
    hide Invalidated;
  }

  lemma {:induction false} DiscardsAll(s: St, t: nat, ids: seq<string>, ds: map<string, DiscardStep>)
    returns (es: seq<Event>)
    requires s.phase.Up? && t in s.ops && ids != [] && s.ops[t] == Discarding(ids, false)
    ensures IsRun(s, es)
    ensures var u := After(s, es);
      u.phase.Up? && u.node == s.node && u.disk == DiscardedAll(s.disk, ids, ds).0 && u.ops == s.ops - {t}
    decreases |ids|
  {
    hide IsRun, After, AgentClass.Discarded;
    es := FirstDiscard(s, t, ids, StepOf(ds, ids[0]));
    DiscardedFromTheFront(s.disk, ids, ds);
    if |ids| > 1 {
      var more := DiscardsAll(After(s, es), t, ids[1..], ds);
      RunConcat(s, es, more);
      es := es + more;
      assert s.ops[t := Discarding(ids[1..], false)] - {t} == s.ops - {t};
    } else {
      assert ids[1..] == [];
    }
  }

  /** A reclaim nobody interleaves with is a run of the model, and ends as the method
      ReclaimCapacity says: the manager's choice, and every extent it chose discarded as
      far as the filesystem lets it. */
  lemma ReclaimIsSteps(s: St, need: int, now: int, save: Saving, ds: map<string, DiscardStep>) returns (es: seq<Event>)
    requires s.phase.Up? && s.node.now <= now && s.steps !in s.ops
    ensures IsRun(s, es) && After(s, es).phase.Up? && After(s, es).ops == s.ops
    ensures var (m, o) := Reclaim(s.node.mgr, need, now);
      After(s, es).node.mgr == m && After(s, es).disk == DiscardedAll(s.disk, o.dropped, ds).0
  {
    var e := StartReclaim(need, now, save);
    var gone := Reclaim(s.node.mgr, need, now).1.dropped;
    ReclaimStarts(s, need, now, save);
    OneStep(s, e);
    hide Step, Enabled, IsRun, After, Reclaim;
    es := [e];
    if gone != [] {
      var more := DiscardsAll(Step(s, e), s.steps, gone, ds);
      RunConcat(s, es, more);
      es := es + more;
      assert s.ops[s.steps := Discarding(gone, false)] - {s.steps} == s.ops;
    }
  }

  lemma ReclaimStarts(s: St, need: int, now: int, save: Saving)
    requires s.phase.Up? && s.node.now <= now && s.steps !in s.ops
    ensures var e := StartReclaim(need, now, save);
      && Enabled(s, e)
      && var u, gone := Step(s, e), Reclaim(s.node.mgr, need, now).1.dropped;
        && u.phase.Up? && u.disk == s.disk && u.node.mgr == Reclaim(s.node.mgr, need, now).0
        && u.ops == if gone == [] then s.ops else s.ops[s.steps := Discarding(gone, false)]
  {
    hide Reclaim, FileAfter, Ladder;
  }

  // ---- Grant ----

  function Outcome(reserves: AllocStep): AgentRuns.Reserved {
    match reserves
    case Reserved => Done
    case Removed => NoSpace
    case NotRemoved => NoSpace
    case CloseFails => CloseFailed
  }

  /** Where a grant stands: its call's pc, the disk, the manager untouched since. */
  ghost predicate GrantAt(s: St, u: St, node: LeaseRuns.Node, disk: set<string>, pc: Option<Pc>) {
    && u.phase.Up? && u.node == node && u.disk == disk
    && u.ops == if pc.None? then s.ops else s.ops[s.steps := pc.value]
  }

  lemma AcceptStep(s: St, l: Lease, now: int, save: Saving)
    requires s.phase.Up? && s.node.now <= now && s.steps !in s.ops
    ensures var e := StartGrant(l, now, save);
      && Enabled(s, e)
      && GrantAt(s, Step(s, e), LeaseRuns.Step(s.node, LeaseRuns.DoAccept(l, now, save)), s.disk,
           if Accept(s.node.mgr, l, now, save).1.None? then Some(Creating(l.(grantedAt := now))) else None)
  {
    hide Accept, LeaseRuns.Step;
  }

  lemma CreateStep(s: St, u: St, g: Lease, ok: bool)
    requires GrantAt(s, u, u.node, s.disk, Some(Creating(g)))
    ensures var e := Create(s.steps, ok);
      && Enabled(u, e)
      && if Creates(s, g, ok) then GrantAt(s, Step(u, e), u.node, s.disk + {g.id}, Some(Reserving(g)))
         else GrantAt(s, Step(u, e), u.node, s.disk, Some(Undoing(g.id)))
  {
    hide ValidLeaseId;
  }

  lemma ReserveStep(s: St, u: St, g: Lease, how: AgentRuns.Reserved)
    requires GrantAt(s, u, u.node, u.disk, Some(Reserving(g))) && s.steps !in s.ops
    ensures var e := Reserve(s.steps, how);
      && Enabled(u, e)
      && GrantAt(s, Step(u, e), u.node, u.disk,
           match how case Done => None case NoSpace => Some(Partial(g.id)) case CloseFailed => Some(Undoing(g.id)))
  {
  }

  lemma RemoveStep(s: St, u: St, id: string, ok: bool)
    requires GrantAt(s, u, u.node, u.disk, Some(Partial(id)))
    ensures var e := RemovePartial(s.steps, ok);
      Enabled(u, e) && GrantAt(s, Step(u, e), u.node, if ok then u.disk - {id} else u.disk, Some(Undoing(id)))
  {
  }

  lemma UndoStep(s: St, u: St, id: string, undo: Saving)
    requires GrantAt(s, u, u.node, u.disk, Some(Undoing(id))) && s.steps !in s.ops
    ensures var e := Undo(s.steps, undo);
      && Enabled(u, e)
      && GrantAt(s, Step(u, e), LeaseRuns.Step(u.node, LeaseRuns.DoRelease(id, u.node.now, undo)), u.disk, None)
  {
    hide LeaseRuns.Step;
  }

  /** From an accepted lease to the grant's return or its undoing. */
  lemma AllocateSteps(s: St, es: seq<Event>, g: Lease, creates: bool, reserves: AllocStep) returns (more: seq<Event>)
    requires IsRun(s, es) && s.steps !in s.ops
    requires GrantAt(s, After(s, es), After(s, es).node, s.disk, Some(Creating(g)))
    ensures IsRun(s, es + more) && OfCall(more, s.steps)
    ensures Creates(s, g, creates) && reserves == Reserved ==> Reserve(s.steps, Done) in more
    ensures var u, ok := After(s, es + more), Creates(s, g, creates) && reserves == Reserved;
      && GrantAt(s, u, After(s, es).node, u.disk, if ok then None else Some(Undoing(g.id)))
      && (ok ==> u.disk == s.disk + {g.id})
      && (!ok ==> u.disk == s.disk || (reserves in {CloseFails, NotRemoved} && u.disk == s.disk + {g.id}))
  {
    hide Enabled, Step, Creates, IsRun, After;
    var t := s.steps;
    var e := Create(t, creates);
    CreateStep(s, After(s, es), g, creates);
    Extend(s, es, e);
    more := [e];
    if Creates(s, g, creates) {
      var f := Reserve(t, Outcome(reserves));
      ReserveStep(s, After(s, es + more), g, Outcome(reserves));
      Extend(s, es + more, f);
      assert es + more + [f] == es + (more + [f]);
      more := more + [f];
      if Outcome(reserves) == NoSpace {
        var r := RemovePartial(t, reserves == Removed);
        RemoveStep(s, After(s, es + more), g.id, reserves == Removed);
        Extend(s, es + more, r);
        assert es + more + [r] == es + (more + [r]);
        more := more + [r];
        WasNew(s, g, creates);
      }
    }
  }

  lemma WasNew(s: St, g: Lease, ok: bool)
    requires Creates(s, g, ok)
    ensures s.disk + {g.id} - {g.id} == s.disk
  {
  }

  /** A grant nobody interleaves with is a run of the model, and ends as the method
      Grant says: succeeded exactly under its conditions, with the lease and its extent
      there; failed, with leases and accounting as they were. */
  lemma GrantIsSteps(s: St, l: Lease, now: int, save: Saving, creates: bool, reserves: AllocStep, undo: Saving)
    returns (es: seq<Event>)
    requires s.phase.Up? && s.node.now <= now && s.steps !in s.ops && MgrInv(s.node.mgr)
    ensures IsRun(s, es) && After(s, es).ops == s.ops && After(s, es).phase.Up?
    ensures var m, u := s.node.mgr, After(s, es);
      var ok := Accept(m, l, now, save).1.None? && ValidLeaseId(l.id) && l.id !in s.disk && creates &&
        reserves == Reserved;
      && (ok ==> u.node.mgr == LeaseManager.Granted(Pruned(m, now), l, now) && u.disk == s.disk + {l.id})
      && (!ok ==> u.node.mgr.leases == m.leases && u.node.mgr.acct == m.acct)
      && (!ok ==> u.disk == s.disk || (reserves in {CloseFails, NotRemoved} && u.disk == s.disk + {l.id}))
  {
    hide Enabled, Step, IsRun, After, Accept, Release, Pruned, LeaseManager.Granted, MgrInv, ValidLeaseId;
    var m, g := s.node.mgr, l.(grantedAt := now);
    var e := StartGrant(l, now, save);
    AcceptThenRelease(m, l, now, save);
    AcceptedMgr(s.node, l, now, save);
    EmptyRun(s);
    AcceptStep(s, l, now, save);
    Extend(s, [], e);
    assert [] + [e] == [e];
    es := [e];
    if Accept(m, l, now, save).1.None? {
      var more := AllocateSteps(s, es, g, creates, reserves);
      es := es + more;
      var u := After(s, es);
      if !(Creates(s, g, creates) && reserves == Reserved) {
        UndoStep(s, u, g.id, undo);
        Extend(s, es, Undo(s.steps, undo));
        ReleasedMgr(u.node, g.id, u.node.now, undo);
        es := es + [Undo(s.steps, undo)];
      }
    }
  }

  lemma EmptyRun(s: St)
    ensures IsRun(s, []) && After(s, []) == s
  {
  }

  lemma AcceptedMgr(n: LeaseRuns.Node, l: Lease, now: int, save: Saving)
    ensures LeaseRuns.Step(n, LeaseRuns.DoAccept(l, now, save)).mgr == Accept(n.mgr, l, now, save).0
  {
    hide Accept, Ladder, FileAfter;
  }

  lemma ReleasedMgr(n: LeaseRuns.Node, id: string, now: int, save: Saving)
    ensures LeaseRuns.Step(n, LeaseRuns.DoRelease(id, now, save)).mgr == Release(n.mgr, id)
  {
    hide Release, Ladder, FileAfter;
  }
}
