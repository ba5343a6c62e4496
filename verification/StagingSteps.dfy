/** The stager's sequential code takes only moves the interleaving model knows, and a
    Stage call nobody interleaves with ends where its method says. */
module StagingSteps {
  import opened Common
  import opened Leases
  import opened LeaseManager
  import opened PoolNames
  import opened AgentRuns
  import opened AgentClass
  import opened AgentSteps
  import opened StagingRuns
  import opened StagingClass
  import GrantPromise
  import LeaseRuns

  // ---- A call of the agent's as moves of the whole system ----

  /** The call is about this name and no other. */
  predicate OnName(pc: Pc, id: string) {
    match pc
    case Creating(l) => l.id == id
    case Reserving(l) => l.id == id
    case Partial(x) => x == id
    case Undoing(x) => x == id
    case Freeing(x) => x == id
    case Discarding(ids, release) => ids == [id] && release
    case Unlinking(ids, release) => ids == [id] && release
  }

  /** Calls are numbered by the steps that began them, and a Stage call waits for the
      grant it began, which is outstanding. */
  ghost predicate Orderly(s: Sys) {
    && (forall t :: t in s.agent.ops ==> t < s.agent.steps)
    && (forall k :: k in s.calls ==>
      k < s.agent.steps && (s.calls[k].at.Granting? ==> s.calls[k].at.i == k && k in s.agent.ops))
  }

  ghost predicate Own(s: Sys, t: nat) {
    t in s.calls && s.calls[t].at.Granting?
  }

  /** What becomes of the Stage calls when the agent's call t has moved as far as this. */
  ghost function Heard(s: Sys, t: nat, done: bool, there: bool): map<nat, Call> {
    if !Own(s, t) then s.calls
    else if done then s.calls[t := s.calls[t].(at := StagingRuns.Granted)]
    else if there then s.calls
    else s.calls - {t}
  }

  /** Only the one name's extent, and the one call, may differ. */
  ghost predicate Elsewhere(s: Sys, u: Sys, id: string) {
    u.store == s.store && u.accepted == s.accepted && u.files - {id} == s.files - {id}
  }

  lemma StaysOnName(a: St, e: Event, t: nat, id: string)
    requires Enabled(a, e) && Moves(e) == Some(t) && OnName(a.ops[t], id)
    ensures var u := Step(a, e);
      && u.phase.Up? && (t in u.ops ==> OnName(u.ops[t], id)) && (e == Reserve(t, Done) ==> t !in u.ops)
      && t in a.ops && u.steps == a.steps + 1 && forall j :: j != t ==> (j in u.ops <==> j in a.ops)
  {
    hide NodeAfter, DiskAfter, Renames, Unlinks, Creates;
  }

  lemma HeardOnce(s: Sys, e: Event, t: nat, u: St)
    requires Moves(e) == Some(t) && Orderly(s) && u.phase.Up? && (e == Reserve(t, Done) ==> t !in u.ops)
    requires forall j :: j != t ==> (j in u.ops <==> j in s.agent.ops)
    ensures CallsAfter(s.calls, e, u) == Heard(s, t, e == Reserve(t, Done), t in u.ops)
  {
  }

  lemma MoveIsOpen(s: Sys, e: Event)
    requires Enabled(s.agent, e) && Moves(e).Some?
    ensures Can(s, Agent(e))
  {
    hide Enabled, Live;
  }

  lemma OneMove(s: Sys, e: Event, t: nat, id: string)
    requires Enabled(s.agent, e) && Moves(e) == Some(t) && OnName(s.agent.ops[t], id) && Orderly(s)
    ensures Can(s, Agent(e))
    ensures var u := Next(s, Agent(e));
      && u.agent == Step(s.agent, e) && u.agent.phase.Up? && Orderly(u) && Elsewhere(s, u, id)
      && (t in u.agent.ops ==> OnName(u.agent.ops[t], id)) && (e == Reserve(t, Done) ==> t !in u.agent.ops)
      && u.calls == Heard(s, t, e == Reserve(t, Done), t in u.agent.ops)
  {
    StaysOnName(s.agent, e, t, id);
    FilesElsewhere(s, e, t, id);
    MoveIsOpen(s, e);
    hide Step, Enabled, FilesAfter, OnName, Can, CallsAfter;
    HeardOnce(s, e, t, Step(s.agent, e));
  }

  lemma FilesElsewhere(s: Sys, e: Event, t: nat, id: string)
    requires Enabled(s.agent, e) && Moves(e) == Some(t) && OnName(s.agent.ops[t], id)
    ensures FilesAfter(s, e) - {id} == s.files - {id}
  {
    hide Renames, Creates;
  }

  function Lifted(es: seq<Event>): seq<Move> {
    if es == [] then [] else Lifted(es[..|es| - 1]) + [Agent(es[|es| - 1])]
  }

  lemma ExtendMoves(s: Sys, ms: seq<Move>, m: Move)
    requires StagingRuns.IsRun(s, ms) && Can(End(s, ms), m)
    ensures StagingRuns.IsRun(s, ms + [m]) && End(s, ms + [m]) == Next(End(s, ms), m)
  {
    hide Can, Next;
    assert (ms + [m])[..|ms + [m]| - 1] == ms;
  }

  lemma {:induction false} MovesConcat(s: Sys, a: seq<Move>, b: seq<Move>)
    requires StagingRuns.IsRun(s, a) && StagingRuns.IsRun(End(s, a), b)
    ensures StagingRuns.IsRun(s, a + b) && End(s, a + b) == End(End(s, a), b)
    decreases |b|
  {
    hide Can, Next;
    if b == [] {
      assert a + b == a;
    } else {
      MovesConcat(s, a, b[..|b| - 1]);
      assert (a + b)[..|a + b| - 1] == a + b[..|b| - 1];
    }
  }

  lemma {:induction false} RunSplit(s: St, a: seq<Event>, b: seq<Event>)
    requires AgentRuns.IsRun(s, a + b)
    ensures AgentRuns.IsRun(s, a) && AgentRuns.IsRun(After(s, a), b) && After(s, a + b) == After(After(s, a), b)
    decreases |b|
  {
    hide Enabled, Step;
    if b == [] {
      assert a + b == a;
    } else {
      assert (a + b)[..|a + b| - 1] == a + b[..|b| - 1];
      RunSplit(s, a, b[..|b| - 1]);
    }
  }

  /** A run of one of the agent's calls is a run of moves. The Stage calls hear of it
      only if it is the grant one of them waits for. */
  lemma {:induction false} Lift(s: Sys, es: seq<Event>, t: nat, id: string)
    requires AgentRuns.IsRun(s.agent, es) && OfCall(es, t) && s.agent.phase.Up? && Orderly(s)
    requires t in s.agent.ops && OnName(s.agent.ops[t], id)
    ensures StagingRuns.IsRun(s, Lifted(es))
    ensures var u := End(s, Lifted(es));
      && u.agent == After(s.agent, es) && u.agent.phase.Up? && Orderly(u) && Elsewhere(s, u, id)
      && (t in u.agent.ops ==> OnName(u.agent.ops[t], id) && Reserve(t, Done) !in es)
      && u.calls == Heard(s, t, Reserve(t, Done) in es, t in u.agent.ops)
    decreases |es|
  {
    hide Enabled, Step, Can, Next, OnName, Orderly;
    if es != [] {
      var front, e := es[..|es| - 1], es[|es| - 1];
      assert es == front + [e];
      Lift(s, front, t, id);
      MovesWhatIsThere(After(s.agent, front), e, t);
      OneMove(End(s, Lifted(front)), e, t, id);
      ExtendMoves(s, Lifted(front), Agent(e));
    }
  }

  lemma MovesWhatIsThere(a: St, e: Event, t: nat)
    requires Enabled(a, e) && Moves(e) == Some(t)
    ensures t in a.ops
  {
  }

  // ---- Giving back ----

  lemma GiveBackStarts(s: Sys, k: nat)
    requires Orderly(s) && s.agent.phase.Up? && k in s.calls
    ensures var u, t, id := GiveBack(s, k), s.agent.steps, s.calls[k].r.id;
      && u.agent.phase.Up? && u.agent.node == s.agent.node && u.agent.disk == s.agent.disk
      && u.agent.ops == s.agent.ops[t := Discarding([id], true)] && t !in s.agent.ops
      && Orderly(u) && u.calls == s.calls - {k} && u.files == s.files && u.store == s.store && u.accepted == s.accepted
  {
    var v := s.(calls := s.calls - {k});
    var u := GiveBack(s, k);
    assert u.calls == v.calls;
  }

  /** A move that gives a call's capacity back, and the release carried through. */
  lemma GivesBackMoves(s: Sys, m: Move, k: nat, d: DiscardStep, save: Saving) returns (ms: seq<Move>)
    requires Orderly(s) && s.agent.phase.Up? && k in s.calls && Can(s, m) && Next(s, m) == GiveBack(s, k)
    ensures StagingRuns.IsRun(s, ms)
    ensures var u, id := End(s, ms), s.calls[k].r.id;
      && u.agent.phase.Up? && u.agent.ops == s.agent.ops && u.calls == s.calls - {k} && Elsewhere(s, u, id)
      && u.agent.disk == AgentClass.Discarded(s.agent.disk, id, d).0
      && u.agent.node.mgr ==
        if AgentClass.Discarded(s.agent.disk, id, d).1 == Gone then Release(s.agent.node.mgr, id) else s.agent.node.mgr
  {
    hide Can, Next, GiveBack, AgentClass.Discarded, Release, StagingRuns.IsRun, End, AgentRuns.IsRun, After, OfCall;
    var u, t, id := Next(s, m), s.agent.steps, s.calls[k].r.id;
    GiveBackStarts(s, k);
    OneMoves(s, m);
    var es := ReleaseIsSteps(u.agent, t, id, d, save);
    Lift(u, es, t, id);
    MovesConcat(s, [m], Lifted(es));
    ms := [m] + Lifted(es);
    assert s.agent.ops[t := Discarding([id], true)] - {t} == s.agent.ops;
  }

  lemma OneMoves(s: Sys, m: Move)
    requires Can(s, m)
    ensures StagingRuns.IsRun(s, [m]) && End(s, [m]) == Next(s, m)
  {
    hide Can, Next;
    assert [m][..0] == [];
  }

  // ---- The grant ----

  lemma SysIsOrderly(s: Sys)
    requires SysInv(s)
    ensures Orderly(s) && MgrInv(s.agent.node.mgr)
  {
    LeaseRuns.BooksOf(s.agent.node);
    hide Sound, Balanced, Alone, Ours, GrantPromise.OnItsWay, Failed, Pledged, MgrInv;
  }

  lemma NowIs(a: St, l: Lease, now: int, save: Saving)
    requires Enabled(a, StartGrant(l, now, save))
    ensures Step(a, StartGrant(l, now, save)).node.now == now
  {
    hide Accept, Ladder, FileAfter, PhaseAfter, OpsAfter, DiskAfter;
  }

  lemma GrantBegins(s: Sys, r: Request, src: Bytes, term: int, now: int, save: Saving)
    requires Orderly(s) && Can(s, Begin(r, src, term, now, save))
    ensures var u, k, l := Next(s, Begin(r, src, term, now, save)), s.agent.steps, LeaseFor(r, term);
      var ok := Accept(s.agent.node.mgr, l, now, save).1.None?;
      && Enabled(s.agent, StartGrant(l, now, save)) && u.agent == Step(s.agent, StartGrant(l, now, save))
      && s.agent.phase.Up? && s.agent.node.now <= now && u.agent.phase.Up? && Orderly(u) && Elsewhere(s, u, r.id)
      && k !in s.agent.ops && k !in s.calls
      && u.agent.ops == (if ok then s.agent.ops[k := Creating(l.(grantedAt := now))] else s.agent.ops)
      && u.calls == if ok then s.calls[k := Call(r, src, l.(grantedAt := now), Granting(k))] else s.calls
  {
    hide Accept, NodeAfter, DiskAfter, Apart, Alone, GrantPromise.Calm, GuaranteedFree;
    var l, k := LeaseFor(r, term), s.agent.steps;
    var e := StartGrant(l, now, save);
    assert k !in s.agent.ops && Enabled(s.agent, e);
    var a := Step(s.agent, e);
    assert CallsAfter(s.calls, e, a) == s.calls;
  }

  /** The lease and its extent are there, exactly when every step of the grant went
      well; otherwise the books are as they were. */
  ghost predicate GrantEnds(s: Sys, u: Sys, r: Request, src: Bytes, term: int, now: int, luck: Luck) {
    var m, l := s.agent.node.mgr, LeaseFor(r, term);
    && u.agent.phase.Up? && u.agent.ops == s.agent.ops && Orderly(u) && Elsewhere(s, u, r.id)
    && s.agent.steps !in s.calls
    && if Grants(s, r, term, now, luck) then
         && u.calls == s.calls[s.agent.steps := Call(r, src, l.(grantedAt := now), StagingRuns.Granted)]
         && u.agent.node.mgr == LeaseManager.Granted(Pruned(m, now), l, now) && u.agent.disk == s.agent.disk + {r.id}
         && u.agent.node.now == now
       else u.calls == s.calls && u.agent.node.mgr.leases == m.leases && u.agent.node.mgr.acct == m.acct
  }

  ghost predicate Grants(s: Sys, r: Request, term: int, now: int, luck: Luck) {
    && Accept(s.agent.node.mgr, LeaseFor(r, term), now, luck.save).1.None?
    && Creates(s.agent, LeaseFor(r, term).(grantedAt := now), luck.creates) && luck.reserves == AllocStep.Reserved
  }

  lemma UndoMoves(s: Sys, k: nat, id: string, save: Saving)
    requires Orderly(s) && s.agent.phase.Up? && k in s.agent.ops && s.agent.ops[k] == Undoing(id) && Own(s, k)
    ensures Can(s, Agent(Undo(k, save)))
    ensures var u := Next(s, Agent(Undo(k, save)));
      && u.agent.phase.Up? && u.agent.ops == s.agent.ops - {k} && u.calls == s.calls - {k} && Orderly(u)
      && Elsewhere(s, u, id) && u.agent.node.mgr == Release(s.agent.node.mgr, id)
  {
    hide Can, Next, Orderly, LeaseRuns.Step, Release;
    OneMove(s, Undo(k, save), k, id);
    ReleasedMgr(s.agent.node, id, s.agent.node.now, save);
  }

  /** From an accepted lease to the grant's return or its undoing. */
  lemma AllocateMoves(s: Sys, u: Sys, e: Event, g: Lease, luck: Luck) returns (ms: seq<Move>)
    requires Enabled(s.agent, e) && u.agent == Step(s.agent, e) && Orderly(u) && Own(u, s.agent.steps)
    requires s.agent.steps !in s.agent.ops
    requires GrantAt(s.agent, u.agent, u.agent.node, s.agent.disk, Some(Creating(g)))
    ensures StagingRuns.IsRun(u, ms)
    ensures var v, k := End(u, ms), s.agent.steps;
      var ok := Creates(s.agent, g, luck.creates) && luck.reserves == AllocStep.Reserved;
      && v.agent.phase.Up? && Orderly(v) && Elsewhere(u, v, g.id) && v.agent.node == u.agent.node
      && v.agent.ops == (if ok then s.agent.ops else s.agent.ops[k := Undoing(g.id)])
      && v.calls == (if ok then u.calls[k := u.calls[k].(at := StagingRuns.Granted)] else u.calls)
      && (ok ==> v.agent.disk == s.agent.disk + {g.id})
  {
    hide Can, Next, StagingRuns.IsRun, End, AgentRuns.IsRun, After, OfCall, Creates, Step, Enabled, Orderly;
    OneStep(s.agent, e);
    var more := AllocateSteps(s.agent, [e], g, luck.creates, luck.reserves);
    RunSplit(s.agent, [e], more);
    Lift(u, more, s.agent.steps, g.id);
    ms := Lifted(more);
  }

  lemma GrantMoves(s: Sys, r: Request, src: Bytes, term: int, now: int, luck: Luck) returns (ms: seq<Move>)
    requires Orderly(s) && MgrInv(s.agent.node.mgr) && Can(s, Begin(r, src, term, now, luck.save))
    ensures StagingRuns.IsRun(s, ms) && GrantEnds(s, End(s, ms), r, src, term, now, luck)
  {
    hide Can, Next, StagingRuns.IsRun, End, MgrInv, Accept, Creates, Pruned, LeaseManager.Granted, Step, Enabled;
    hide LeaseRuns.Step, Release, Orderly;
    var m, k, l, b := s.agent.node.mgr, s.agent.steps, LeaseFor(r, term), Begin(r, src, term, now, luck.save);
    GrantBegins(s, r, src, term, now, luck.save);
    OneMoves(s, b);
    AcceptThenRelease(m, l, now, luck.save);
    AcceptedMgr(s.agent.node, l, now, luck.save);
    NowIs(s.agent, l, now, luck.save);
    AcceptStep(s.agent, l, now, luck.save);
    ms := [b];
    if Accept(m, l, now, luck.save).1.None? {
      var u := Next(s, b);
      var more := AllocateMoves(s, u, StartGrant(l, now, luck.save), l.(grantedAt := now), luck);
      MovesConcat(s, ms, more);
      ms := ms + more;
      if !Grants(s, r, term, now, luck) {
        UndoMoves(End(s, ms), k, r.id, luck.undo);
        ExtendMoves(s, ms, Agent(Undo(k, luck.undo)));
        ms := ms + [Agent(Undo(k, luck.undo))];
        assert s.agent.ops[k := Undoing(r.id)] - {k} == s.agent.ops && s.calls[k := u.calls[k]] - {k} == s.calls;
      }
    }
  }

  // ---- The whole call ----

  lemma WriteIs(s: Sys, k: nat, broken: bool)
    requires s.agent.phase.Up? && k in s.calls && s.calls[k].at.Granted? && s.calls[k].r.bytes >= 0
    ensures Can(s, Write(k, broken))
    ensures var c, u := s.calls[k], Next(s, Write(k, broken));
      if broken || !(0 < |c.src| <= c.r.bytes) then u == GiveBack(s, k)
      else
        c.g.id in s.agent.disk ==>
          u == s.(files := s.files[c.g.id := c.src], calls := s.calls[k := c.(at := Staged)])
  {
    StagedIsWhole(s.calls[k].src, s.calls[k].r.bytes);
    hide Staging, GiveBack;
  }

  lemma UploadIs(s: Sys, k: nat, ok: bool)
    requires s.agent.phase.Up? && k in s.calls && s.calls[k].at.Staged?
    requires var id := s.calls[k].g.id; id in s.agent.disk && id in s.files && s.files[id] == s.calls[k].src
    ensures Can(s, Upload(k, ok))
    ensures var c, u := s.calls[k], Next(s, Upload(k, ok));
      && u.agent == s.agent && u.files == s.files
      && u.calls == s.calls[k := c.(at := if ok then Stored else Adrift)]
      && u.accepted == (if ok then s.accepted[k := c.src] else s.accepted)
      && u.store == if ok then s.store[c.r.dest := c.src] else s.store
    ensures ok ==> var u := Next(s, Upload(k, ok)); Can(u, Finish(k)) && Next(u, Finish(k)) == GiveBack(u, k)
  {
    hide GiveBack;
  }

  /** The checkpoint is on this node under its guarantee, granted just now. */
  ghost predicate Held(s: Sys, c: Call) {
    && s.agent.node.now == c.g.grantedAt && Live(s.agent.node.mgr, c.g) && c.g.id in s.agent.disk && c.g.id in s.files
    && s.files[c.g.id] == c.src
  }

  ghost predicate SameBooks(s: Sys, u: Sys) {
    u.agent.node.mgr.leases == s.agent.node.mgr.leases && u.agent.node.mgr.acct == s.agent.node.mgr.acct
  }

  /** What Stage's contract says, of the system before and after. */
  ghost predicate StageEnds(s: Sys, u: Sys, r: Request, ack: Ack, src: Bytes, term: int, now: int, luck: Luck) {
    var k, c := s.agent.steps, Call(r, src, LeaseFor(r, term).(grantedAt := now), Staged);
    && u.agent.phase.Up? && u.agent.ops == s.agent.ops && u.files - {r.id} == s.files - {r.id}
    && if !(Grants(s, r, term, now, luck) && luck.sourced && luck.syncs && 0 < |src| <= r.bytes) then
         u.calls == s.calls && u.store == s.store && (luck.discard == Unlinked ==> SameBooks(s, u))
       else if ack == StagedAck then u.calls == s.calls[k := c] && u.store == s.store && Held(u, c)
       else if !luck.uploads then u.calls == s.calls[k := c.(at := Adrift)] && u.store == s.store && Held(u, c)
       else
         && u.calls == s.calls && u.store == s.store[r.dest := src] && u.accepted == s.accepted[k := src]
         && (luck.discard == Unlinked ==> SameBooks(s, u))
  }

  lemma StillOrderly(s: Sys, u: Sys, k: nat, c: Call)
    requires Orderly(s) && u.agent == s.agent && k in s.calls && u.calls == s.calls[k := c] && !c.at.Granting?
    ensures Orderly(u)
  {
  }

  /** From the acknowledgement on. */
  lemma UploadMoves(s: Sys, k: nat, luck: Luck) returns (ms: seq<Move>)
    requires Orderly(s) && s.agent.phase.Up? && k in s.calls && s.calls[k].at.Staged?
    requires s.calls[k].g.id == s.calls[k].r.id
    requires var id := s.calls[k].g.id; id in s.agent.disk && id in s.files && s.files[id] == s.calls[k].src
    ensures StagingRuns.IsRun(s, ms)
    ensures var c, u := s.calls[k], End(s, ms);
      if !luck.uploads then u == s.(calls := s.calls[k := c.(at := Adrift)])
      else
        && u.agent.phase.Up? && u.agent.ops == s.agent.ops && u.files - {c.r.id} == s.files - {c.r.id}
        && u.calls == s.calls - {k} && u.store == s.store[c.r.dest := c.src] && u.accepted == s.accepted[k := c.src]
        && u.agent.node.mgr ==
          if AgentClass.Discarded(s.agent.disk, c.r.id, luck.discard).1 == Gone then Release(s.agent.node.mgr, c.r.id)
          else s.agent.node.mgr
  {
    hide Can, Next, StagingRuns.IsRun, End, Orderly, Release, AgentClass.Discarded;
    UploadIs(s, k, luck.uploads);
    OneMoves(s, Upload(k, luck.uploads));
    ms := [Upload(k, luck.uploads)];
    if luck.uploads {
      var u := End(s, ms);
      StillOrderly(s, u, k, u.calls[k]);
      var more := GivesBackMoves(u, Finish(k), k, luck.discard, luck.release);
      MovesConcat(s, ms, more);
      ms := ms + more;
      assert u.calls - {k} == s.calls - {k};
    }
  }

  /** The lease just granted is live, and giving it back leaves the books as they were. */
  lemma GrantedBooks(s: Sys, v: Sys, r: Request, src: Bytes, term: int, now: int, luck: Luck)
    requires MgrInv(s.agent.node.mgr) && GrantEnds(s, v, r, src, term, now, luck) && Grants(s, r, term, now, luck)
    ensures r.id in v.agent.disk && Live(v.agent.node.mgr, LeaseFor(r, term).(grantedAt := now))
    ensures AgentClass.Discarded(v.agent.disk, r.id, luck.discard).1 == Gone <==> luck.discard == Unlinked
    ensures var u := Release(v.agent.node.mgr, r.id);
      u.leases == s.agent.node.mgr.leases && u.acct == s.agent.node.mgr.acct
  {
    hide MgrInv, Orderly, Accept, Release, AgentClass.Discarded, Pruned;
    GrantedThenReleased(s.agent.node.mgr, LeaseFor(r, term), now, luck.save, v.agent.disk, luck.discard);
  }

  /** The grant has returned, and nothing else has happened. */
  ghost predicate Returned(s: Sys, v: Sys, r: Request, src: Bytes, g: Lease, luck: Luck) {
    && v.agent.phase.Up? && v.agent.ops == s.agent.ops && Orderly(v) && Elsewhere(s, v, r.id)
    && s.agent.steps !in s.calls && v.calls == s.calls[s.agent.steps := Call(r, src, g, StagingRuns.Granted)]
    && v.agent.node.now == g.grantedAt && g.id == r.id && r.id in v.agent.disk && Live(v.agent.node.mgr, g)
    && (AgentClass.Discarded(v.agent.disk, r.id, luck.discard).1 == Gone <==> luck.discard == Unlinked)
    && var u := Release(v.agent.node.mgr, r.id); u.leases == s.agent.node.mgr.leases && u.acct == s.agent.node.mgr.acct
  }

  lemma FailedMoves(s: Sys, v: Sys, r: Request, src: Bytes, g: Lease, luck: Luck) returns (ms: seq<Move>)
    requires Returned(s, v, r, src, g, luck) && r.bytes >= 0 && !(luck.sourced && luck.syncs && 0 < |src| <= r.bytes)
    ensures StagingRuns.IsRun(v, ms)
    ensures var u := End(v, ms);
      && u.agent.phase.Up? && u.agent.ops == s.agent.ops && u.files - {r.id} == s.files - {r.id}
      && u.calls == s.calls && u.store == s.store && (luck.discard == Unlinked ==> SameBooks(s, u))
  {
    hide Can, Next, StagingRuns.IsRun, End, Orderly, Release, AgentClass.Discarded, Live;
    var k, broken := s.agent.steps, !(luck.sourced && luck.syncs);
    WriteIs(v, k, broken);
    ms := GivesBackMoves(v, Write(k, broken), k, luck.discard, luck.release);
    assert v.calls - {k} == s.calls;
  }

  lemma WriteMoves(s: Sys, v: Sys, r: Request, src: Bytes, g: Lease, luck: Luck)
    requires Returned(s, v, r, src, g, luck) && luck.sourced && luck.syncs && 0 < |src| <= r.bytes
    ensures var k := s.agent.steps;
      && Can(v, Write(k, false))
      && var u, c := Next(v, Write(k, false)), Call(r, src, g, Staged);
        && u.agent == v.agent && u.files == v.files[r.id := src] && u.calls == s.calls[k := c] && Held(u, c)
        && Orderly(u)
        && u.store == s.store && u.accepted == s.accepted && u.files - {r.id} == s.files - {r.id}
  {
    var k := s.agent.steps;
    WriteIs(v, k, false);
    hide Can, Next, Release, AgentClass.Discarded, Live;
    StillOrderly(v, Next(v, Write(k, false)), k, Call(r, src, g, Staged));
    hide Orderly;
    var u := Next(v, Write(k, false));
    assert u.files == v.files[r.id := src];
    assert u.files - {r.id} == v.files - {r.id};
  }

  /** Staged, and uploaded if the acknowledgement waits for it. */
  lemma StagedMoves(s: Sys, v: Sys, r: Request, ack: Ack, src: Bytes, term: int, now: int, luck: Luck)
    returns (ms: seq<Move>)
    requires Returned(s, v, r, src, LeaseFor(r, term).(grantedAt := now), luck) && Grants(s, r, term, now, luck)
    requires luck.sourced && luck.syncs && 0 < |src| <= r.bytes
    ensures StagingRuns.IsRun(v, ms) && StageEnds(s, End(v, ms), r, ack, src, term, now, luck)
  {
    hide Can, Next, StagingRuns.IsRun, End, Orderly, Release, AgentClass.Discarded, Live, Grants;
    var k, g := s.agent.steps, LeaseFor(r, term).(grantedAt := now);
    WriteMoves(s, v, r, src, g, luck);
    OneMoves(v, Write(k, false));
    ms := [Write(k, false)];
    if ack == Durable {
      var w := End(v, ms);
      var more := UploadMoves(w, k, luck);
      MovesConcat(v, ms, more);
      ms := ms + more;
      assert s.calls[k := w.calls[k]] - {k} == s.calls;
    }
  }

  /** A Stage call nobody interleaves with is a run of the model, and ends as the method
      Stage says: given back and nothing stored if it could not be staged, held if it
      was or its upload failed, given back once the store has the whole source. */
  lemma StageIsMoves(s: Sys, r: Request, ack: Ack, src: Bytes, term: int, now: int, luck: Luck) returns (ms: seq<Move>)
    requires SysInv(s) && Can(s, Begin(r, src, term, now, luck.save))
    ensures StagingRuns.IsRun(s, ms) && StageEnds(s, End(s, ms), r, ack, src, term, now, luck)
  {
    SysIsOrderly(s);
    assert r.bytes > 0;
    hide SysInv, Can, Next, StagingRuns.IsRun, End, MgrInv, Orderly, Grants, Live, Release, AgentClass.Discarded;
    ms := GrantMoves(s, r, src, term, now, luck);
    if Grants(s, r, term, now, luck) {
      var v, g, more := End(s, ms), LeaseFor(r, term).(grantedAt := now), [];
      GrantedBooks(s, v, r, src, term, now, luck);
      assert Returned(s, v, r, src, g, luck);
      hide Returned, GrantEnds;
      if luck.sourced && luck.syncs && 0 < |src| <= r.bytes {
        more := StagedMoves(s, v, r, ack, src, term, now, luck);
      } else {
        more := FailedMoves(s, v, r, src, g, luck);
      }
      MovesConcat(s, ms, more);
      ms := ms + more;
    }
  }
}
