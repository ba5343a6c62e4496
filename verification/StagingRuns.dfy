/** Checkpoint staging over the agent: any number of Stage calls as steps, between
    any steps of grants, reclaims, releases, kills and restarts of the agent. */
module StagingRuns {
  import opened Common
  import opened Leases
  import opened LeaseManager
  import opened PoolNames
  import opened AgentRuns
  import GrantPromise
  import LeaseRuns

  datatype Request = Request(id: string, tenant: string, dest: string, bytes: int)

  /** Where one Stage call is. Adrift is a checkpoint whose upload failed or whose
      process was killed: nobody will finish it, and its lease is kept. */
  datatype At = Granting(i: nat) | Granted | Staged | Stored | Adrift

  datatype Call = Call(r: Request, src: Bytes, g: Lease, at: At)

  /** `files` is what each extent holds; `accepted` what the store took from each
      call. */
  datatype Sys = Sys(
    agent: St, files: map<string, Bytes>, accepted: map<nat, Bytes>, store: map<string, Bytes>, calls: map<nat, Call>)

  datatype Move =
    | Agent(e: Event)
    | Begin(r: Request, src: Bytes, term: int, now: int, save: Saving)
    | Write(k: nat, broken: bool)
    | Upload(k: nat, ok: bool)
    | Finish(k: nat)

  // ---- Asking ----

  /** checkpoint.Check, for the one class staging uses. */
  predicate Allowed(bytes: int, guaranteedFree: int) {
    0 < bytes <= guaranteedFree
  }

  function LeaseFor(r: Request, term: int): Lease {
    Lease(r.id, r.tenant, GUARANTEED, r.bytes, 0, term)
  }

  /** What Check lets through, the guaranteed cap and the device have room for. */
  lemma AllowedFits(m: Mgr, bytes: int)
    requires MgrInv(m) && m.cfg.limit <= MAX_INT64
    ensures Allowed(bytes, GuaranteedFree(m)) <==>
      0 < bytes && Wrap64(Sum(GuaranteedOf(m.leases)) + bytes) <= m.cfg.limit && Lend(m.acct, bytes).Some?
  {
    if bytes >= 0 {
      GuaranteedFreeIsWhatFits(m, bytes);
    }
    hide Lend, GuaranteedFree, Wrap64;
  }

  // ---- Writing ----

  /** io.Copy from a reader limited to one byte past the reservation. */
  function Copied(src: Bytes, size: nat): Bytes {
    if |src| <= size + 1 then src else src[..size + 1]
  }

  /** The bytes stageTo leaves, unless the checkpoint overran. */
  function Staging(src: Bytes, size: nat): Option<Bytes> {
    var got := Copied(src, size);
    if |got| > size then None else Some(got)
  }

  /** What is staged is the whole source, and nothing is ever cut to fit. */
  lemma StagedIsWhole(src: Bytes, size: nat)
    ensures Staging(src, size) == if |src| <= size then Some(src) else None
  {
  }

  // ---- Steps ----

  /** The step does not release this lease, grant its name once the lease is gone, or
      replace a journal it cannot read. Granting the name of a lease that is live is
      the manager's to refuse. */
  ghost predicate KeepsOff(a: St, e: Event, g: Lease) {
    && e != StartRelease(g.id) && (e.StartGrant? && e.l.id == g.id ==> Live(a.node.mgr, g))
    && (e.Boot? ==> e.readable || e.save == FailedOld)
  }

  ghost predicate Apart(s: Sys, e: Event) {
    forall k :: k in s.calls ==> KeepsOff(s.agent, e, s.calls[k].g)
  }

  /** No other grant of this name is outstanding, so its extent is never remade. */
  ghost predicate Alone(a: St, id: string, but: int) {
    forall t :: t in a.ops && t != but && (a.ops[t].Creating? || a.ops[t].Reserving?) ==> a.ops[t].l.id != id
  }

  ghost predicate Can(s: Sys, m: Move) {
    match m
    case Agent(e) => Enabled(s.agent, e) && Apart(s, e)
    case Begin(r, _, term, now, save) =>
      && s.agent.phase.Up? && s.agent.node.now <= now && term > 0 && r.id != "" && r.dest != ""
      && Allowed(r.bytes, GuaranteedFree(s.agent.node.mgr)) && Apart(s, StartGrant(LeaseFor(r, term), now, save))
      && GrantPromise.Calm(s.agent, r.id) && Alone(s.agent, r.id, -1)
    case Write(k, _) => s.agent.phase.Up? && k in s.calls && s.calls[k].at.Granted?
    case Upload(k, _) => s.agent.phase.Up? && k in s.calls && s.calls[k].at.Staged?
    case Finish(k) => s.agent.phase.Up? && k in s.calls && s.calls[k].at.Stored?
  }

  /** What an agent's step leaves in the extents: a new one is empty, and one
      renamed is no longer under its name. */
  ghost function FilesAfter(s: Sys, e: Event): map<string, Bytes>
    requires Enabled(s.agent, e)
  {
    match e
    case Create(t, ok) => if Creates(s.agent, s.agent.ops[t].l, ok) then s.files - {s.agent.ops[t].l.id} else s.files
    case Rename(t, ok) =>
      var id := s.agent.ops[t].ids[0];
      if Renames(s.agent, id, ok) then s.files - {id} else s.files
    case _ => s.files
  }

  /** A call that is waiting for its grant hears of it; a kill leaves what was
      staged and forgets the rest. */
  ghost predicate StillThere(c: Call, e: Event, u: St) {
    if !u.phase.Up? then c.at.Staged? || c.at.Stored? || c.at.Adrift?
    else c.at.Granting? ==> c.at.i in u.ops || e == Reserve(c.at.i, Done)
  }

  ghost function Hears(c: Call, e: Event, u: St): Call {
    if !u.phase.Up? then c.(at := Adrift)
    else if c.at.Granting? && e == Reserve(c.at.i, Done) then c.(at := Granted)
    else c
  }

  ghost function CallsAfter(calls: map<nat, Call>, e: Event, u: St): map<nat, Call> {
    map k | k in calls && StillThere(calls[k], e, u) :: Hears(calls[k], e, u)
  }

  ghost function AgentStep(s: Sys, e: Event): Sys
    requires Enabled(s.agent, e)
  {
    var u := Step(s.agent, e);
    Sys(u, FilesAfter(s, e), s.accepted, s.store, CallsAfter(s.calls, e, u))
  }

  /** The stager asks the agent to release, and is done. */
  ghost function GiveBack(s: Sys, k: nat): Sys
    requires s.agent.phase.Up? && k in s.calls
  {
    var e := StartRelease(s.calls[k].r.id);
    AgentStep(s.(calls := s.calls - {k}), e)
  }

  ghost function Next(s: Sys, m: Move): Sys
    requires Can(s, m)
  {
    match m
    case Agent(e) => AgentStep(s, e)
    case Begin(r, src, term, now, save) =>
      var l, i := LeaseFor(r, term), s.agent.steps;
      var u := AgentStep(s, StartGrant(l, now, save));
      if Accept(s.agent.node.mgr, l, now, save).1.Some? then u
      else u.(calls := u.calls[i := Call(r, src, l.(grantedAt := now), Granting(i))])
    case Write(k, broken) =>
      var c := s.calls[k];
      var got := Staging(c.src, if c.r.bytes < 0 then 0 else c.r.bytes);
      if broken || got.None? || got.value == [] then GiveBack(s, k)
      else
        var files := if c.g.id in s.agent.disk then s.files[c.g.id := got.value] else s.files - {c.g.id};
        s.(files := files, calls := s.calls[k := c.(at := Staged)])
    case Upload(k, ok) =>
      var c := s.calls[k];
      if !ok || c.g.id !in s.agent.disk || c.g.id !in s.files then s.(calls := s.calls[k := c.(at := Adrift)])
      else
        var sent := s.files[c.g.id];
        s.(accepted := s.accepted[k := sent], store := s.store[c.r.dest := sent],
          calls := s.calls[k := c.(at := Stored)])
    case Finish(k) => GiveBack(s, k)
  }

  // ---- What every state keeps ----

  /** A lease of this name is this one. */
  ghost predicate Ours(m: Mgr, g: Lease) {
    g.id in m.leases ==> m.leases[g.id] == g
  }

  predicate HasBytes(at: At) {
    at.Staged? || at.Stored? || at.Adrift?
  }

  /** The promise to one call: until the term ends its lease is pledged, and the
      extent under its name holds the whole source. */
  ghost predicate CallInv(s: Sys, k: nat, c: Call) {
    && c.g.id == c.r.id && c.g.cls == GUARANTEED && c.g.size == c.r.bytes
    && (if c.at.Granting? then
          c.at.i == k && k in s.agent.ops &&
          s.agent.phase.Up? && Alone(s.agent, c.g.id, c.at.i) && Ours(s.agent.node.mgr, c.g) &&
          (Failed(s.agent, c.at.i) || Expired(c.g, s.agent.node.now) || GrantPromise.OnItsWay(s.agent, c.g, c.at.i))
        else Alone(s.agent, c.g.id, -1) && (Expired(c.g, s.agent.node.now) || Pledged(s.agent, c.g)))
    && (HasBytes(c.at) ==>
      && 0 < |c.src| <= c.r.bytes
      && (c.g.id in s.files ==> s.files[c.g.id] == c.src)
      && (Expired(c.g, s.agent.node.now) || c.g.id in s.files))
    && (c.at.Stored? ==> k in s.accepted && s.accepted[k] == c.src)
  }

  ghost predicate SysInv(s: Sys) {
    && AgentInv(s.agent)
    && (forall k :: k in s.calls ==> CallInv(s, k, s.calls[k]) && k < s.agent.steps)
    && (forall k, j :: k in s.calls && j in s.calls && s.calls[k].r.id == s.calls[j].r.id ==> k == j)
  }

  // ---- A step of the agent ----

  lemma NowGrows(a: St, e: Event)
    requires Enabled(a, e)
    ensures a.node.now <= Step(a, e).node.now
    ensures e.Boot? || e.StartReclaim? ==> e.now == Step(a, e).node.now
  {
    hide Accept, Release, Reclaim, Restore, RestoreSaves, FileAfter, Ladder;
  }

  /** No reclaim takes a guarantee before its term. */
  lemma GuaranteeIsSpared(m: Mgr, need: int, now: int, g: Lease)
    requires MgrInv(m) && Ours(m, g) && g.cls == GUARANTEED && !Expired(g, now)
    ensures g.id !in Reclaim(m, need, now).1.dropped
  {
    hide MgrInv, Ladder, Taken, Total, AnyElastic, TakenEarly, Keyed, LiveOf, DistinctIds, Sorted;
    KeyedHolds(m);
    if need > 0 {
      var expired, early := Ladder(ExpiredOf(m.leases, now)), TakenEarly(m, need, now);
      LadderParts(m.leases, ExpiredOf(m.leases, now));
      EarlyIsLive(m, need, now);
      IdsAre(expired);
      IdsAre(early);
      hide Ids;
      forall i | 0 <= i < |expired| ensures expired[i].id != g.id {
        assert expired[i] in expired;
      }
      forall i | 0 <= i < |early| ensures early[i].id != g.id {
        assert early[i] in early;
      }
      assert g.id !in Ids(expired) && g.id !in Ids(early);
    }
  }

  /** Until its term ends, every step that keeps apart from a call spares its lease. */
  lemma StepSpares(a: St, e: Event, g: Lease)
    requires AgentInv(a) && Enabled(a, e) && g.cls == GUARANTEED && !Expired(g, Step(a, e).node.now)
    requires KeepsOff(a, e, g) && (a.phase.Up? ==> Ours(a.node.mgr, g))
    ensures Spares(a, e, g)
  {
    NowGrows(a, e);
    if e.StartReclaim? {
      LeaseRuns.BooksOf(a.node);
      GuaranteeIsSpared(a.node.mgr, e.need, e.now, g);
    }
    hide Reclaim, Step, Sound, Live;
  }

  /** Nor does any other lease take its name. */
  lemma OursStays(a: St, e: Event, g: Lease)
    requires AgentInv(a) && Enabled(a, e) && KeepsOff(a, e, g) && a.phase.Up? && Ours(a.node.mgr, g)
    ensures Ours(Step(a, e).node.mgr, g)
  {
    if e.StartGrant? {
      AcceptedIsNew(a.node.mgr, e.l, e.now, e.save);
    }
    hide Sound, PhaseAfter, OpsAfter, DiskAfter, Ladder, FileAfter, Refused, TakenEarly, ExpiredOf;
  }

  lemma AloneStays(a: St, e: Event, g: Lease, but: int)
    requires Enabled(a, e) && Alone(a, g.id, but) && KeepsOff(a, e, g)
    ensures Alone(Step(a, e), g.id, but)
  {
    if e.StartGrant? {
      AcceptedIsNew(a.node.mgr, e.l, e.now, e.save);
    }
    hide Accept, Reclaim, NodeAfter, DiskAfter, Creates, Renames, Unlinks;
  }

  lemma AloneAtLast(a: St, id: string, i: nat)
    requires Enabled(a, Reserve(i, Done)) && Alone(a, id, i)
    ensures Alone(Step(a, Reserve(i, Done)), id, -1)
  {
    hide NodeAfter, DiskAfter;
  }

  /** The lease of a call whose grant has returned. */
  lemma LeaseStays(s: Sys, e: Event, k: nat, c: Call)
    requires AgentInv(s.agent) && Enabled(s.agent, e) && CallInv(s, k, c) && !c.at.Granting?
    requires KeepsOff(s.agent, e, c.g)
    ensures var u := Step(s.agent, e);
      Alone(u, c.g.id, -1) && (Expired(c.g, u.node.now) || Pledged(u, c.g))
  {
    AloneStays(s.agent, e, c.g, -1);
    NowGrows(s.agent, e);
    hide Step, AgentInv, Enabled, KeepsOff;
    var u := Step(s.agent, e);
    if !Expired(c.g, u.node.now) {
      PledgeIsLive(s.agent, c.g);
      StepSpares(s.agent, e, c.g);
      StepKeepsPledge(s.agent, e, c.g);
    }
  }

  lemma PledgeIsLive(a: St, g: Lease)
    requires Pledged(a, g)
    ensures a.phase.Up? ==> Live(a.node.mgr, g)
    ensures forall t :: t in a.ops ==> !Threatens(a.disk, a.ops[t], g.id)
  {
  }

  /** The lease of a call still waiting for its grant. */
  lemma GrantProceeds(s: Sys, e: Event, k: nat, c: Call)
    requires AgentInv(s.agent) && Enabled(s.agent, e) && CallInv(s, k, c) && c.at.Granting?
    requires KeepsOff(s.agent, e, c.g)
    ensures var u := Step(s.agent, e);
      if e == Reserve(c.at.i, Done) then Alone(u, c.g.id, -1) && (Expired(c.g, u.node.now) || Pledged(u, c.g))
      else
        && Alone(u, c.g.id, c.at.i) && Ours(u.node.mgr, c.g)
        && (Failed(u, c.at.i) || Expired(c.g, u.node.now) || GrantPromise.OnItsWay(u, c.g, c.at.i))
  {
    AloneStays(s.agent, e, c.g, c.at.i);
    OursStays(s.agent, e, c.g);
    NowGrows(s.agent, e);
    if e == Reserve(c.at.i, Done) {
      AloneAtLast(s.agent, c.g.id, c.at.i);
    }
    hide Step, AgentInv, Enabled, Alone, KeepsOff, Ours, GrantPromise.OnItsWay;
    var u := Step(s.agent, e);
    if Failed(s.agent, c.at.i) {
      FailedStaysFailed(s.agent, e, c.at.i);
    } else if !Expired(c.g, u.node.now) {
      StepSpares(s.agent, e, c.g);
      GrantPromise.StepOnItsWay(s.agent, e, c.g, c.at.i);
    }
  }

  /** The bytes of a call that has staged them. */
  lemma BytesStay(s: Sys, e: Event, k: nat, c: Call)
    requires Enabled(s.agent, e) && CallInv(s, k, c) && HasBytes(c.at)
    ensures var files := FilesAfter(s, e);
      && (c.g.id in files ==> files[c.g.id] == c.src)
      && (Expired(c.g, Step(s.agent, e).node.now) || c.g.id in files)
  {
    NowGrows(s.agent, e);
    hide Step, Creates, Renames, Live, Recorded;
    if !Expired(c.g, Step(s.agent, e).node.now) {
      PledgeIsLive(s.agent, c.g);
    }
  }

  lemma CallStays(s: Sys, e: Event, k: nat, c: Call)
    requires AgentInv(s.agent) && Enabled(s.agent, e) && CallInv(s, k, c)
    requires KeepsOff(s.agent, e, c.g) && StillThere(c, e, Step(s.agent, e))
    ensures CallInv(AgentStep(s, e), k, Hears(c, e, Step(s.agent, e)))
  {
    hide CallInv, Enabled, Step, FilesAfter, AgentInv, CallsAfter, Hears, KeepsOff;
    if c.at.Granting? {
      WaitingCallStays(s, e, k, c);
    } else {
      HeldCallStays(s, e, k, c);
    }
  }

  lemma CallIsItsLease(s: Sys, k: nat, c: Call)
    requires CallInv(s, k, c)
    ensures c.g.id == c.r.id
  {
    hide Alone, Pledged, GrantPromise.OnItsWay, Failed;
  }

  lemma WaitingCallStays(s: Sys, e: Event, k: nat, c: Call)
    requires AgentInv(s.agent) && Enabled(s.agent, e) && CallInv(s, k, c) && c.at.Granting?
    requires KeepsOff(s.agent, e, c.g) && StillThere(c, e, Step(s.agent, e))
    ensures CallInv(AgentStep(s, e), k, Hears(c, e, Step(s.agent, e)))
  {
    hide Alone, Ours, KeepsOff, Pledged, GrantPromise.OnItsWay, Failed, Enabled, Step, FilesAfter, AgentInv, Expired,
      CallsAfter;
    GrantProceeds(s, e, k, c);
  }

  lemma HeldCallStays(s: Sys, e: Event, k: nat, c: Call)
    requires AgentInv(s.agent) && Enabled(s.agent, e) && CallInv(s, k, c) && !c.at.Granting?
    requires KeepsOff(s.agent, e, c.g) && StillThere(c, e, Step(s.agent, e))
    ensures CallInv(AgentStep(s, e), k, Hears(c, e, Step(s.agent, e)))
  {
    hide Alone, Ours, KeepsOff, Pledged, GrantPromise.OnItsWay, Failed, Enabled, Step, FilesAfter, AgentInv, Expired,
      CallsAfter;
    LeaseStays(s, e, k, c);
    if HasBytes(c.at) {
      BytesStay(s, e, k, c);
    }
  }

  lemma StepCounts(a: St, e: Event)
    requires Enabled(a, e)
    ensures Step(a, e).steps == a.steps + 1
  {
    hide NodeAfter, DiskAfter, PhaseAfter, OpsAfter;
  }

  lemma AgentStepKeepsInv(s: Sys, e: Event)
    requires SysInv(s) && Enabled(s.agent, e) && Apart(s, e)
    ensures SysInv(AgentStep(s, e))
  {
    hide Enabled, Step, FilesAfter, AgentInv, CallInv, StillThere, Hears, KeepsOff;
    StepKeepsInv(s.agent, e);
    var u := AgentStep(s, e);
    StepCounts(s.agent, e);
    forall k | k in u.calls ensures k in s.calls && CallInv(u, k, u.calls[k]) && u.calls[k].r == s.calls[k].r {
      HearsOfTheSame(s.calls[k], e, u.agent);
      CallStays(s, e, k, s.calls[k]);
    }
  }

  lemma HearsOfTheSame(c: Call, e: Event, u: St)
    ensures Hears(c, e, u) == c.(at := Hears(c, e, u).at)
  {
  }

  // ---- A step of the stager ----

  lemma BeginKeepsInv(s: Sys, m: Move)
    requires SysInv(s) && Can(s, m) && m.Begin?
    ensures SysInv(Next(s, m))
  {
    hide Step, FilesAfter, AgentInv, CallInv, StillThere, Enabled, Accept, GuaranteedFree, GrantPromise.Calm, AgentStep,
      Alone, Apart;
    var r := m.r;
    var l, i := LeaseFor(r, m.term), s.agent.steps;
    var e := StartGrant(l, m.now, m.save);
    BeginIsEnabled(s, m);
    AgentStepKeepsInv(s, e);
    if Accept(s.agent.node.mgr, l, m.now, m.save).1.None? {
      BeginAddsItsCall(s, m);
    }
  }

  lemma BeginIsEnabled(s: Sys, m: Move)
    requires Can(s, m) && m.Begin?
    ensures var e := StartGrant(LeaseFor(m.r, m.term), m.now, m.save);
      Enabled(s.agent, e) && Apart(s, e) && GrantPromise.Calm(s.agent, m.r.id) && Alone(s.agent, m.r.id, -1)
  {
    hide GrantPromise.Calm, Alone, Apart, GuaranteedFree;
  }

  lemma BeginAddsItsCall(s: Sys, m: Move)
    requires SysInv(s) && Can(s, m) && m.Begin?
    requires Accept(s.agent.node.mgr, LeaseFor(m.r, m.term), m.now, m.save).1.None?
    requires var e := StartGrant(LeaseFor(m.r, m.term), m.now, m.save); Enabled(s.agent, e) && SysInv(AgentStep(s, e))
    ensures SysInv(Next(s, m))
  {
    hide Step, FilesAfter, AgentInv, CallInv, StillThere, Enabled, Accept, GuaranteedFree, GrantPromise.Calm,
      GrantPromise.OnItsWay, Alone, Apart;
    var r := m.r;
    var l, i := LeaseFor(r, m.term), s.agent.steps;
    var e := StartGrant(l, m.now, m.save);
    BeginIsEnabled(s, m);
    GrantPromise.CalmGrantStarts(s.agent, l, m.now, m.save);
    AloneAtFirst(s.agent, l, m.now, m.save);
    NoCallHasTheName(s, l, m.now, m.save);
    var v, u := AgentStep(s, e), Next(s, m);
    var c := Call(r, m.src, l.(grantedAt := m.now), Granting(i));
    assert u.calls == v.calls[i := c];
    NewCall(u, i, c);
    forall k | k in v.calls ensures v.calls[k].r.id == s.calls[k].r.id {
    }
    CallAdded(v, u, i, c);
  }

  lemma CallAdded(v: Sys, u: Sys, i: nat, c: Call)
    requires SysInv(v) && u == v.(calls := v.calls[i := c]) && CallInv(u, i, c) && i < v.agent.steps
    requires forall k :: k in v.calls ==> v.calls[k].r.id != c.r.id
    ensures SysInv(u)
  {
    hide AgentInv, CallInv;
    forall k | k in u.calls && k != i ensures CallInv(u, k, u.calls[k]) {
      SameCall(v, u, k, v.calls[k]);
    }
  }

  lemma AloneAtFirst(a: St, l: Lease, now: int, save: Saving)
    requires AgentInv(a) && Enabled(a, StartGrant(l, now, save)) && Accept(a.node.mgr, l, now, save).1.None?
    requires Alone(a, l.id, -1)
    ensures var u := Step(a, StartGrant(l, now, save));
      && Alone(u, l.id, a.steps) && Live(u.node.mgr, l.(grantedAt := now))
      && u.phase.Up? && u.steps == a.steps + 1
  {
    GrantIsRecorded(a.acct, a.node, l, now, save);
    hide Accept, Sound, LeaseRuns.Step, Recorded;
  }

  /** A name the manager grants is no call's. */
  lemma NoCallHasTheName(s: Sys, l: Lease, now: int, save: Saving)
    requires SysInv(s) && Apart(s, StartGrant(l, now, save)) && Accept(s.agent.node.mgr, l, now, save).1.None?
    ensures forall k :: k in s.calls ==> s.calls[k].r.id != l.id
  {
    hide Accept, CallInv, AgentInv;
    AcceptedIsNew(s.agent.node.mgr, l, now, save);
    forall k | k in s.calls ensures s.calls[k].r.id != l.id {
      CallIsItsLease(s, k, s.calls[k]);
    }
  }

  lemma NewCall(s: Sys, i: nat, c: Call)
    requires c.at == Granting(i) && c.g.id == c.r.id && c.g.cls == GUARANTEED && c.g.size == c.r.bytes
    requires GrantPromise.OnItsWay(s.agent, c.g, i) && Alone(s.agent, c.g.id, i) && Live(s.agent.node.mgr, c.g)
    ensures CallInv(s, i, c)
  {
    hide Alone, Unthreatened, Recorded, GrantPromise.Hopeless, GrantPromise.ShadowedBy;
  }

  /** What is promised to a call depends on the agent, the extent of its name and
      what the store took from it. */
  lemma SameCall(s: Sys, u: Sys, k: nat, c: Call)
    requires CallInv(s, k, c) && u.agent == s.agent
    requires c.g.id in u.files <==> c.g.id in s.files
    requires c.g.id in s.files ==> u.files[c.g.id] == s.files[c.g.id]
    requires k in s.accepted ==> k in u.accepted && u.accepted[k] == s.accepted[k]
    ensures CallInv(u, k, c)
  {
    hide Alone, Pledged, GrantPromise.OnItsWay, Failed;
  }

  lemma GiveBackKeepsInv(s: Sys, k: nat)
    requires SysInv(s) && s.agent.phase.Up? && k in s.calls
    ensures SysInv(GiveBack(s, k))
  {
    var v := s.(calls := s.calls - {k});
    hide AgentInv, CallInv;
    forall j | j in v.calls ensures CallInv(v, j, v.calls[j]) {
      SameCall(s, v, j, s.calls[j]);
    }
    var e := StartRelease(s.calls[k].r.id);
    forall j | j in v.calls ensures KeepsOff(v.agent, e, v.calls[j].g) {
      CallIsItsLease(s, j, s.calls[j]);
    }
    hide AgentStep;
    AgentStepKeepsInv(v, e);
  }

  /** One call moved on, the agent left alone. */
  lemma OneCallKeepsInv(s: Sys, u: Sys, k: nat, c: Call)
    requires SysInv(s) && u.agent == s.agent && k in s.calls && u.calls == s.calls[k := c] && c.r == s.calls[k].r
    requires CallInv(u, k, c)
    requires forall id :: id != c.r.id ==>
      (id in u.files <==> id in s.files) && (id in s.files ==> u.files[id] == s.files[id])
    requires forall j :: j != k && j in s.accepted ==> j in u.accepted && u.accepted[j] == s.accepted[j]
    ensures SysInv(u)
  {
    hide AgentInv;
    forall j | j in u.calls && j != k ensures CallInv(u, j, u.calls[j]) {
      var d := s.calls[j];
      assert d.g.id == d.r.id && d.r.id != c.r.id by {
        assert CallInv(s, j, d);
      }
      hide CallInv;
      SameCall(s, u, j, d);
    }
    hide CallInv;
  }

  lemma WriteKeepsInv(s: Sys, k: nat, broken: bool)
    requires SysInv(s) && Can(s, Write(k, broken))
    ensures SysInv(Next(s, Write(k, broken)))
  {
    var c := s.calls[k];
    var size := if c.r.bytes < 0 then 0 else c.r.bytes;
    StagedIsWhole(c.src, size);
    assert CallInv(s, k, c);
    hide AgentInv, SysInv, Staging;
    if broken || Staging(c.src, size).None? || c.src == [] {
      GiveBackKeepsInv(s, k);
    } else {
      var u := Next(s, Write(k, broken));
      WrittenCall(s, u, k);
      OneCallKeepsInv(s, u, k, c.(at := Staged));
    }
  }

  lemma WrittenCall(s: Sys, u: Sys, k: nat)
    requires k in s.calls && s.calls[k].at.Granted? && CallInv(s, k, s.calls[k])
    requires 0 < |s.calls[k].src| <= s.calls[k].r.bytes
    requires u.agent == s.agent
    requires var c := s.calls[k];
      u.files == if c.g.id in s.agent.disk then s.files[c.g.id := c.src] else s.files - {c.g.id}
    ensures CallInv(u, k, s.calls[k].(at := Staged))
  {
    hide Alone;
  }

  lemma UploadKeepsInv(s: Sys, k: nat, ok: bool)
    requires SysInv(s) && Can(s, Upload(k, ok))
    ensures SysInv(Next(s, Upload(k, ok)))
  {
    hide AgentInv, SysInv, Alone, Pledged, CallInv;
    var c, u := s.calls[k], Next(s, Upload(k, ok));
    CallHolds(s, k);
    UploadedCall(s, k, ok);
    OneCallKeepsInv(s, u, k, u.calls[k]);
  }

  lemma UploadedCall(s: Sys, k: nat, ok: bool)
    requires Can(s, Upload(k, ok)) && CallInv(s, k, s.calls[k])
    ensures var u := Next(s, Upload(k, ok)); CallInv(u, k, u.calls[k])
  {
    hide Alone, Pledged;
  }

  lemma MoveKeepsInv(s: Sys, m: Move)
    requires SysInv(s) && Can(s, m)
    ensures SysInv(Next(s, m))
  {
    match m
    case Agent(e) =>
      hide SysInv, AgentStep;
      AgentStepKeepsInv(s, e);
    case Begin(_, _, _, _, _) =>
      hide SysInv, Next;
      BeginKeepsInv(s, m);
    case Write(k, broken) =>
      hide SysInv, Next;
      WriteKeepsInv(s, k, broken);
    case Upload(k, ok) =>
      hide SysInv, Next;
      UploadKeepsInv(s, k, ok);
    case Finish(k) =>
      hide SysInv, GiveBack;
      GiveBackKeepsInv(s, k);
  }

  // ---- Whole runs ----

  ghost predicate IsRun(s: Sys, ms: seq<Move>)
    decreases |ms|, 0
  {
    ms == [] || (IsRun(s, ms[..|ms| - 1]) && Can(End(s, ms[..|ms| - 1]), ms[|ms| - 1]))
  }

  ghost function End(s: Sys, ms: seq<Move>): Sys
    requires IsRun(s, ms)
    decreases |ms|, 1
  {
    if ms == [] then s else Next(End(s, ms[..|ms| - 1]), ms[|ms| - 1])
  }

  ghost predicate Started(s: Sys) {
    Fresh(s.agent) && s.calls == map[]
  }

  lemma {:induction false} RunKeepsInv(s: Sys, ms: seq<Move>)
    requires Started(s) && IsRun(s, ms)
    ensures SysInv(End(s, ms))
    decreases |ms|
  {
    hide SysInv, Can, Next;
    if ms == [] {
      FreshInv(s.agent);
      StartedInv(s);
    } else {
      RunKeepsInv(s, ms[..|ms| - 1]);
      MoveKeepsInv(End(s, ms[..|ms| - 1]), ms[|ms| - 1]);
    }
  }

  lemma StartedInv(s: Sys)
    requires AgentInv(s.agent) && s.calls == map[]
    ensures SysInv(s)
  {
    hide AgentInv;
  }

  /** In every state of every run, from the moment a checkpoint is staged until its
      capacity is given back or its term ends: its guaranteed lease is live, or
      recorded if the agent is down, its extent is named on disk and holds the
      whole source. */
  lemma StagedIsHeld(s: Sys, ms: seq<Move>, k: nat)
    requires Started(s) && IsRun(s, ms)
    requires var u := End(s, ms); k in u.calls && HasBytes(u.calls[k].at) && !Expired(u.calls[k].g, u.agent.node.now)
    ensures var u := End(s, ms); var c := u.calls[k];
      && c.g.cls == GUARANTEED && c.g.id == c.r.id && c.g.size == c.r.bytes
      && c.g.id in u.agent.disk && c.g.id in u.files && u.files[c.g.id] == c.src
      && if u.agent.phase.Down? then Recorded(u.agent.node.file, c.g) else Live(u.agent.node.mgr, c.g)
  {
    hide Started, IsRun, End, SysInv, Recorded, Live, Alone, ValidLeaseId, Unthreatened;
    RunKeepsInv(s, ms);
    CallHolds(End(s, ms), k);
  }

  lemma CallHolds(s: Sys, k: nat)
    requires SysInv(s) && k in s.calls
    ensures CallInv(s, k, s.calls[k])
  {
    hide CallInv, AgentInv;
  }

  /** Only its own Finish ends a call that has staged its bytes. */
  lemma OnlyFinishEnds(s: Sys, m: Move, k: nat)
    requires Can(s, m) && k in s.calls && HasBytes(s.calls[k].at) && k !in Next(s, m).calls
    ensures m == Finish(k)
  {
    hide Step, FilesAfter, Enabled, Staging, GuaranteedFree, GrantPromise.Calm, Alone, Apart, Accept;
  }

  /** And it is given back only by its own call, and only once the store accepted an
      object that is the whole source. */
  lemma GivenBackOnlyWhenDurable(s: Sys, ms: seq<Move>, m: Move, k: nat)
    requires Started(s) && IsRun(s, ms)
    requires var u := End(s, ms); Can(u, m) && k in u.calls && HasBytes(u.calls[k].at) && k !in Next(u, m).calls
    ensures var u := End(s, ms); m == Finish(k) && k in u.accepted && u.accepted[k] == u.calls[k].src
  {
    hide Started, IsRun, End, SysInv, Pledged, Alone, Next, GrantPromise.OnItsWay;
    RunKeepsInv(s, ms);
    OnlyFinishEnds(End(s, ms), m, k);
    CallHolds(End(s, ms), k);
  }

  /** What the store takes from a call is the whole source. */
  lemma AcceptedIsWhole(s: Sys, ms: seq<Move>, k: nat, ok: bool)
    requires Started(s) && IsRun(s, ms) && Can(End(s, ms), Upload(k, ok))
    requires Next(End(s, ms), Upload(k, ok)).calls[k].at.Stored?
    ensures var u := End(s, ms); var c, v := u.calls[k], Next(u, Upload(k, ok));
      ok && v.store[c.r.dest] == c.src && v.accepted[k] == c.src
  {
    hide Started, IsRun, End, SysInv, Pledged, Alone, GrantPromise.OnItsWay;
    RunKeepsInv(s, ms);
    CallHolds(End(s, ms), k);
  }
}
