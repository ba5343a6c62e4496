/** The stager's own code: reserve, write, acknowledge, upload and only then give
    back, over the agent object. */
module StagingClass {
  import opened Common
  import opened Leases
  import opened LeaseManager
  import opened ManagerClass
  import opened PoolNames
  import opened AgentClass
  import opened StagingRuns

  datatype Ack = Durable | StagedAck

  datatype StageError = BadRequest | TooLarge | NoGrant | NotWritten | Overran | Empty | UploadFailed | Cancelled

  /** How an upload ended, recorded once. */
  class Checkpoint {
    const ack: Ack
    var done: bool
    var err: Option<StageError>

    constructor (ack: Ack)
      ensures this.ack == ack && !done
    {
      this.ack, done, err := ack, false, None;
    }

    method Finish(e: Option<StageError>)
      modifies this
      ensures done && err == if old(done) then old(err) else e
    {
      if !done {
        done, err := true, e;
      }
    }
  }

  /** What each extent holds. */
  class Extents {
    var bytes: map<string, Bytes>
  }

  class Store {
    var objects: map<string, Bytes>
  }

  /** What the filesystem and the store let one Stage call do. */
  datatype Luck = Luck(
    save: Saving, creates: bool, reserves: AllocStep, undo: Saving,
    sourced: bool, syncs: bool, uploads: bool, cancelled: bool, discard: DiscardStep, release: Saving)

  class Stager {
    const agent: Agent
    const extents: Extents
    const store: Store
    const term: int

    constructor (agent: Agent, extents: Extents, store: Store, term: int)
      ensures this.agent == agent && this.extents == extents && this.store == store && this.term == term
    {
      this.agent, this.extents, this.store, this.term := agent, extents, store, term;
    }

    /** The checkpoint is on this node under a guarantee. */
    ghost predicate Holds(r: Request, src: Bytes, now: int)
      reads agent.manager, agent.dir, extents
    {
      && r.id in agent.manager.leases && agent.manager.leases[r.id] == LeaseFor(r, term).(grantedAt := now)
      && r.id in agent.dir.names && r.id in extents.bytes && extents.bytes[r.id] == src
    }

    /** stageTo: one byte past the reservation is read, so nothing is cut to fit. */
    method StageTo(id: string, src: Bytes, size: nat, sourced: bool, syncs: bool)
      returns (written: Option<nat>, e: StageError)
      modifies extents
      ensures written.Some? <==> id in agent.dir.names && sourced && |src| <= size && syncs
      ensures e == if id in agent.dir.names && sourced && |src| > size then Overran else NotWritten
      ensures written.Some? ==> written.value == |src| && extents.bytes == old(extents.bytes)[id := src]
      ensures forall x :: x != id && x in old(extents.bytes) ==>
        x in extents.bytes && extents.bytes[x] == old(extents.bytes)[x]
    {
      e := NotWritten;
      if id !in agent.dir.names || !sourced {
        return None, e;
      }
      var copied := Copied(src, size);
      extents.bytes := extents.bytes[id := copied];
      if |copied| > size {
        return None, Overran;
      }
      if !syncs {
        return None, e;
      }
      written := Some(|copied|);
    }

    /** Everything up to the acknowledgement. A failure after the grant gives the
        capacity back, because nothing worth keeping was staged. */
    method Reserve(r: Request, src: Bytes, now: int, luck: Luck) returns (written: Option<nat>, e: StageError)
      requires agent.manager.Valid()
      modifies agent.manager, agent.manager.journal, agent.dir, extents
      ensures agent.manager.Valid() && e != UploadFailed && e != Cancelled
      ensures written.Some? <==>
        && r.id != "" && r.dest != "" && Allowed(r.bytes, GuaranteedFree(old(agent.manager.State())))
        && LeaseManager.Accept(old(agent.manager.State()), LeaseFor(r, term), now, luck.save).1.None?
        && ValidLeaseId(r.id) && r.id !in old(agent.dir.names) && luck.creates && luck.reserves == Reserved
        && luck.sourced && luck.syncs && 0 < |src| <= r.bytes
      ensures written.Some? ==> Holds(r, src, now) && written.value == |src| && 0 < |src| <= r.bytes
      ensures written.None? && luck.discard == Unlinked ==>
        agent.manager.leases == old(agent.manager.leases) && agent.manager.acct == old(agent.manager.acct)
    {
      hide MgrInv, GuaranteedFree, LeaseManager.Accept, Pruned, ValidLeaseId, Discarded, LeaseManager.Release;
      if r.id == "" || r.dest == "" {
        return None, BadRequest;
      }
      var free := agent.manager.PromisesLeft();
      if !Allowed(r.bytes, free) {
        return None, TooLarge;
      }
      ghost var m := agent.manager.State();
      var ok := agent.Grant(LeaseFor(r, term), now, luck.save, luck.creates, luck.reserves, luck.undo);
      if !ok {
        return None, NoGrant;
      }
      GrantedThenReleased(m, LeaseFor(r, term), now, luck.save, agent.dir.names, luck.discard);
      written, e := StageTo(r.id, src, r.bytes, luck.sourced, luck.syncs);
      if written == Some(0) {
        written, e := None, Empty;
      }
      if written.None? {
        var size, freed := agent.Release(r.id, luck.discard, luck.release);
      }
    }

    /** upload: released only when the store took it, kept when it did not, and failed
        if the extent was taken away before it could be opened. */
    method Upload(r: Request, ghost src: Bytes, written: nat, luck: Luck, c: Checkpoint)
      requires agent.manager.Valid() && written == |src| && !c.done
      requires r.id in agent.dir.names ==> r.id in extents.bytes && extents.bytes[r.id] == src
      modifies agent.manager, agent.manager.journal, agent.dir, store, c
      ensures agent.manager.Valid() && c.done
      ensures var stored := luck.uploads && r.id in old(agent.dir.names);
        && c.err == (if stored then None else Some(UploadFailed))
        && store.objects == (if stored then old(store.objects)[r.dest := src] else old(store.objects))
        && (!stored ==> agent.manager.State() == old(agent.manager.State()) && agent.dir.names == old(agent.dir.names))
    {
      hide MgrInv, Discarded, LeaseManager.Release;
      if r.id !in agent.dir.names {
        c.Finish(Some(UploadFailed));
        return;
      }
      var sent := extents.bytes[r.id][..written];
      assert sent == src;
      if luck.uploads {
        store.objects := store.objects[r.dest := sent];
        var size, freed := agent.Release(r.id, luck.discard, luck.release);
        c.Finish(None);
      } else {
        c.Finish(Some(UploadFailed));
      }
    }

    /** Stage, with the upload of a staged acknowledgement not yet run. A durable
        acknowledgement means the store holds the whole source; a staged one, or an
        upload that failed, means this node still does. A wait cut short says neither:
        what it waited for has happened all the same. */
    method Stage(r: Request, ack: Ack, src: Bytes, now: int, luck: Luck)
      returns (c: Option<Checkpoint>, e: Option<StageError>)
      requires agent.manager.Valid()
      modifies agent.manager, agent.manager.journal, agent.dir, extents, store
      ensures agent.manager.Valid() && (c.Some? <==> e.None?)
      ensures c.Some? ==> fresh(c.value) && c.value.ack == ack && 0 < |src| <= r.bytes
      ensures c.Some? && ack == Durable ==> store.objects == old(store.objects)[r.dest := src]
      ensures c.Some? && ack == StagedAck ==> Holds(r, src, now) && store.objects == old(store.objects)
      ensures e == Some(UploadFailed) ==> Holds(r, src, now)
      ensures e == Some(Cancelled) ==>
        if luck.uploads then store.objects == old(store.objects)[r.dest := src]
        else Holds(r, src, now) && store.objects == old(store.objects)
      ensures c.None? && e != Some(Cancelled) ==> store.objects == old(store.objects)
      ensures c.None? && e != Some(UploadFailed) && e != Some(Cancelled) && luck.discard == Unlinked ==>
        agent.manager.leases == old(agent.manager.leases) && agent.manager.acct == old(agent.manager.acct)
    {
      hide MgrInv;
      var written, why := Reserve(r, src, now, luck);
      if written.None? {
        return None, Some(why);
      }
      var made := new Checkpoint(ack);
      if ack == Durable {
        Upload(r, src, written.value, luck, made);
        if luck.cancelled {
          return None, Some(Cancelled);
        }
        if made.err.Some? {
          return None, Some(UploadFailed);
        }
      }
      c, e := Some(made), None;
    }
  }

  /** Discarding the extent of a grant just made succeeds, and with it the release
      leaves the books as they were. */
  lemma GrantedThenReleased(m: Mgr, l: Lease, now: int, save: Saving, names: set<string>, d: DiscardStep)
    requires MgrInv(m) && LeaseManager.Accept(m, l, now, save).1.None? && ValidLeaseId(l.id) && l.id in names
    ensures var u := LeaseManager.Granted(Pruned(m, now), l, now);
      && l.id in u.leases && u.leases[l.id] == l.(grantedAt := now)
      && LeaseManager.Release(u, l.id).leases == m.leases && LeaseManager.Release(u, l.id).acct == m.acct
    ensures Discarded(names, l.id, d).1 == Gone <==> d == Unlinked
  {
    AcceptThenRelease(m, l, now, save);
    hide LeaseManager.Release, LeaseManager.Accept, Pruned, MgrInv, ValidLeaseId;
  }
}
