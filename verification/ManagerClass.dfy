/** The lease manager and its journal as objects. Every method runs with the
    manager's mutex held and is proved against the value it makes of the manager
    and of the journal file. */
module ManagerClass {
  import opened Common
  import opened Leases
  import opened ReclaimHistory
  import opened LeaseManager

  class FileJournal {
    var file: File

    constructor (file: File)
      ensures this.file == file
    {
      this.file := file;
    }

    /** Save: the whole set, through a temporary file renamed over the journal.
        `how` is where the filesystem lets it get to. */
    method Save(ls: seq<Lease>, how: Saving) returns (ok: bool)
      modifies this
      ensures file == FileAfter(old(file), ls, how) && ok == (how == Saved)
    {
      var records: seq<Record> := [];
      var i := 0;
      while i < |ls|
        invariant 0 <= i <= |ls| && records + ToRecords(ls[i..]) == ToRecords(ls)
        modifies {}
      {
        assert ls[i..][1..] == ls[i + 1..];
        records := records + [ToRecord(ls[i])];
        i := i + 1;
      }
      if how != FailedOld {
        file := Document(JOURNAL_FORMAT, records);
      }
      ok := how == Saved;
    }

    /** Whether what is there can be read and is not a journal. */
    method Corrupt() returns (yes: bool)
      ensures yes == LeaseManager.Load(file).None?
    {
      var loaded := Load();
      yes := loaded.None?;
    }

    /** Load, refusing a duplicate identifier or a class nobody knows. */
    method Load() returns (loaded: Option<seq<Lease>>)
      ensures loaded == LeaseManager.Load(file)
    {
      if file == Missing {
        return Some([]);
      }
      if file == Garbled || file.format != JOURNAL_FORMAT {
        return None;
      }
      hide ParseClass;
      var rs := file.records;
      assert rs[0..] == rs;
      ghost var all := ReadRecords(rs, {});
      assert all.Some? ==> [] + all.value == all.value;
      var out: seq<Lease> := [];
      var seen: set<string> := {};
      var i := 0;
      while i < |rs|
        invariant 0 <= i <= |rs|
        invariant var rest := ReadRecords(rs[i..], seen);
          ReadRecords(rs, {}) == if rest.None? then None else Some(out + rest.value)
      {
        assert rs[i..][1..] == rs[i + 1..];
        ghost var rest := ReadRecords(rs[i..], seen);
        var r := rs[i];
        var c := ParseClass(r.cls);
        if r.id in seen || c.None? {
          return None;
        }
        seen := seen + {r.id};
        var l := Lease(r.id, r.tenant, c.value, r.size, r.grantedAt, r.term);
        assert rest.Some? ==> out + rest.value == out + [l] + rest.value[1..];
        out := out + [l];
        i := i + 1;
      }
      assert rs[i..] == [] && out + [] == out;
      loaded := Some(out);
    }
  }

  class Manager {
    const cfg: Config
    const journal: FileJournal
    var acct: Accounting
    var leases: LeaseMap
    var reclaims: seq<int>
    var restored: bool

    ghost function State(): Mgr
      reads this
    {
      Mgr(cfg, acct, leases, reclaims, restored)
    }

    ghost predicate Valid()
      reads this
    {
      MgrInv(State())
    }

    /** New, with a journal: nothing is lent until it has been replayed. */
    constructor (cfg: Config, acct: Accounting, journal: FileJournal)
      ensures State() == Mgr(cfg, acct, map[], [], false) && this.journal == journal
      ensures Balanced(acct) && acct.borrowed == 0 && cfg.limit >= 0 ==> Valid()
    {
      this.cfg, this.acct, this.journal := cfg, acct, journal;
      leases, reclaims, restored := map[], [], false;
      new;
      if cfg.limit >= 0 {
        EmptyWithinCaps(cfg);
      }
    }

    /** leasesLocked: out of the map in any order, then into reclaim order. */
    method LeasesLocked() returns (ls: seq<Lease>)
      requires Keyed(leases)
      ensures ls == Ladder(leases)
    {
      ls := [];
      var left := leases.Keys;
      while left != {}
        invariant left <= leases.Keys && IsLadder(ls, leases - left)
        decreases |left|
      {
        var id :| id in left;
        InsertKeepsSorted(leases[id], ls);
        ls := Insert(leases[id], ls);
        left := left - {id};
      }
      assert leases - left == leases;
      LadderIs(leases);
      LadderIsUnique(ls, Ladder(leases));
    }

    method Persist(how: Saving) returns (ok: bool)
      requires Keyed(leases)
      modifies journal
      ensures journal.file == FileAfter(old(journal.file), Ladder(leases), how) && ok == (how == Saved)
    {
      var ls := LeasesLocked();
      ok := journal.Save(ls, how);
    }

    /** What one tenant holds, of any class and guaranteed. */
    method HeldBy(tenant: string) returns (borrowed: int, guaranteed: int)
      requires Keyed(leases) && Sum(leases) <= MAX_INT64
      ensures borrowed == Sum(OfTenant(leases, tenant)) && guaranteed == Sum(GuaranteedOf(OfTenant(leases, tenant)))
    {
      borrowed, guaranteed := 0, 0;
      var left := leases.Keys;
      NothingHeld(leases, tenant);
      while left != {}
        invariant left <= leases.Keys
        invariant borrowed == Sum(OfTenant(leases - left, tenant))
        invariant guaranteed == Sum(GuaranteedOf(OfTenant(leases - left, tenant)))
        decreases |left|
      {
        hide Wrap64, Sum, OfTenant, GuaranteedOf, Keyed;
        var id :| id in left;
        var held := leases[id];
        OneMoreHeld(leases, left, id, tenant);
        if held.tenant == tenant {
          borrowed := Wrap64(borrowed + held.size);
          if held.cls == GUARANTEED {
            guaranteed := Wrap64(guaranteed + held.size);
          }
        }
        left := left - {id};
      }
      assert leases - left == leases;
    }

    method WithinQuota(l: Lease) returns (no: Option<Refusal>)
      requires Keyed(leases) && Sum(leases) <= MAX_INT64
      ensures no == QuotaRefusal(State(), l)
    {
      var q := cfg.quota;
      if !(q.borrowed > 0 || q.guaranteed > 0) || l.tenant == NODE_TENANT {
        return None;
      }
      if l.tenant == "" {
        return Some(NoTenant);
      }
      var borrowed, guaranteed := HeldBy(l.tenant);
      if q.borrowed > 0 && Wrap64(borrowed + l.size) > q.borrowed {
        return Some(TenantQuota);
      }
      if l.cls == GUARANTEED && q.guaranteed > 0 && Wrap64(guaranteed + l.size) > q.guaranteed {
        return Some(TenantQuota);
      }
      no := None;
    }

    method GuaranteedTotal() returns (total: int)
      requires Keyed(leases) && Sum(leases) <= MAX_INT64
      ensures total == Sum(GuaranteedOf(leases))
    {
      total := 0;
      var left := leases.Keys;
      assert leases - left == map[] && GuaranteedOf(map[]) == map[];
      while left != {}
        invariant left <= leases.Keys && total == Sum(GuaranteedOf(leases - left))
        decreases |left|
      {
        hide Wrap64, Sum;
        var id :| id in left;
        ghost var done := leases - left;
        assert leases - (left - {id}) == done[id := leases[id]];
        SumPart(leases, done[id := leases[id]]);
        GuaranteedGrows(done, done[id := leases[id]], leases[id], true);
        CapGrows(done, leases[id], GuaranteedOf(done), GuaranteedOf(done[id := leases[id]]),
          leases[id].cls == GUARANTEED);
        SumAdd(done, leases[id]);
        if leases[id].cls == GUARANTEED {
          total := Wrap64(total + leases[id].size);
        }
        left := left - {id};
      }
      assert leases - left == leases;
    }

    /** GuaranteedFree: the smaller of the share left and the device left. */
    method PromisesLeft() returns (n: int)
      requires Valid()
      ensures n == GuaranteedFree(State())
    {
      hide Sum, GuaranteedOf, WithinCaps;
      n := GuaranteedTotal();
      n := cfg.limit - n;
      if Free(acct) < n {
        n := Free(acct);
      }
      if n < 0 {
        n := 0;
      }
    }

    method CountReclaims(cutoff: int) returns (n: nat)
      ensures n == CountAfter(reclaims, cutoff)
    {
      n := 0;
      var i := 0;
      while i < |reclaims|
        invariant 0 <= i <= |reclaims| && n == CountAfter(reclaims[..i], cutoff)
      {
        assert reclaims[..i + 1][..i] == reclaims[..i];
        if reclaims[i] > cutoff {
          n := n + 1;
        }
        i := i + 1;
      }
      assert reclaims[..i] == reclaims;
    }

    method IsChurning(now: int) returns (yes: bool)
      ensures yes == Churning(cfg.policy, reclaims, now)
    {
      if cfg.policy.churnBudget <= 0 || cfg.policy.churnWindow <= 0 {
        return false;
      }
      var n := CountReclaims(now - cfg.policy.churnWindow);
      yes := n >= cfg.policy.churnBudget;
    }

    method Cooldown(now: int) returns (d: int)
      ensures d == CooldownFor(cfg.policy, reclaims, now)
    {
      var p := cfg.policy;
      if p.minTerm <= 0 {
        return 0;
      }
      var n := CountReclaims(now - p.churnWindow);
      d := p.minTerm;
      if n <= 1 || !p.autonomy {
        return;
      }
      var i := 1;
      while i < n && d < p.churnWindow
        invariant 1 <= i <= n && Doubled(d, n - i, p.churnWindow) == Doubled(p.minTerm, n - 1, p.churnWindow)
      {
        d := Wrap64(d * 2);
        i := i + 1;
      }
      if p.churnWindow > 0 && d > p.churnWindow {
        d := p.churnWindow;
      }
    }

    method IsCooling(now: int) returns (yes: bool)
      ensures yes == InCooldown(cfg.policy, reclaims, now)
    {
      if cfg.policy.minTerm <= 0 || |reclaims| == 0 {
        return false;
      }
      var d := Cooldown(now);
      yes := reclaims[|reclaims| - 1] + d - now > 0;
    }

    method PruneHistory(now: int)
      modifies this`reclaims
      ensures reclaims == Prune(cfg.policy, old(reclaims), now)
    {
      var r := if cfg.policy.minTerm > cfg.policy.churnWindow then cfg.policy.minTerm else cfg.policy.churnWindow;
      if r <= 0 {
        reclaims := [];
        return;
      }
      var kept: seq<int> := [];
      var i := 0;
      while i < |reclaims|
        invariant 0 <= i <= |reclaims| && kept == KeepAfter(reclaims[..i], now - r)
      {
        assert reclaims[..i + 1][..i] == reclaims[..i];
        if reclaims[i] > now - r {
          kept := kept + [reclaims[i]];
        }
        i := i + 1;
      }
      assert reclaims[..i] == reclaims;
      reclaims := kept;
    }

    method Check(l: Lease, now: int) returns (no: Option<Refusal>)
      requires Keyed(leases) && Sum(leases) <= MAX_INT64
      ensures no == Refused(State(), l, now)
    {
      hide QuotaRefusal, Churning, InCooldown, Wrap64, Lend, Sum, GuaranteedOf;
      if !restored {
        return Some(NotRestored);
      }
      if !ValidClass(l.cls) {
        return Some(BadClass);
      }
      if l.term <= 0 {
        return Some(BadTerm);
      }
      if l.id in leases {
        return Some(Duplicate);
      }
      var churns := IsChurning(now);
      if churns {
        return Some(Churns);
      }
      var cools := IsCooling(now);
      if cools {
        return Some(Cools);
      }
      if l.cls == ELASTIC && cfg.reclaimWithin <= 0 {
        return Some(NoDeadline);
      }
      no := WithinQuota(l);
      if no.Some? {
        return;
      }
      if l.cls == GUARANTEED {
        var total := GuaranteedTotal();
        if Wrap64(total + l.size) > cfg.limit {
          return Some(GuaranteeCap);
        }
      }
      if Lend(acct, l.size).None? {
        return Some(DoesNotFit);
      }
      no := None;
    }

    /** Accept: journalled before it is honoured, and undone if it cannot be. */
    method Accept(l: Lease, now: int, how: Saving) returns (no: Option<Refusal>)
      requires Valid()
      modifies this, journal
      ensures Valid() && (State(), no) == LeaseManager.Accept(old(State()), l, now, how)
      ensures journal.file ==
        if no.None? || no == Some(NotSaved) then
          FileAfter(old(journal.file), Ladder(Granted(old(State()), l, now).leases), how)
        else old(journal.file)
    {
      hide MgrInv, Refused, LeaseManager.Accept, Ladder, FileAfter, Prune, Keyed, Sum, Granted;
      ghost var m := State();
      PruneHistory(now);
      PrunedIsValid(m, now, State());
      no := Check(l, now);
      if no.None? {
        var ok := Honour(l, now, how);
        if !ok {
          no := Some(NotSaved);
        }
      }
      AcceptIs(m, l, now, how);
    }

    /** Lend the capacity and journal the lease, or take both back. */
    method Honour(l: Lease, now: int, how: Saving) returns (ok: bool)
      requires Valid() && Refused(State(), l, now).None?
      modifies this`acct, this`leases, journal
      ensures Valid() && ok == (how == Saved) && State() == if ok then Granted(old(State()), l, now) else old(State())
      ensures journal.file == FileAfter(old(journal.file), Ladder(Granted(old(State()), l, now).leases), how)
    {
      hide MgrInv, Refused, Lend, Return, Ladder, FileAfter;
      ghost var m := State();
      GrantFits(m, l, now);
      acct := Lend(acct, l.size).value;
      leases := leases[l.id := l.(grantedAt := now)];
      ok := Persist(how);
      if !ok {
        acct := Return(acct, l.size).value;
        leases := leases - {l.id};
        assert leases == m.leases;
      }
    }

    /** releaseLocked: the capacity first, then the record. It cannot fail on a
        lease the manager holds. */
    method ReleaseLocked(l: Lease) returns (ok: bool)
      requires Books(State()) && l.id in leases && leases[l.id] == l
      modifies this`acct, this`leases
      ensures ok && Books(State()) && State() == Dropped(old(State()), [l]) && (old(Valid()) ==> Valid())
    {
      DropKeepsBooks(State(), [l]);
      if Valid() {
        DropKeepsInv(State(), [l]);
      }
      assert IdSet([l]) == {l.id} && Total([l]) == l.size;
      hide WithinCaps;
      acct := Return(acct, l.size).value;
      leases := leases - {l.id};
      ok := true;
    }

    method Release(id: string, how: Saving) returns (size: Option<int>, ok: bool)
      requires Books(State())
      modifies this, journal
      ensures Books(State()) && (old(Valid()) ==> Valid()) && ok == (size.Some? && how == Saved)
      ensures State() == LeaseManager.Release(old(State()), id)
      ensures size == if id in old(leases) then Some(old(leases[id].size)) else None
      ensures journal.file ==
        if id in old(leases) then FileAfter(old(journal.file), Ladder(leases), how) else old(journal.file)
    {
      if id !in leases {
        return None, false;
      }
      var l := leases[id];
      ok := ReleaseLocked(l);
      hide WithinCaps, Ladder, FileAfter;
      ok := Persist(how);
      size := Some(l.size);
    }

    /** Release a list of leases held, one after another. */
    method ReleaseAll(ls: seq<Lease>) returns (reclaimed: int, dropped: seq<string>)
      requires Valid() && DistinctIds(ls) && forall l :: l in ls ==> l.id in leases && leases[l.id] == l
      modifies this`acct, this`leases
      ensures Valid() && State() == Dropped(old(State()), ls)
      ensures reclaimed == Total(ls) && dropped == Ids(ls)
    {
      hide MgrInv, Books, Released, DistinctIds;
      reclaimed, dropped := 0, [];
      ghost var m := State();
      var i := 0;
      NoneReleased(m, ls);
      while i < |ls|
        invariant 0 <= i <= |ls| && Valid() && Released(m, ls, i, State(), reclaimed, dropped)
      {
        OneReleased(m, ls, i, State(), reclaimed, dropped);
        BooksOfValid(State());
        var ok := ReleaseLocked(ls[i]);
        reclaimed := reclaimed + ls[i].size;
        dropped := dropped + [ls[i].id];
        i := i + 1;
      }
      AllReleased(m, ls, State(), reclaimed, dropped);
    }

    method ExpireLocked(now: int) returns (reclaimed: int, dropped: seq<string>)
      requires Valid()
      modifies this`acct, this`leases
      ensures Valid() && State() == LeaseManager.Expire(old(State()), now).0
      ensures reclaimed == Total(Ladder(ExpiredOf(old(leases), now)))
      ensures dropped == Ids(Ladder(ExpiredOf(old(leases), now)))
    {
      ghost var m := State();
      LadderParts(leases, ExpiredOf(leases, now));
      KeyedHolds(m);
      hide MgrInv, Ladder;
      var ls := LeasesLocked();
      var gone := FindExpired(ls, now);
      ExpiredLadder(leases, now);
      reclaimed, dropped := ReleaseAll(gone);
    }

    method FindExpired(ls: seq<Lease>, now: int) returns (gone: seq<Lease>)
      ensures gone == OnlyExpired(ls, now)
    {
      gone := [];
      var i := 0;
      while i < |ls|
        invariant 0 <= i <= |ls| && gone == OnlyExpired(ls[..i], now)
      {
        assert ls[..i + 1][..i] == ls[..i];
        if Expired(ls[i], now) {
          gone := gone + [ls[i]];
        }
        i := i + 1;
      }
      assert ls[..i] == ls;
    }

    method Expire(now: int, how: Saving) returns (o: Outcome)
      requires Valid()
      modifies this, journal
      ensures Valid() && (State(), o) == LeaseManager.Expire(old(State()), now)
      ensures journal.file ==
        if o.dropped == [] then old(journal.file) else FileAfter(old(journal.file), Ladder(leases), how)
    {
      var reclaimed, dropped := ExpireLocked(now);
      KeyedHolds(State());
      hide MgrInv, Ladder, FileAfter;
      if |dropped| > 0 {
        var ok := Persist(how);
      }
      o := Outcome(reclaimed, 0, false, dropped);
    }

    /** Reclaim: expired leases first, then up the ladder until enough is back,
        passing over every guarantee. */
    method Reclaim(need: int, now: int, how: Saving) returns (o: Outcome)
      requires Valid()
      modifies this, journal
      ensures Valid() && (State(), o) == LeaseManager.Reclaim(old(State()), need, now)
      ensures journal.file ==
        if o.dropped == [] then old(journal.file) else FileAfter(old(journal.file), Ladder(leases), how)
    {
      hide MgrInv, Ladder, FileAfter, Prune, LeaseManager.Reclaim, Dropped, Total, Ids;
      ghost var m := State();
      ReclaimIs(m, need, now);
      if need <= 0 {
        return Outcome(0, 0, false, []);
      }
      o := Take(need, now);
      if |o.dropped| > 0 {
        reclaims := reclaims + [now];
        PruneHistory(now);
        var ok := Persist(how);
      }
    }

    /** Everything of Reclaim but its memory. */
    method Take(need: int, now: int) returns (o: Outcome)
      requires Valid() && need > 0
      modifies this`acct, this`leases
      ensures Valid() && o == LeaseManager.Reclaim(old(State()), need, now).1
      ensures State() == LeaseManager.Reclaim(old(State()), need, now).0.(reclaims := old(reclaims))
    {
      hide MgrInv, Ladder, FileAfter, Prune, LeaseManager.Reclaim, Dropped, Total, Ids, Taken, AnyElastic, DistinctIds,
        LiveOf, ExpiredOf;
      ghost var m := State();
      ReclaimIs(m, need, now);
      ExpireIs(m, need, now);
      var reclaimed, dropped := ExpireLocked(now);
      var ls := LeasesLocked();
      var early, bounded := Climb(ls, need - reclaimed);
      assert early == TakenEarly(m, need, now);
      var more, ids := ReleaseAll(early);
      reclaimed, dropped := reclaimed + more, dropped + ids;
      o := Outcome(reclaimed, if reclaimed < need then need - reclaimed else 0, bounded, dropped);
    }

    /** The ladder loop's choice. */
    method Climb(ls: seq<Lease>, need: int) returns (early: seq<Lease>, bounded: bool)
      ensures early == Taken(ls, need) && bounded == AnyElastic(early)
    {
      early, bounded := [], false;
      var left := need;
      var i := 0;
      assert ls[0..] == ls && [] + Taken(ls, need) == Taken(ls, need);
      hide Taken, AnyElastic;
      NoneElastic();
      while i < |ls| && left > 0
        invariant 0 <= i <= |ls| && early + Taken(ls[i..], left) == Taken(ls, need)
        invariant bounded == AnyElastic(early)
      {
        TakenSteps(ls, i, left, early);
        OneMoreElastic(early, ls[i]);
        if ls[i].cls != GUARANTEED {
          early, left := early + [ls[i]], left - ls[i].size;
          if ls[i].cls == ELASTIC {
            bounded := true;
          }
        }
        i := i + 1;
      }
      TakenEnds(ls, i, left);
      assert early + [] == early;
    }

    /** The loop of Restore: lend again what still runs and fits. */
    method RelendAll(ls: seq<Lease>, now: int) returns (lost: nat)
      modifies this`acct, this`leases
      ensures (acct, leases) == Relend(old(acct), old(leases), ls, now) && lost == Lost(old(acct), ls, now)
    {
      hide Lend;
      ghost var a, m := acct, leases;
      var i := 0;
      lost := 0;
      assert ls[0..] == ls;
      while i < |ls|
        invariant 0 <= i <= |ls| && lost + Lost(acct, ls[i..], now) == Lost(a, ls, now)
        invariant Relend(acct, leases, ls[i..], now) == Relend(a, m, ls, now)
      {
        assert ls[i..][1..] == ls[i + 1..];
        if Expired(ls[i], now) || Lend(acct, ls[i].size).None? {
          lost := lost + 1;
        } else {
          acct := Lend(acct, ls[i].size).value;
          leases := leases[ls[i].id := ls[i]];
        }
        i := i + 1;
      }
      assert ls[i..] == [];
    }

    /** Restore, over whatever the journal holds. An unreadable journal leaves the
        node empty and is overwritten. */
    method Restore(now: int, readable: bool, how: Saving)
      requires Balanced(acct.(borrowed := 0))
      modifies this, journal
      ensures var r := LeaseManager.Restore(cfg, old(acct), old(journal.file), now, readable, how);
        State() == r.(reclaims := old(reclaims), restored := old(restored) || r.restored)
      ensures journal.file == if RestoreSaves(old(acct), old(journal.file), now, readable)
        then FileAfter(old(journal.file), Ladder(leases), how) else old(journal.file)
    {
      RestoreKeepsBalance(cfg, acct, journal.file, now, readable, how);
      hide LeaseManager.Load, Lend, Ladder, FileAfter, Sum, Wrap64, Balanced, Relend, Lost;
      var loaded: Option<seq<Lease>> := None;
      if readable {
        loaded := journal.Load();
      }
      leases := map[];
      acct := acct.(borrowed := 0);
      if loaded.None? {
        var ok := Persist(how);
        if ok {
          restored := true;
        }
        return;
      }
      var lost := RelendAll(loaded.value, now);
      if lost > 0 {
        var ok := Persist(how);
        if !ok {
          return;
        }
      }
      restored := true;
    }
  }

  /** The first i of a list of leases released. */
  ghost predicate Released(m: Mgr, ls: seq<Lease>, i: nat, u: Mgr, reclaimed: int, dropped: seq<string>)
    requires i <= |ls|
  {
    u == Dropped(m, ls[..i]) && reclaimed == Total(ls[..i]) && dropped == Ids(ls[..i])
  }

  lemma NoneReleased(m: Mgr, ls: seq<Lease>)
    ensures Released(m, ls, 0, m, 0, [])
  {
    assert ls[..0] == [] && m.leases - IdSet([]) == m.leases;
  }

  lemma OneReleased(m: Mgr, ls: seq<Lease>, i: nat, u: Mgr, reclaimed: int, dropped: seq<string>)
    requires i < |ls| && Released(m, ls, i, u, reclaimed, dropped)
    requires DistinctIds(ls) && forall l :: l in ls ==> l.id in m.leases && m.leases[l.id] == l
    ensures ls[i].id in u.leases && u.leases[ls[i].id] == ls[i]
    ensures Released(m, ls, i + 1, Dropped(u, [ls[i]]), reclaimed + ls[i].size, dropped + [ls[i].id])
  {
    hide DistinctIds, IdSet, Total, Ids, Dropped;
    var front := ls[..i];
    LaterIsStillHeld(m.leases, ls, i);
    DroppedLeases(m, front);
    assert ls[..i + 1] == front + [ls[i]];
    TotalAppend(front, ls[i]);
    DroppedOneMore(m, front, ls[i]);
  }

  lemma DroppedLeases(m: Mgr, ls: seq<Lease>)
    ensures Dropped(m, ls).leases == m.leases - IdSet(ls)
  {
  }

  lemma AllReleased(m: Mgr, ls: seq<Lease>, u: Mgr, reclaimed: int, dropped: seq<string>)
    requires Released(m, ls, |ls|, u, reclaimed, dropped)
    ensures u == Dropped(m, ls) && reclaimed == Total(ls) && dropped == Ids(ls)
  {
    assert ls[..|ls|] == ls;
  }

  lemma BooksOfValid(m: Mgr)
    requires MgrInv(m)
    ensures Books(m)
  {
  }

  lemma TakenSteps(ls: seq<Lease>, i: nat, left: int, early: seq<Lease>)
    requires i < |ls| && left > 0
    ensures early + Taken(ls[i..], left) ==
      if ls[i].cls == GUARANTEED then early + Taken(ls[i + 1..], left)
      else (early + [ls[i]]) + Taken(ls[i + 1..], left - ls[i].size)
  {
    assert ls[i..][1..] == ls[i + 1..] && ls[i..][0] == ls[i];
    hide Taken;
    assert early + ([ls[i]] + Taken(ls[i + 1..], left - ls[i].size)) ==
      (early + [ls[i]]) + Taken(ls[i + 1..], left - ls[i].size);
  }

  lemma TakenEnds(ls: seq<Lease>, i: nat, left: int)
    requires i <= |ls| && !(i < |ls| && left > 0)
    ensures Taken(ls[i..], left) == []
  {
  }

  lemma NoneElastic()
    ensures !AnyElastic([])
  {
  }

  lemma OneMoreElastic(ls: seq<Lease>, l: Lease)
    ensures AnyElastic(ls + [l]) <==> AnyElastic(ls) || l.cls == ELASTIC
  {
    if AnyElastic(ls) {
      var x :| x in ls && x.cls == ELASTIC;
      assert x in ls + [l];
    }
    if l.cls == ELASTIC {
      assert (ls + [l])[|ls|] == l;
    }
  }

  lemma EmptyWithinCaps(cfg: Config)
    requires cfg.limit >= 0
    ensures WithinCaps(cfg, map[])
  {
    assert GuaranteedOf(map[]) == map[];
    forall t ensures OfTenant(map[], t) == map[] && GuaranteedOf(OfTenant(map[], t)) == map[] {
      assert OfTenant(map[], t) == map[];
    }
  }

  lemma PrunedIsValid(m: Mgr, now: int, p: Mgr)
    requires MgrInv(m) && p == m.(reclaims := Prune(m.cfg.policy, m.reclaims, now))
    ensures p == Pruned(m, now) && MgrInv(p) && Keyed(p.leases) && Sum(p.leases) <= MAX_INT64
  {
  }

  /** Accept by its cases. */
  lemma AcceptIs(m: Mgr, l: Lease, now: int, how: Saving)
    ensures var (u, no) := LeaseManager.Accept(m, l, now, how);
      var p := Pruned(m, now);
      var r := Refused(p, l, now);
      && no == (if r.Some? then r else if how == Saved then None else Some(NotSaved))
      && u == (if no.None? then Granted(p, l, now) else p)
      && r != Some(NotSaved) && Granted(p, l, now).leases == Granted(m, l, now).leases
  {
    hide Churning, InCooldown, Wrap64, Lend, Sum, Prune;
  }

  /** A grant that nothing refuses can be lent, and taken back. */
  lemma GrantFits(m: Mgr, l: Lease, now: int)
    requires MgrInv(m) && Refused(m, l, now).None?
    ensures var u := Granted(m, l, now);
      && Lend(m.acct, l.size) == Some(u.acct) && Return(u.acct, l.size) == Some(m.acct)
      && l.id !in m.leases && MgrInv(u) && Keyed(u.leases)
  {
    LendKeepsBalance(m.acct, l.size);
    AcceptedStaysWithinCaps(m, l, now);
    SumAdd(m.leases, l.(grantedAt := now));
    hide WithinCaps, Churning, InCooldown, QuotaRefusal, Wrap64;
  }

  /** Reclaim by its parts. */
  lemma ReclaimIs(m: Mgr, need: int, now: int)
    requires MgrInv(m)
    ensures var (u, o) := LeaseManager.Reclaim(m, need, now);
      var expired, early := Ladder(ExpiredOf(m.leases, now)), TakenEarly(m, need, now);
      var got := Total(expired) + Total(early);
      && MgrInv(u) && Keyed(u.leases)
      && (need <= 0 ==> u == m && o == Outcome(0, 0, false, []))
      && (need > 0 ==>
        && o == Outcome(got, if got < need then need - got else 0, AnyElastic(early), Ids(expired) + Ids(early))
        && u.(reclaims := m.reclaims) == Dropped(Dropped(m, expired), early)
        && u.reclaims == if o.dropped == [] then m.reclaims else Prune(m.cfg.policy, m.reclaims + [now], now))
  {
    ReclaimKeepsInv(m, need, now);
    hide Ladder, Taken, Total, Ids, AnyElastic, Prune, WithinCaps;
  }

  lemma ExpireIs(m: Mgr, need: int, now: int)
    requires MgrInv(m)
    ensures var (u, _) := LeaseManager.Expire(m, now);
      && u == Dropped(m, Ladder(ExpiredOf(m.leases, now))) && u.leases == LiveOf(m.leases, now) && Keyed(u.leases)
    ensures var early := TakenEarly(m, need, now);
      DistinctIds(early) && forall l :: l in early ==> l.id in LiveOf(m.leases, now) && LiveOf(m.leases, now)[l.id] == l
  {
    ExpireKeepsInv(m, now);
    KeyedHolds(m);
    KeyedHolds(LeaseManager.Expire(m, now).0);
    hide MgrInv, Ladder, TakenEarly;
    EarlyIsLive(m, need, now);
  }

  lemma NothingHeld(m: LeaseMap, tenant: string)
    ensures m - m.Keys == map[]
    ensures Sum(OfTenant(m - m.Keys, tenant)) == 0 && Sum(GuaranteedOf(OfTenant(m - m.Keys, tenant))) == 0
  {
    assert m - m.Keys == map[];
    assert OfTenant(map[], tenant) == map[] && GuaranteedOf(map[]) == map[];
  }

  lemma OneMoreHeld(m: LeaseMap, left: set<string>, id: string, tenant: string)
    requires Keyed(m) && Sum(m) <= MAX_INT64 && id in left && left <= m.Keys
    ensures var held, now := OfTenant(m - left, tenant), OfTenant(m - (left - {id}), tenant);
      && 0 <= Sum(now) == Sum(held) + (if m[id].tenant == tenant then m[id].size else 0) <= MAX_INT64
      && 0 <= Sum(GuaranteedOf(now)) <= MAX_INT64
      && Sum(GuaranteedOf(now)) ==
           Sum(GuaranteedOf(held)) + (if m[id].tenant == tenant && m[id].cls == GUARANTEED then m[id].size else 0)
  {
    hide Wrap64, OfTenant, GuaranteedOf, Sum;
    var done := m - left;
    assert m - (left - {id}) == done[id := m[id]];
    SumPart(m, done[id := m[id]]);
    SumAdd(done, m[id]);
    TenantGrows(done, m[id], tenant);
    TenantHoldsAPart(done[id := m[id]], tenant);
  }

  lemma TenantHoldsAPart(m: LeaseMap, tenant: string)
    requires Keyed(m)
    ensures 0 <= Sum(OfTenant(m, tenant)) <= Sum(m) && 0 <= Sum(GuaranteedOf(OfTenant(m, tenant))) <= Sum(m)
  {
    SumPart(m, OfTenant(m, tenant));
    SumPart(m, GuaranteedOf(OfTenant(m, tenant)));
  }

  /** A lease further down a list of distinct leases outlives the earlier ones. */
  lemma {:induction false} LaterIsStillHeld(m: LeaseMap, ls: seq<Lease>, i: nat)
    requires i < |ls| && DistinctIds(ls) && forall l :: l in ls ==> l.id in m && m[l.id] == l
    ensures ls[i].id in m - IdSet(ls[..i]) && m[ls[i].id] == ls[i]
  {
    assert ls[i] in ls;
    EarlierAreDifferent(ls, i);
  }

  lemma {:induction false} EarlierAreDifferent(ls: seq<Lease>, i: nat)
    requires i < |ls| && DistinctIds(ls)
    ensures ls[i].id !in IdSet(ls[..i])
  {
    if i > 0 {
      EarlierAreDifferent(ls[1..], i - 1);
      assert ls[1..][..i - 1] == ls[..i][1..];
      IdSetSplits(ls[..i]);
      assert ls[1..][i - 1] == ls[i];
    }
  }

  lemma DroppedOneMore(m: Mgr, ls: seq<Lease>, l: Lease)
    ensures Dropped(Dropped(m, ls), [l]) == Dropped(m, ls + [l])
  {
    TotalAppend(ls, l);
    assert IdSet(ls + [l]) == IdSet(ls) + {l.id} && IdSet([l]) == {l.id};
    assert Total([l]) == l.size;
    assert m.leases - IdSet(ls) - {l.id} == m.leases - IdSet(ls + [l]);
  }

  function OnlyExpired(ls: seq<Lease>, now: int): seq<Lease> {
    if ls == [] then []
    else OnlyExpired(ls[..|ls| - 1], now) + (if Expired(ls[|ls| - 1], now) then [ls[|ls| - 1]] else [])
  }

  lemma {:induction false} OnlyExpiredKeeps(ls: seq<Lease>, now: int)
    requires Sorted(ls)
    ensures Sorted(OnlyExpired(ls, now)) && forall l :: l in OnlyExpired(ls, now) <==> l in ls && Expired(l, now)
  {
    if ls != [] {
      var front, last := ls[..|ls| - 1], ls[|ls| - 1];
      assert ls == front + [last];
      OnlyExpiredKeeps(front, now);
      var r := OnlyExpired(front, now);
      forall j | 0 <= j < |r| ensures Before(r[j], last) {
        assert r[j] in front;
        var i :| 0 <= i < |front| && front[i] == r[j];
        assert Before(ls[i], ls[|ls| - 1]);
      }
    }
  }

  /** The expired leases of the ladder are the ladder of the expired leases. */
  lemma ExpiredLadder(m: LeaseMap, now: int)
    requires Keyed(m)
    ensures OnlyExpired(Ladder(m), now) == Ladder(ExpiredOf(m, now))
  {
    LadderIs(m);
    LadderParts(m, ExpiredOf(m, now));
    OnlyExpiredKeeps(Ladder(m), now);
    LadderIsUnique(OnlyExpired(Ladder(m), now), Ladder(ExpiredOf(m, now)));
  }
}
