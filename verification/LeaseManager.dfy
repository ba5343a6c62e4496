/** The lease manager as a value: what each of its operations makes of the leases,
    the accounting, the reclaim history and the journal file. */
module LeaseManager {
  import opened Common
  import opened Leases
  import opened ReclaimHistory

  /** What one tenant may hold; zero is unbounded. */
  datatype Quota = Quota(borrowed: int, guaranteed: int)

  /** `limit` is the guaranteed share of the device in bytes. */
  datatype Config = Config(policy: Policy, reclaimWithin: int, limit: int, quota: Quota)

  datatype Mgr = Mgr(cfg: Config, acct: Accounting, leases: LeaseMap, reclaims: seq<int>, restored: bool)

  datatype Refusal =
    | NotRestored | BadClass | BadTerm | Duplicate | Churns | Cools | NoDeadline
    | NoTenant | TenantQuota | GuaranteeCap | DoesNotFit | NotSaved

  datatype Outcome = Outcome(reclaimed: int, shortfall: int, bounded: bool, dropped: seq<string>)

  // ---- The journal ----

  /** A lease on disk, its class spelled out. */
  datatype Record = Record(id: string, tenant: string, cls: string, size: int, grantedAt: int, term: int)

  datatype File = Missing | Garbled | Document(format: int, records: seq<Record>)

  const JOURNAL_FORMAT := 1

  /** A save that fails may have failed before or after its rename. */
  datatype Saving = Saved | FailedOld | FailedNew

  function ClassName(c: int): string {
    if c == OPPORTUNISTIC then "opportunistic"
    else if c == ELASTIC then "elastic"
    else if c == GUARANTEED then "guaranteed"
    else "class"
  }

  function ParseClass(s: string): Option<int> {
    if s == "opportunistic" then Some(OPPORTUNISTIC)
    else if s == "elastic" then Some(ELASTIC)
    else if s == "guaranteed" then Some(GUARANTEED)
    else None
  }

  function ToRecord(l: Lease): Record {
    Record(l.id, l.tenant, ClassName(l.cls), l.size, l.grantedAt, l.term)
  }

  function ToRecords(ls: seq<Lease>): seq<Record> {
    if ls == [] then [] else [ToRecord(ls[0])] + ToRecords(ls[1..])
  }

  function FileAfter(f: File, ls: seq<Lease>, save: Saving): File {
    if save == FailedOld then f else Document(JOURNAL_FORMAT, ToRecords(ls))
  }

  /** Load past the leases already read; None is a corrupt journal. */
  function ReadRecords(rs: seq<Record>, seen: set<string>): Option<seq<Lease>> {
    if rs == [] then Some([])
    else
      var r := rs[0];
      var c := ParseClass(r.cls);
      if r.id in seen || c.None? then None
      else
        var rest := ReadRecords(rs[1..], seen + {r.id});
        if rest.None? then None
        else Some([Lease(r.id, r.tenant, c.value, r.size, r.grantedAt, r.term)] + rest.value)
  }

  function Load(f: File): Option<seq<Lease>> {
    match f
    case Missing => Some([])
    case Garbled => None
    case Document(format, records) => if format != JOURNAL_FORMAT then None else ReadRecords(records, {})
  }

  lemma ParseInvertsName(c: int)
    requires ValidClass(c)
    ensures ParseClass(ClassName(c)) == Some(c)
  {
  }

  predicate DistinctIds(ls: seq<Lease>) {
    ls == [] || ((forall l :: l in ls[1..] ==> l.id != ls[0].id) && DistinctIds(ls[1..]))
  }

  lemma {:induction false} ReadInvertsRecords(ls: seq<Lease>, seen: set<string>)
    requires DistinctIds(ls) && forall l :: l in ls ==> ValidClass(l.cls) && l.id !in seen
    ensures ReadRecords(ToRecords(ls), seen) == Some(ls)
  {
    hide ParseClass, ClassName;
    if ls != [] {
      assert ls[0] in ls;
      ParseInvertsName(ls[0].cls);
      ReadInvertsRecords(ls[1..], seen + {ls[0].id});
      var rs := ToRecords(ls);
      assert rs[0] == ToRecord(ls[0]) && rs[1..] == ToRecords(ls[1..]);
      assert ls == [ls[0]] + ls[1..];
    }
  }

  /** What a save that renamed its file wrote is what the next load reads. */
  lemma LoadInvertsSave(m: LeaseMap, f: File, save: Saving)
    requires Keyed(m) && save != FailedOld
    ensures Load(FileAfter(f, Ladder(m), save)) == Some(Ladder(m))
  {
    LadderIs(m);
    LadderHasDistinctIds(Ladder(m), m);
    ReadInvertsRecords(Ladder(m), {});
  }

  lemma {:induction false} LadderHasDistinctIds(ls: seq<Lease>, m: LeaseMap)
    requires Sorted(ls) && Keyed(m) && forall l :: l in ls ==> l.id in m && m[l.id] == l
    ensures DistinctIds(ls)
    ensures forall l :: l in ls ==> ValidClass(l.cls) && l.size >= 0
  {
    if ls != [] {
      assert ls[0] in ls;
      SortedHeadIsOnce(ls);
      LadderHasDistinctIds(ls[1..], m);
    }
  }

  // ---- Accept ----

  ghost function QuotaRefusal(m: Mgr, l: Lease): Option<Refusal> {
    var q := m.cfg.quota;
    if !(q.borrowed > 0 || q.guaranteed > 0) || l.tenant == NODE_TENANT then None
    else if l.tenant == "" then Some(NoTenant)
    else
      var held := OfTenant(m.leases, l.tenant);
      if q.borrowed > 0 && Wrap64(Sum(held) + l.size) > q.borrowed then Some(TenantQuota)
      else if l.cls == GUARANTEED && q.guaranteed > 0 && Wrap64(Sum(GuaranteedOf(held)) + l.size) > q.guaranteed then
        Some(TenantQuota)
      else None
  }

  /** Why Accept refuses, its history already pruned. */
  ghost function Refused(m: Mgr, l: Lease, now: int): Option<Refusal> {
    if !m.restored then Some(NotRestored)
    else if !ValidClass(l.cls) then Some(BadClass)
    else if l.term <= 0 then Some(BadTerm)
    else if l.id in m.leases then Some(Duplicate)
    else if Churning(m.cfg.policy, m.reclaims, now) then Some(Churns)
    else if InCooldown(m.cfg.policy, m.reclaims, now) then Some(Cools)
    else if l.cls == ELASTIC && m.cfg.reclaimWithin <= 0 then Some(NoDeadline)
    else if QuotaRefusal(m, l).Some? then QuotaRefusal(m, l)
    else if l.cls == GUARANTEED && Wrap64(Sum(GuaranteedOf(m.leases)) + l.size) > m.cfg.limit then Some(GuaranteeCap)
    else if Lend(m.acct, l.size).None? then Some(DoesNotFit)
    else None
  }

  function Pruned(m: Mgr, now: int): Mgr {
    m.(reclaims := Prune(m.cfg.policy, m.reclaims, now))
  }

  /** The manager with one more lease. */
  function Granted(m: Mgr, l: Lease, now: int): Mgr {
    m.(acct := m.acct.(borrowed := m.acct.borrowed + l.size), leases := m.leases[l.id := l.(grantedAt := now)])
  }

  /** Accept, its refusal, and the leases it journals if it gets that far. */
  ghost function Accept(m: Mgr, l: Lease, now: int, save: Saving): (Mgr, Option<Refusal>) {
    var p := Pruned(m, now);
    var no := Refused(p, l, now);
    if no.Some? then (p, no)
    else if save == Saved then (Granted(p, l, now), None)
    else (p, Some(NotSaved))
  }

  // ---- Dropping leases ----

  function IdSet(ls: seq<Lease>): set<string> {
    set l | l in ls :: l.id
  }

  function Dropped(m: Mgr, ls: seq<Lease>): Mgr {
    m.(acct := m.acct.(borrowed := m.acct.borrowed - Total(ls)), leases := m.leases - IdSet(ls))
  }

  ghost function Release(m: Mgr, id: string): Mgr {
    if id in m.leases then Dropped(m, [m.leases[id]]) else m
  }

  ghost function ExpiredOf(m: LeaseMap, now: int): LeaseMap {
    map id | id in m && Expired(m[id], now) :: m[id]
  }

  ghost function LiveOf(m: LeaseMap, now: int): LeaseMap {
    map id | id in m && !Expired(m[id], now) :: m[id]
  }

  ghost function Expire(m: Mgr, now: int): (Mgr, Outcome)
  {
    var ls := Ladder(ExpiredOf(m.leases, now));
    (Dropped(m, ls), Outcome(Total(ls), 0, false, Ids(ls)))
  }

  /** The ladder loop of Reclaim: release from the front, passing over guarantees,
      until enough has been handed back. */
  function Taken(ls: seq<Lease>, need: int): seq<Lease> {
    if need <= 0 || ls == [] then []
    else if ls[0].cls == GUARANTEED then Taken(ls[1..], need)
    else [ls[0]] + Taken(ls[1..], need - ls[0].size)
  }

  predicate AnyElastic(ls: seq<Lease>) {
    exists l :: l in ls && l.cls == ELASTIC
  }

  /** The leases a reclaim takes before their term. */
  ghost function TakenEarly(m: Mgr, need: int, now: int): seq<Lease>
  {
    Taken(Ladder(LiveOf(m.leases, now)), need - Total(Ladder(ExpiredOf(m.leases, now))))
  }

  ghost function Reclaim(m: Mgr, need: int, now: int): (Mgr, Outcome)
  {
    if need <= 0 then (m, Outcome(0, 0, false, []))
    else
      var expired, early := Ladder(ExpiredOf(m.leases, now)), TakenEarly(m, need, now);
      var got := Total(expired) + Total(early);
      var u := Dropped(Dropped(m, expired), early);
      var dropped := Ids(expired) + Ids(early);
      (if dropped == [] then u else u.(reclaims := Prune(m.cfg.policy, m.reclaims + [now], now)),
       Outcome(got, if got < need then need - got else 0, AnyElastic(early), dropped))
  }

  // ---- Restore ----

  /** Re-lend what a journal recorded, dropping what expired or no longer fits. */
  function Relend(acct: Accounting, leases: LeaseMap, ls: seq<Lease>, now: int): (Accounting, LeaseMap)
    decreases ls
  {
    if ls == [] then (acct, leases)
    else if Expired(ls[0], now) || Lend(acct, ls[0].size).None? then Relend(acct, leases, ls[1..], now)
    else Relend(Lend(acct, ls[0].size).value, leases[ls[0].id := ls[0]], ls[1..], now)
  }

  /** How many of them that drops. */
  function Lost(acct: Accounting, ls: seq<Lease>, now: int): nat
    decreases ls
  {
    if ls == [] then 0
    else if Expired(ls[0], now) || Lend(acct, ls[0].size).None? then 1 + Lost(acct, ls[1..], now)
    else Lost(Lend(acct, ls[0].size).value, ls[1..], now)
  }

  /** A new manager over an old journal. A journal that cannot be read or parsed
      starts the node empty, and that too is saved. */
  ghost function Restore(cfg: Config, acct: Accounting, f: File, now: int, readable: bool, save: Saving): (m: Mgr)
    ensures m.cfg == cfg
  {
    var empty := acct.(borrowed := 0);
    var loaded := if readable then Load(f) else None;
    if loaded.None? then Mgr(cfg, empty, map[], [], save == Saved)
    else
      var (a, ls) := Relend(empty, map[], loaded.value, now);
      Mgr(cfg, a, ls, [], Lost(empty, loaded.value, now) == 0 || save == Saved)
  }

  /** Whether Restore writes the journal back. */
  ghost predicate RestoreSaves(acct: Accounting, f: File, now: int, readable: bool) {
    var loaded := if readable then Load(f) else None;
    loaded.None? || Lost(acct.(borrowed := 0), loaded.value, now) > 0
  }

  // ---- What every state keeps ----

  ghost predicate WithinCaps(cfg: Config, m: LeaseMap) {
    && Sum(GuaranteedOf(m)) <= cfg.limit
    && forall t :: t != "" && t != NODE_TENANT ==>
      && (cfg.quota.borrowed > 0 ==> Sum(OfTenant(m, t)) <= cfg.quota.borrowed)
      && (cfg.quota.guaranteed > 0 ==> Sum(GuaranteedOf(OfTenant(m, t))) <= cfg.quota.guaranteed)
  }

  /** Borrowed is the sum of the leases held, and fits the device. */
  ghost predicate Books(m: Mgr) {
    Balanced(m.acct) && Keyed(m.leases) && m.acct.borrowed == Sum(m.leases)
  }

  ghost predicate MgrInv(m: Mgr) {
    Books(m) && WithinCaps(m.cfg, m.leases)
  }

  /** Any part of a set of leases within its caps is within them. */
  lemma PartsStayWithinCaps(cfg: Config, m: LeaseMap, part: LeaseMap)
    requires Keyed(m) && WithinCaps(cfg, m) && forall id :: id in part ==> id in m && m[id] == part[id]
    ensures WithinCaps(cfg, part)
  {
    SumPart(GuaranteedOf(m), GuaranteedOf(part));
    forall t | t != "" && t != NODE_TENANT
      ensures cfg.quota.borrowed > 0 ==> Sum(OfTenant(part, t)) <= cfg.quota.borrowed
      ensures cfg.quota.guaranteed > 0 ==> Sum(GuaranteedOf(OfTenant(part, t))) <= cfg.quota.guaranteed
    {
      SumPart(OfTenant(m, t), OfTenant(part, t));
      SumPart(GuaranteedOf(OfTenant(m, t)), GuaranteedOf(OfTenant(part, t)));
    }
  }

  /** The quota and cap checks may wrap, but never for a grant that also fits. */
  lemma AcceptedStaysWithinCaps(m: Mgr, l: Lease, now: int)
    requires MgrInv(m) && Refused(m, l, now).None?
    ensures WithinCaps(m.cfg, Granted(m, l, now).leases)
  {
    LendKeepsBalance(m.acct, l.size);
    hide Churning, InCooldown, QuotaRefusal;
    var g := l.(grantedAt := now);
    var after := m.leases[l.id := g];
    CapGrows(m.leases, g, GuaranteedOf(m.leases), GuaranteedOf(after), l.cls == GUARANTEED);
    forall t | t != "" && t != NODE_TENANT
      ensures m.cfg.quota.borrowed > 0 ==> Sum(OfTenant(after, t)) <= m.cfg.quota.borrowed
      ensures m.cfg.quota.guaranteed > 0 ==> Sum(GuaranteedOf(OfTenant(after, t))) <= m.cfg.quota.guaranteed
    {
      TenantStaysWithinQuota(m, l, g, t);
    }
  }

  lemma CapsOf(cfg: Config, m: LeaseMap, t: string)
    requires WithinCaps(cfg, m) && t != "" && t != NODE_TENANT
    ensures cfg.quota.borrowed > 0 ==> Sum(OfTenant(m, t)) <= cfg.quota.borrowed
    ensures cfg.quota.guaranteed > 0 ==> Sum(GuaranteedOf(OfTenant(m, t))) <= cfg.quota.guaranteed
  {
  }

  /** What passing the quota check means for the tenant asking. */
  lemma QuotaPassed(m: Mgr, l: Lease)
    requires QuotaRefusal(m, l).None? && l.tenant != "" && l.tenant != NODE_TENANT
    ensures var held := OfTenant(m.leases, l.tenant);
      && (m.cfg.quota.borrowed > 0 ==> Wrap64(Sum(held) + l.size) <= m.cfg.quota.borrowed)
      && (l.cls == GUARANTEED && m.cfg.quota.guaranteed > 0 ==>
        Wrap64(Sum(GuaranteedOf(held)) + l.size) <= m.cfg.quota.guaranteed)
  {
  }

  lemma TenantStaysWithinQuota(m: Mgr, l: Lease, g: Lease, t: string)
    requires MgrInv(m) && QuotaRefusal(m, l).None? && t != "" && t != NODE_TENANT
    requires g == l.(grantedAt := g.grantedAt) && l.id !in m.leases && 0 <= l.size
    requires Sum(m.leases) + l.size <= MAX_INT64
    ensures var after := m.leases[l.id := g];
      && (m.cfg.quota.borrowed > 0 ==> Sum(OfTenant(after, t)) <= m.cfg.quota.borrowed)
      && (m.cfg.quota.guaranteed > 0 ==> Sum(GuaranteedOf(OfTenant(after, t))) <= m.cfg.quota.guaranteed)
  {
    hide WithinCaps, QuotaRefusal, Wrap64;
    var after := m.leases[l.id := g];
    TenantGrows(m.leases, g, t);
    CapsOf(m.cfg, m.leases, t);
    if l.tenant == t {
      QuotaPassed(m, l);
    }
  }

  /** What a new lease adds to what one tenant holds, of any class and guaranteed. */
  lemma TenantGrows(m: LeaseMap, g: Lease, t: string)
    requires Keyed(m) && g.id !in m && g.size >= 0
    ensures var held, now := OfTenant(m, t), OfTenant(m[g.id := g], t);
      && 0 <= Sum(held) <= Sum(m) && Sum(now) == Sum(held) + (if g.tenant == t then g.size else 0)
      && 0 <= Sum(GuaranteedOf(held)) <= Sum(m)
      && Sum(GuaranteedOf(now)) ==
        Sum(GuaranteedOf(held)) + (if g.tenant == t && g.cls == GUARANTEED then g.size else 0)
  {
    var held, now := OfTenant(m, t), OfTenant(m[g.id := g], t);
    assert now == if g.tenant == t then held[g.id := g] else held;
    CapGrows(m, g, held, now, g.tenant == t);
    GuaranteedGrows(held, now, g, g.tenant == t);
    CapGrows(m, g, GuaranteedOf(held), GuaranteedOf(now), g.tenant == t && g.cls == GUARANTEED);
  }

  lemma GuaranteedGrows(held: LeaseMap, now: LeaseMap, g: Lease, gains: bool)
    requires g.id !in held && now == if gains then held[g.id := g] else held
    ensures GuaranteedOf(now) ==
      if gains && g.cls == GUARANTEED then GuaranteedOf(held)[g.id := g] else GuaranteedOf(held)
  {
  }

  /** A part of the leases gains the new one or stays as it is, and nothing wraps. */
  lemma CapGrows(m: LeaseMap, l: Lease, part: LeaseMap, after: LeaseMap, gains: bool)
    requires Keyed(m) && l.id !in m && l.size >= 0
    requires forall id :: id in part ==> id in m && m[id] == part[id]
    requires after == if gains then part[l.id := l] else part
    ensures 0 <= Sum(part) <= Sum(m) && Sum(after) == Sum(part) + (if gains then l.size else 0)
  {
    SumPart(m, part);
    SumAdd(part, l);
  }

  lemma AcceptKeepsBooks(m: Mgr, l: Lease, now: int, save: Saving)
    requires Books(m)
    ensures Books(Accept(m, l, now, save).0)
  {
    var p := Pruned(m, now);
    if Refused(p, l, now).None? {
      LendKeepsBalance(p.acct, l.size);
      SumAdd(p.leases, l.(grantedAt := now));
    }
    hide Churning, InCooldown, QuotaRefusal, Wrap64, Prune;
  }

  lemma AcceptKeepsInv(m: Mgr, l: Lease, now: int, save: Saving)
    requires MgrInv(m)
    ensures MgrInv(Accept(m, l, now, save).0)
    ensures Accept(m, l, now, save).1.Some? ==>
      Accept(m, l, now, save).0.leases == m.leases && Accept(m, l, now, save).0.acct == m.acct
  {
    var p := Pruned(m, now);
    if Refused(p, l, now).None? {
      AcceptedStaysWithinCaps(p, l, now);
      LendKeepsBalance(p.acct, l.size);
      SumAdd(p.leases, l.(grantedAt := now));
    }
  }

  /** Returning the capacity of leases held never errors. */
  lemma DropKeepsBooks(m: Mgr, ls: seq<Lease>)
    requires Books(m) && DistinctIds(ls) && forall l :: l in ls ==> l.id in m.leases && m.leases[l.id] == l
    ensures Books(Dropped(m, ls)) && 0 <= Total(ls) <= m.acct.borrowed
  {
    SumIsNatural(m.leases - IdSet(ls));
    SumDrop(m.leases, ls);
  }

  lemma DropKeepsInv(m: Mgr, ls: seq<Lease>)
    requires MgrInv(m) && DistinctIds(ls) && forall l :: l in ls ==> l.id in m.leases && m.leases[l.id] == l
    ensures MgrInv(Dropped(m, ls)) && 0 <= Total(ls) <= m.acct.borrowed
  {
    DropKeepsBooks(m, ls);
    PartsStayWithinCaps(m.cfg, m.leases, m.leases - IdSet(ls));
    hide WithinCaps;
  }

  lemma IdSetSplits(ls: seq<Lease>)
    requires ls != []
    ensures IdSet(ls) == {ls[0].id} + IdSet(ls[1..])
  {
    assert ls == [ls[0]] + ls[1..];
  }

  lemma {:induction false} SumDrop(m: LeaseMap, ls: seq<Lease>)
    requires Keyed(m) && DistinctIds(ls) && forall l :: l in ls ==> l.id in m && m[l.id] == l
    ensures Sum(m - IdSet(ls)) == Sum(m) - Total(ls) && Total(ls) >= 0
  {
    if ls == [] {
      assert m - IdSet(ls) == m;
    } else {
      assert ls[0] in ls;
      SumRemove(m, ls[0].id);
      SumDrop(m - {ls[0].id}, ls[1..]);
      IdSetSplits(ls);
      assert m - IdSet(ls) == m - {ls[0].id} - IdSet(ls[1..]);
    }
  }

  // ---- Reclaim ----

  function NonGuaranteed(ls: seq<Lease>): seq<Lease> {
    if ls == [] then []
    else (if ls[0].cls == GUARANTEED then [] else [ls[0]]) + NonGuaranteed(ls[1..])
  }

  lemma {:induction false} NonGuaranteedKeeps(ls: seq<Lease>)
    ensures forall l :: l in NonGuaranteed(ls) <==> l in ls && l.cls != GUARANTEED
    ensures DistinctIds(ls) ==> DistinctIds(NonGuaranteed(ls))
    ensures Sorted(ls) ==> Sorted(NonGuaranteed(ls))
  {
    if ls != [] {
      assert ls == [ls[0]] + ls[1..];
      if Sorted(ls) {
        SortedHeadIsOnce(ls);
      }
      NonGuaranteedKeeps(ls[1..]);
      var rest := NonGuaranteed(ls[1..]);
      if ls[0].cls == GUARANTEED {
        assert NonGuaranteed(ls) == rest;
      } else {
        assert NonGuaranteed(ls)[1..] == rest;
        assert DistinctIds(ls) ==> forall l :: l in rest ==> l.id != ls[0].id;
        if Sorted(ls) {
          forall j | 0 <= j < |rest| ensures Before(ls[0], rest[j]) {
            assert rest[j] in ls[1..];
          }
        }
      }
    }
  }

  /** The first k leases of `free` and no fewer reach need. */
  ghost predicate ShortestPrefix(free: seq<Lease>, need: int, k: nat) {
    && k <= |free|
    && (forall j :: 0 <= j < k ==> Total(free[..j]) < need)
    && (Total(free[..k]) >= need || k == |free|)
  }

  /** The ladder loop takes exactly the shortest prefix, in reclaim order, of the
      leases it may take. */
  lemma {:induction false} TakenIsTheShortestPrefix(ls: seq<Lease>, need: int)
    ensures var free := NonGuaranteed(ls);
      |Taken(ls, need)| <= |free| && Taken(ls, need) == free[..|Taken(ls, need)|]
      && ShortestPrefix(free, need, |Taken(ls, need)|)
  {
    var free, k := NonGuaranteed(ls), |Taken(ls, need)|;
    if need <= 0 || ls == [] {
      assert free[..0] == [];
    } else if ls[0].cls == GUARANTEED {
      TakenIsTheShortestPrefix(ls[1..], need);
    } else {
      TakenIsTheShortestPrefix(ls[1..], need - ls[0].size);
      var rest := NonGuaranteed(ls[1..]);
      assert free == [ls[0]] + rest;
      forall j | 0 < j <= k ensures Total(free[..j]) == ls[0].size + Total(rest[..j - 1]) {
        assert free[..j][1..] == rest[..j - 1];
      }
      assert free[..0] == [];
    }
  }

  /** Leases of a map, in order and apart from one another. */
  lemma LadderParts(m: LeaseMap, part: LeaseMap)
    requires Keyed(m) && forall id :: id in part ==> id in m && m[id] == part[id]
    ensures Keyed(part) && DistinctIds(Ladder(part)) && Sorted(Ladder(part))
    ensures forall l :: l in Ladder(part) <==> l.id in part && part[l.id] == l
  {
    LadderIs(part);
    LadderHasDistinctIds(Ladder(part), part);
  }

  lemma {:induction false} TakenIsDistinct(ls: seq<Lease>, need: int)
    requires DistinctIds(ls)
    ensures DistinctIds(Taken(ls, need)) && forall l :: l in Taken(ls, need) ==> l in ls && l.cls != GUARANTEED
  {
    if !(need <= 0 || ls == []) {
      var left := need - (if ls[0].cls == GUARANTEED then 0 else ls[0].size);
      TakenIsDistinct(ls[1..], left);
      if ls[0].cls != GUARANTEED {
        assert Taken(ls, need)[1..] == Taken(ls[1..], left);
      }
    }
  }

  lemma ExpireKeepsInv(m: Mgr, now: int)
    requires MgrInv(m)
    ensures MgrInv(Expire(m, now).0) && Expire(m, now).0.leases == LiveOf(m.leases, now)
    ensures 0 <= Total(Ladder(ExpiredOf(m.leases, now))) <= m.acct.borrowed
  {
    var ex := ExpiredOf(m.leases, now);
    LadderParts(m.leases, ex);
    DropKeepsInv(m, Ladder(ex));
    assert forall id :: id in IdSet(Ladder(ex)) <==> id in ex by {
      forall id | id in ex ensures id in IdSet(Ladder(ex)) {
        assert ex[id] in Ladder(ex);
      }
    }
  }

  lemma ReclaimKeepsInv(m: Mgr, need: int, now: int)
    requires MgrInv(m)
    ensures MgrInv(Reclaim(m, need, now).0)
    ensures need > 0 ==> Reclaim(m, need, now).0.leases == LiveOf(m.leases, now) - IdSet(TakenEarly(m, need, now))
    ensures 0 <= Reclaim(m, need, now).1.reclaimed == m.acct.borrowed - Reclaim(m, need, now).0.acct.borrowed
  {
    hide Ladder, Taken, Prune, Ids, Total, IdSet, WithinCaps, Sum, Keyed, Balanced, AnyElastic, TakenEarly, LiveOf,
      ExpiredOf, DistinctIds, Expired;
    if need > 0 {
      KeyedHolds(m);
      ExpireKeepsInv(m, now);
      EarlyIsLive(m, need, now);
      DropKeepsInv(Expire(m, now).0, TakenEarly(m, need, now));
    }
  }

  lemma EarlyIsLive(m: Mgr, need: int, now: int)
    requires Keyed(m.leases)
    ensures DistinctIds(TakenEarly(m, need, now))
    ensures forall l :: l in TakenEarly(m, need, now) ==>
      && l.id in LiveOf(m.leases, now) && LiveOf(m.leases, now)[l.id] == l
      && l.id in m.leases && m.leases[l.id] == l && l.cls != GUARANTEED
  {
    LadderParts(m.leases, LiveOf(m.leases, now));
    TakenIsDistinct(Ladder(LiveOf(m.leases, now)), need - Total(Ladder(ExpiredOf(m.leases, now))));
  }

  /** What a reclaim does, said of the leases before and after it. */
  ghost predicate ReclaimContract(m: Mgr, need: int, now: int, u: Mgr, o: Outcome) {
    // only leases go, every expired one does, and no live guarantee
    && (forall id :: id in u.leases ==> id in m.leases && u.leases[id] == m.leases[id])
    && (forall id :: id in m.leases && Expired(m.leases[id], now) ==> id !in u.leases)
    && (forall id :: id in m.leases && !Expired(m.leases[id], now) && m.leases[id].cls == GUARANTEED ==> id in u.leases)
    // the report is the fall in Borrowed
    && o.reclaimed == m.acct.borrowed - u.acct.borrowed
    && o.shortfall == (if o.reclaimed < need then need - o.reclaimed else 0)
    // a deadline is engaged exactly when a live elastic lease went
    && (o.bounded <==>
      exists id :: id in m.leases && !Expired(m.leases[id], now) && m.leases[id].cls == ELASTIC && id !in u.leases)
    // falling short leaves nothing but live guarantees
    && (o.shortfall > 0 ==> forall id :: id in u.leases ==> u.leases[id].cls == GUARANTEED)
  }

  lemma ReclaimMeetsItsContract(m: Mgr, need: int, now: int)
    requires MgrInv(m) && need > 0
    ensures ReclaimContract(m, need, now, Reclaim(m, need, now).0, Reclaim(m, need, now).1)
  {
    hide Ladder, Taken, Prune, Ids, Total, MgrInv, AnyElastic, TakenEarly;
    KeyedHolds(m);
    ReclaimKeepsInv(m, need, now);
    EarlyIsLive(m, need, now);
    ElasticWentIffBounded(m, need, now);
    if Reclaim(m, need, now).1.shortfall > 0 {
      ShortfallTookEverything(m, need, now);
    }
  }

  lemma KeyedHolds(m: Mgr)
    requires MgrInv(m)
    ensures Keyed(m.leases)
  {
  }

  lemma ElasticWentIffBounded(m: Mgr, need: int, now: int)
    requires MgrInv(m) && need > 0
    ensures var u := Reclaim(m, need, now).0;
      AnyElastic(TakenEarly(m, need, now)) <==>
      exists id :: id in m.leases && !Expired(m.leases[id], now) && m.leases[id].cls == ELASTIC && id !in u.leases
  {
    hide Ladder, Taken, Prune, Ids, Total, MgrInv, TakenEarly;
    KeyedHolds(m);
    ReclaimKeepsInv(m, need, now);
    EarlyIsLive(m, need, now);
    var early := TakenEarly(m, need, now);
    if AnyElastic(early) {
      var l :| l in early && l.cls == ELASTIC;
      assert l.id in IdSet(early);
    }
    forall id | id in m.leases && !Expired(m.leases[id], now) && m.leases[id].cls == ELASTIC &&
      id !in Reclaim(m, need, now).0.leases
      ensures AnyElastic(early)
    {
      var l :| l in early && l.id == id;
    }
  }

  lemma ShortfallTookEverything(m: Mgr, need: int, now: int)
    requires MgrInv(m) && need > 0 && Reclaim(m, need, now).1.shortfall > 0
    ensures forall id :: id in Reclaim(m, need, now).0.leases ==> m.leases[id].cls == GUARANTEED
  {
    hide Ladder, Taken, Prune, Ids, Total, MgrInv, AnyElastic;
    KeyedHolds(m);
    ReclaimKeepsInv(m, need, now);
    EverythingFreeWasTaken(m, need, now);
    var early := TakenEarly(m, need, now);
    forall id | id in Reclaim(m, need, now).0.leases ensures m.leases[id].cls == GUARANTEED {
      assert m.leases[id] in early ==> id in IdSet(early);
    }
  }

  lemma EverythingFreeWasTaken(m: Mgr, need: int, now: int)
    requires Keyed(m.leases) && need > 0 && Reclaim(m, need, now).1.shortfall > 0
    ensures forall id :: id in LiveOf(m.leases, now) && m.leases[id].cls != GUARANTEED ==>
      m.leases[id] in TakenEarly(m, need, now)
  {
    hide Ladder, Taken, Prune, Ids, Total, AnyElastic;
    var live := LiveOf(m.leases, now);
    LadderParts(m.leases, live);
    var ls, left := Ladder(live), need - Total(Ladder(ExpiredOf(m.leases, now)));
    TakenIsTheShortestPrefix(ls, left);
    NonGuaranteedKeeps(ls);
    hide NonGuaranteed;
    var free := NonGuaranteed(ls);
    assert free[..|free|] == free == Taken(ls, left);
  }

  /** Reclaim drops all expired leases and then exactly the shortest prefix of the
      live leases it may take, cheapest class first, oldest first, by identifier. */
  lemma ReclaimDropsTheShortestPrefix(m: Mgr, need: int, now: int)
    requires MgrInv(m) && need > 0
    ensures var free := NonGuaranteed(Ladder(LiveOf(m.leases, now)));
      var expired := Ladder(ExpiredOf(m.leases, now));
      && Sorted(free)
      && (forall l :: l in free <==> l.id in m.leases && m.leases[l.id] == l && !Expired(l, now) && l.cls != GUARANTEED)
      && exists k: nat ::
        && ShortestPrefix(free, need - Total(expired), k)
        && Reclaim(m, need, now).1.dropped == Ids(expired) + Ids(free[..k])
  {
    hide Ladder, Taken, Prune, Ids, Total, MgrInv, AnyElastic, ShortestPrefix, DistinctIds;
    KeyedHolds(m);
    var live := LiveOf(m.leases, now);
    LadderParts(m.leases, live);
    NonGuaranteedKeeps(Ladder(live));
    hide NonGuaranteed;
    TakenIsTheShortestPrefix(Ladder(live), need - Total(Ladder(ExpiredOf(m.leases, now))));
  }

  // ---- What may still be promised ----

  ghost function GuaranteedFree(m: Mgr): int {
    var share := m.cfg.limit - Sum(GuaranteedOf(m.leases));
    var free := Free(m.acct);
    var least := if free < share then free else share;
    if least < 0 then 0 else least
  }

  /** A guarantee no larger than GuaranteedFree passes the cap and fits, and a
      larger one does not. */
  lemma GuaranteedFreeIsWhatFits(m: Mgr, n: int)
    requires MgrInv(m) && 0 <= n && m.cfg.limit <= MAX_INT64
    ensures n <= GuaranteedFree(m) <==>
      Wrap64(Sum(GuaranteedOf(m.leases)) + n) <= m.cfg.limit && Lend(m.acct, n).Some?
  {
    SumPart(m.leases, GuaranteedOf(m.leases));
    LendKeepsBalance(m.acct, n);
  }

  // ---- Restore ----

  lemma {:induction false} RelendKeepsBalance(acct: Accounting, leases: LeaseMap, ls: seq<Lease>, now: int)
    requires Balanced(acct) && Keyed(leases) && acct.borrowed == Sum(leases)
    requires DistinctIds(ls) && forall l :: l in ls ==> l.id !in leases && ValidClass(l.cls)
    ensures var (a, kept) := Relend(acct, leases, ls, now);
      && Balanced(a) && Keyed(kept) && a.borrowed == Sum(kept) && a == acct.(borrowed := a.borrowed)
      && (forall id :: id in leases ==> id in kept && kept[id] == leases[id])
      && (forall id :: id in kept && id !in leases ==> kept[id] in ls && !Expired(kept[id], now))
    decreases ls
  {
    hide Wrap64;
    if ls != [] {
      assert ls[0] in ls;
      LendKeepsBalance(acct, ls[0].size);
      if Expired(ls[0], now) || Lend(acct, ls[0].size).None? {
        RelendKeepsBalance(acct, leases, ls[1..], now);
      } else {
        SumAdd(leases, ls[0]);
        var more := leases[ls[0].id := ls[0]];
        assert more.Keys == leases.Keys + {ls[0].id};
        RelendKeepsBalance(Lend(acct, ls[0].size).value, more, ls[1..], now);
      }
    }
  }

  /** When the unexpired leases fit, Restore keeps every one of them. */
  lemma {:induction false} RelendKeepsWhatFits(acct: Accounting, leases: LeaseMap, ls: seq<Lease>, now: int)
    requires Balanced(acct) && DistinctIds(ls) && forall l :: l in ls ==> l.id !in leases && l.size >= 0
    requires acct.reserved + acct.borrowed + Total(ls) <= acct.capacity
    ensures var kept := Relend(acct, leases, ls, now).1;
      && (forall l :: l in ls && !Expired(l, now) ==> l.id in kept && kept[l.id] == l)
      && (forall id :: id in leases ==> id in kept && kept[id] == leases[id])
    decreases ls
  {
    hide Wrap64;
    if ls != [] {
      assert ls[0] in ls;
      TotalIsNatural(ls[1..]);
      LendKeepsBalance(acct, ls[0].size);
      if Expired(ls[0], now) {
        RelendKeepsWhatFits(acct, leases, ls[1..], now);
      } else {
        RelendKeepsWhatFits(Lend(acct, ls[0].size).value, leases[ls[0].id := ls[0]], ls[1..], now);
      }
      assert ls == [ls[0]] + ls[1..];
    }
  }

  lemma {:induction false} TotalIsNatural(ls: seq<Lease>)
    requires forall l :: l in ls ==> l.size >= 0
    ensures Total(ls) >= 0
  {
    if ls != [] {
      assert ls[0] in ls;
      TotalIsNatural(ls[1..]);
    }
  }

  /** Whatever is in a journal, what is read from it has distinct identifiers and
      classes this package knows. */
  lemma {:induction false} ReadIsClean(rs: seq<Record>, seen: set<string>)
    ensures var ls := ReadRecords(rs, seen);
      ls.Some? ==> DistinctIds(ls.value) && forall l :: l in ls.value ==> ValidClass(l.cls) && l.id !in seen
  {
    if rs != [] && ReadRecords(rs, seen).Some? {
      ParseIsValid(rs[0].cls);
      hide ParseClass;
      ReadIsClean(rs[1..], seen + {rs[0].id});
      var ls := ReadRecords(rs, seen).value;
      assert ls[1..] == ReadRecords(rs[1..], seen + {rs[0].id}).value;
    }
  }

  lemma ParseIsValid(s: string)
    ensures ParseClass(s).Some? ==> ValidClass(ParseClass(s).value)
  {
  }

  /** From any journal, readable or not, a restarted manager's Borrowed is the sum
      of the leases it holds and fits the device. */
  lemma RestoreKeepsBalance(cfg: Config, acct: Accounting, f: File, now: int, readable: bool, save: Saving)
    requires Balanced(acct.(borrowed := 0))
    ensures var m := Restore(cfg, acct, f, now, readable, save);
      && Balanced(m.acct) && Keyed(m.leases) && m.acct.borrowed == Sum(m.leases)
      && m.acct == acct.(borrowed := m.acct.borrowed)
      && forall id :: id in m.leases ==>
        !Expired(m.leases[id], now) && readable && Load(f).Some? && m.leases[id] in Load(f).value
  {
    if readable && Load(f).Some? {
      if f.Document? {
        ReadIsClean(f.records, {});
      }
      RelendKeepsBalance(acct.(borrowed := 0), map[], Load(f).value, now);
    }
  }

  /** A ladder's total is its leases' sum. */
  lemma LadderTotal(m: LeaseMap)
    requires Keyed(m)
    ensures Total(Ladder(m)) == Sum(m)
  {
    LadderIs(m);
    LadderHasDistinctIds(Ladder(m), m);
    SumDrop(m, Ladder(m));
    assert m - IdSet(Ladder(m)) == map[] by {
      forall id | id in m ensures id in IdSet(Ladder(m)) {
        assert m[id] in Ladder(m);
      }
    }
  }

  /** A restart over a snapshot of leases that fit keeps every unexpired one. */
  lemma RestoreKeepsASnapshot(cfg: Config, acct: Accounting, f: File, snap: LeaseMap, now: int, save: Saving)
    requires Balanced(acct) && Keyed(snap) && Load(f) == Some(Ladder(snap))
    requires acct.reserved + Sum(snap) <= acct.capacity
    ensures Restore(cfg, acct, f, now, true, save).leases == LiveOf(snap, now)
  {
    hide Ladder, Relend, Load, Balanced, Sum, Total, Restore;
    var ls := Ladder(snap);
    var kept := Restore(cfg, acct, f, now, true, save).leases;
    EmptiedIsBalanced(acct);
    SnapshotFits(acct, snap, now);
    RestoreKeepsBalance(cfg, acct, f, now, true, save);
    RestoredLeases(cfg, acct, f, now, save);
    LadderIs(snap);
    hide Sorted;
    forall id | id in LiveOf(snap, now) ensures id in kept && kept[id] == snap[id] {
      assert snap[id] in ls;
    }
    assert kept.Keys == LiveOf(snap, now).Keys;
  }

  lemma SnapshotFits(acct: Accounting, snap: LeaseMap, now: int)
    requires Balanced(acct) && Keyed(snap) && acct.reserved + Sum(snap) <= acct.capacity
    ensures var kept := Relend(acct.(borrowed := 0), map[], Ladder(snap), now).1;
      forall l :: l in Ladder(snap) && !Expired(l, now) ==> l.id in kept && kept[l.id] == l
  {
    var ls := Ladder(snap);
    LadderIs(snap);
    LadderHasDistinctIds(ls, snap);
    LadderTotal(snap);
    EmptiedIsBalanced(acct);
    hide Ladder, Relend, Balanced, Sum, Total, Sorted, DistinctIds, Keyed;
    RelendKeepsWhatFits(acct.(borrowed := 0), map[], ls, now);
  }

  lemma RestoredLeases(cfg: Config, acct: Accounting, f: File, now: int, save: Saving)
    requires Load(f).Some?
    ensures Restore(cfg, acct, f, now, true, save).leases == Relend(acct.(borrowed := 0), map[], Load(f).value, now).1
  {
    hide Relend, Load;
  }
}
