/** Which policies keep every grant a term away from the reclaims before it, decided
    over whole runs of the lease manager. */
module TermRuns {
  import opened Common
  import opened Leases
  import opened ReclaimHistory
  import opened LeaseManager
  import opened LeaseRuns

  /** A run in which a grant is accepted within the term of op i, a reclaim of the same
      process that dropped something. */
  ghost predicate GrantsTooSoon(n: Node, ops: seq<Op>, i: int, l: Lease, now: int) {
    && IsRun(n, ops) && Reclaimed(n, ops, i) && NoRestartSince(ops, i) && After(n, ops).now <= now
    && Accept(After(n, ops).mgr, l, now, Saved).1.None? && now < ops[i].now + n.mgr.cfg.policy.minTerm
  }

  lemma {:induction false} PolicyStays(n: Node, ops: seq<Op>)
    ensures After(n, ops).mgr.cfg == n.mgr.cfg
    decreases |ops|
  {
    hide Step;
    if ops != [] {
      PolicyStays(n, ops[..|ops| - 1]);
      StepKeepsPolicy(After(n, ops[..|ops| - 1]), ops[|ops| - 1]);
    }
  }

  lemma StepKeepsPolicy(n: Node, op: Op)
    ensures Step(n, op).mgr.cfg == n.mgr.cfg
  {
    if op.DoReclaim? {
      ReclaimRecords(n.mgr, op.need, op.now);
    }
    hide Refused, Reclaim, FileAfter, Ladder, Relend, RestoreSaves;
  }

  // ---- The run ----

  function Named(j: nat): string {
    if j == 0 then [] else Named(j - 1) + ['a']
  }

  /** The j-th lease granted: one byte, opportunistic. */
  function Loan(j: nat): Lease {
    Lease(Named(j), "", OPPORTUNISTIC, 1, 0, 1)
  }

  function Plain(p: Policy): Config {
    Config(p, 1, 0, Quota(0, 0))
  }

  /** A node of k bytes that has lent none. */
  function Bare(p: Policy, k: nat): Node {
    Node(Mgr(Plain(p), Accounting(k, 0, 0), map[], [], true), Missing, [], 0)
  }

  /** k grants, each filling a byte. */
  function Filling(k: nat): seq<Op> {
    if k == 0 then [] else Filling(k - 1) + [DoAccept(Loan(k - 1), 0, Saved)]
  }

  /** k grants, then j reclaims of a byte each, all at one moment. */
  function Draining(k: nat, j: nat): seq<Op> {
    if j == 0 then Filling(k) else Draining(k, j - 1) + [DoReclaim(1, 0, Saved)]
  }

  /** `held` of the loans below `next` are out, after r reclaims. */
  ghost predicate Stocked(m: Mgr, p: Policy, k: nat, held: nat, next: nat, r: nat) {
    && m.cfg == Plain(p) && m.acct == Accounting(k, 0, held) && |m.leases| == held && m.restored
    && m.reclaims == Burst(r, 0)
    && forall id :: id in m.leases ==> |id| < next && m.leases[id].id == id && IsLoan(m.leases[id])
  }

  predicate IsLoan(l: Lease) {
    l.cls == OPPORTUNISTIC && l.size == 1 && l.grantedAt == 0 && l.term == 1
  }

  lemma {:induction false} NameLength(j: nat)
    ensures |Named(j)| == j
  {
    if j > 0 {
      NameLength(j - 1);
    }
  }

  lemma RunGrows(n: Node, ops: seq<Op>, op: Op)
    requires IsRun(n, ops) && Legal(After(n, ops), op)
    ensures IsRun(n, ops + [op]) && After(n, ops + [op]) == Step(After(n, ops), op)
  {
    hide Legal, Fresh, Step;
    var more := ops + [op];
    assert more[..|ops|] == ops && more[|ops|] == op;
    forall i | 0 <= i < |more| ensures Legal(After(n, more[..i]), more[i]) {
      if i < |ops| {
        assert more[..i] == ops[..i] && more[i] == ops[i];
      }
    }
  }

  /** A node with a free byte, not churning and not cooling, lends it. */
  lemma LoanIsAccepted(m: Mgr, p: Policy, k: nat, held: nat, next: nat, r: nat)
    requires Stocked(m, p, k, held, next, r) && held < k <= MAX_INT64 && 0 < p.minTerm
    requires !Churning(p, Burst(r, 0), 0) && !InCooldown(p, Burst(r, 0), 0)
    ensures Accept(m, Loan(next), 0, Saved) == (Granted(m, Loan(next), 0), None)
    ensures Stocked(Granted(m, Loan(next), 0), p, k, held + 1, next + 1, r)
  {
    hide Churning, InCooldown;
    NameLength(next);
    BurstIsKept(p, r);
    hide Prune, Named;
    LendKeepsBalance(m.acct, 1);
    hide Lend;
    var l := Loan(next);
    assert m.leases[l.id := l].Keys == m.leases.Keys + {l.id};
  }

  lemma BurstIsKept(p: Policy, r: nat)
    requires 0 < p.minTerm
    ensures Prune(p, Burst(r, 0), 0) == Burst(r, 0)
  {
    BurstCounts(r, 0, -1);
    var h := Burst(r, 0);
    assert forall i :: 0 <= i < |h| ==> h[i] in h;
    KeptWhole(h, -Retention(p));
  }

  lemma {:induction false} KeptWhole(h: seq<int>, cutoff: int)
    requires forall i :: 0 <= i < |h| ==> h[i] > cutoff
    ensures KeepAfter(h, cutoff) == h
  {
    if h != [] {
      assert h == h[..|h| - 1] + [h[|h| - 1]];
      KeptWhole(h[..|h| - 1], cutoff);
    }
  }

  /** A reclaim of one byte takes one loan. */
  lemma LoanIsReclaimed(m: Mgr, p: Policy, k: nat, held: nat, next: nat, r: nat)
    requires Stocked(m, p, k, held, next, r) && held > 0 && 0 < p.minTerm
    ensures Reclaim(m, 1, 0).1.dropped != [] && Stocked(Reclaim(m, 1, 0).0, p, k, held - 1, next, r + 1)
  {
    hide Reclaim, Prune, Ladder, TakenEarly, ExpiredOf, IsLoan;
    var l := OneIsTaken(m, p, k, held, next, r);
    ReclaimOfOne(m, l);
    BurstIsKept(p, r + 1);
    OneLess(m, l, Reclaim(m, 1, 0).0, p, k, held, next, r);
  }

  lemma OneLess(m: Mgr, l: Lease, u: Mgr, p: Policy, k: nat, held: nat, next: nat, r: nat)
    requires Stocked(m, p, k, held, next, r) && held > 0 && l.id in m.leases && m.leases[l.id] == l
    requires u ==
      Mgr(m.cfg, m.acct.(borrowed := m.acct.borrowed - l.size), m.leases - {l.id}, Burst(r + 1, 0), m.restored)
    ensures Stocked(u, p, k, held - 1, next, r + 1)
  {
    hide Burst;
    assert (m.leases - {l.id}).Keys == m.leases.Keys - {l.id};
  }

  lemma ReclaimOfOne(m: Mgr, l: Lease)
    requires Ladder(ExpiredOf(m.leases, 0)) == [] && TakenEarly(m, 1, 0) == [l]
    ensures var (u, o) := Reclaim(m, 1, 0);
      && o.dropped == [l.id] && u.cfg == m.cfg && u.restored == m.restored
      && u.acct == m.acct.(borrowed := m.acct.borrowed - l.size)
      && u.leases == m.leases - {l.id} && u.reclaims == Prune(m.cfg.policy, m.reclaims + [0], 0)
  {
    hide Ladder, Taken, TakenEarly, ExpiredOf, Prune;
    assert Ids([l]) == [l.id] && Total([l]) == l.size;
    assert IdSet([]) == {} && IdSet([l]) == {l.id};
    assert m.leases - {} - {l.id} == m.leases - {l.id};
  }

  ghost predicate Loans(m: LeaseMap) {
    forall id :: id in m ==> m[id].id == id && IsLoan(m[id])
  }

  lemma NoneHasExpired(m: LeaseMap)
    requires Loans(m)
    ensures Ladder(ExpiredOf(m, 0)) == [] && LiveOf(m, 0) == m
  {
    assert ExpiredOf(m, 0) == map[];
  }

  lemma FirstOfTheLadder(m: LeaseMap) returns (l: Lease)
    requires Loans(m) && |m| > 0
    ensures Ladder(m) != [] && l == Ladder(m)[0] && l.id in m && m[l.id] == l && IsLoan(l)
  {
    LadderIs(m);
    hide Ladder, Sorted, Loans, IsLoan;
    assert m.Keys != {};
    var id :| id in m;
    assert m[id] in Ladder(m);
    l := Ladder(m)[0];
    assert l in Ladder(m);
    LoanOf(m, l.id);
  }

  lemma LoanOf(m: LeaseMap, id: string)
    requires Loans(m) && id in m
    ensures m[id].id == id && IsLoan(m[id])
  {
  }

  lemma OneIsTaken(m: Mgr, p: Policy, k: nat, held: nat, next: nat, r: nat) returns (l: Lease)
    requires Stocked(m, p, k, held, next, r) && held > 0
    ensures l.id in m.leases && m.leases[l.id] == l
    ensures Ladder(ExpiredOf(m.leases, 0)) == [] && TakenEarly(m, 1, 0) == [l]
  {
    assert Loans(m.leases);
    hide Stocked, Loans, Ladder, ExpiredOf, LiveOf;
    NoneHasExpired(m.leases);
    l := FirstOfTheLadder(m.leases);
    assert Taken(Ladder(m.leases)[1..], 0) == [];
  }

  lemma FillStep(n: Node, p: Policy, k: nat, j: nat)
    requires Stocked(n.mgr, p, k, j, j, 0) && n.now == 0 && j < k <= MAX_INT64 && 0 < p.minTerm
    ensures var u := Step(n, DoAccept(Loan(j), 0, Saved)); u.now == 0 && Stocked(u.mgr, p, k, j + 1, j + 1, 0)
  {
    LoanIsAccepted(n.mgr, p, k, j, j, 0);
    hide Accept, Ladder, FileAfter, Stocked, Granted;
  }

  lemma DrainStep(n: Node, p: Policy, k: nat, held: nat, r: nat)
    requires Stocked(n.mgr, p, k, held, k, r) && n.now == 0 && held > 0 && 0 < p.minTerm
    ensures var u := Step(n, DoReclaim(1, 0, Saved)); u.now == 0 && Stocked(u.mgr, p, k, held - 1, k, r + 1)
    ensures Reclaim(n.mgr, 1, 0).1.dropped != []
  {
    LoanIsReclaimed(n.mgr, p, k, held, k, r);
    hide Reclaim, Ladder, FileAfter, Stocked;
  }

  lemma NothingFilled(p: Policy, k: nat)
    requires k <= MAX_INT64
    ensures IsRun(Bare(p, k), []) && Stocked(Bare(p, k).mgr, p, k, 0, 0, 0)
  {
  }

  lemma {:induction false} Fills(p: Policy, k: nat, j: nat)
    requires j <= k <= MAX_INT64 && 0 < p.minTerm
    ensures var n, ops := Bare(p, k), Filling(j);
      IsRun(n, ops) && |ops| == j && After(n, ops).now == 0 && Stocked(After(n, ops).mgr, p, k, j, j, 0)
    decreases j
  {
    hide Step, Stocked, IsRun;
    if j == 0 {
      NothingFilled(p, k);
    } else {
      Fills(p, k, j - 1);
      RunGrows(Bare(p, k), Filling(j - 1), DoAccept(Loan(j - 1), 0, Saved));
      FillStep(After(Bare(p, k), Filling(j - 1)), p, k, j - 1);
    }
  }

  lemma {:induction false} Drains(p: Policy, k: nat, j: nat)
    requires j <= k <= MAX_INT64 && 0 < p.minTerm
    ensures var n, ops := Bare(p, k), Draining(k, j);
      IsRun(n, ops) && |ops| == k + j && After(n, ops).now == 0 && Stocked(After(n, ops).mgr, p, k, k - j, k, j)
    ensures j > 0 ==> Reclaimed(Bare(p, k), Draining(k, j), k + j - 1)
    decreases j
  {
    hide Step, Stocked, IsRun, Reclaim;
    if j == 0 {
      Fills(p, k, k);
    } else {
      Drains(p, k, j - 1);
      var ops, op := Draining(k, j - 1), DoReclaim(1, 0, Saved);
      RunGrows(Bare(p, k), ops, op);
      DrainStep(After(Bare(p, k), ops), p, k, k - j + 1, j - 1);
      assert (ops + [op])[..|ops|] == ops;
    }
  }

  /** Where the doubling wraps at its i-th step and the budget is not spent by then:
      i + 2 grants, reclaimed one by one at one moment, and a grant at that moment. */
  lemma WrappedRunGrantsAtOnce(p: Policy, i: nat)
    requires 0 < p.minTerm && p.autonomy && p.churnWindow <= MAX_INT64
    requires WrapsAt(p, i) && !(0 < p.churnBudget <= i + 2)
    ensures GrantsTooSoon(Bare(p, i + 2), Draining(i + 2, i + 2), 2 * i + 3, Loan(i + 2), 0)
  {
    hide Reclaim, Accept, IsRun, Stocked, Churning, InCooldown, After, Draining;
    ScaledCounts(p.minTerm, i);
    Drains(p, i + 2, i + 2);
    BurstOpensAtOnce(p, i, 0);
    LoanIsAccepted(After(Bare(p, i + 2), Draining(i + 2, i + 2)).mgr, p, i + 2, 0, i + 2, i + 2);
    AllAtNought(i + 2, i + 2);
  }

  lemma {:induction false} ScaledCounts(d: int, i: nat)
    requires d > 0
    ensures Scaled(d, i) >= d + i
    decreases i
  {
    if i > 0 {
      ScaledCounts(2 * d, i - 1);
    }
  }

  lemma {:induction false} AllAtNought(k: nat, j: nat)
    ensures |Draining(k, j)| == k + j
    ensures forall x :: 0 <= x < k + j ==> Draining(k, j)[x].now == 0
    decreases k + j
  {
    if j > 0 {
      AllAtNought(k, j - 1);
    } else if k > 0 {
      AllAtNought(k - 1, 0);
    }
  }

  /** In every run of a node, no grant is accepted within the term of an earlier reclaim
      of the same process that dropped something, exactly under the policies whose
      budget is spent before the doubling can wrap. */
  lemma RunsKeepTheTermExactly(p: Policy)
    requires p.churnWindow <= MAX_INT64
    ensures GrantsKeepTheTerm(p) <==>
      forall n: Node, ops, i, l, now :: n.mgr.cfg.policy == p ==> !GrantsTooSoon(n, ops, i, l, now)
  {
    hide Reclaim, Accept, IsRun, After, Draining, Reclaimed;
    if GrantsKeepTheTerm(p) {
      forall n: Node, ops, i, l, now | n.mgr.cfg.policy == p ensures !GrantsTooSoon(n, ops, i, l, now) {
        PolicyStays(n, ops);
        if GrantsTooSoon(n, ops, i, l, now) {
          NoGrantSoonAfterAReclaim(n, ops, i, l, now, Saved);
          assert false;
        }
      }
    } else {
      var i: nat :| WrapsAt(p, i) && !(0 < p.churnBudget <= i + 2);
      WrappedRunGrantsAtOnce(p, i);
      assert Bare(p, i + 2).mgr.cfg.policy == p;
    }
  }

  /** With a term of 2^62 ns, a window of 2^63-1 ns and no budget: two grants, both
      reclaimed at one moment, and a third grant at that moment. */
  lemma TwoReclaimsOpenTheNode()
    ensures var p := Policy(0x4000_0000_0000_0000, MAX_INT64, 0, true);
      GrantsTooSoon(Bare(p, 2), Draining(2, 2), 3, Loan(2), 0)
  {
    hide GrantsTooSoon, Draining;
    var p := Policy(0x4000_0000_0000_0000, MAX_INT64, 0, true);
    assert Scaled(2 * p.minTerm, 0) == 2 * p.minTerm;
    WrappedRunGrantsAtOnce(p, 0);
  }

  /** With a budget of one the same wrapping policy keeps the term: the budget refuses
      first. */
  lemma BudgetOfOneKeepsTheTerm()
    ensures var p := Policy(0x4000_0000_0000_0000, MAX_INT64, 1, true); GrantsKeepTheTerm(p) && !KeepsTheTerm(p)
  {
    var p := Policy(0x4000_0000_0000_0000, MAX_INT64, 1, true);
    assert Scaled(p.minTerm, 0) < p.churnWindow && Scaled(2 * p.minTerm, 0) > MAX_INT64;
    assert Scaled(p.minTerm, 1) > MAX_INT64;
  }
}
