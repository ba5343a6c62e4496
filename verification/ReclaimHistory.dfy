/** What a node remembers of its reclamations: the churn budget and the cooldown
    that grows while reclaims keep happening, both read from a pruned history. */
module ReclaimHistory {
  import opened Common

  datatype Policy = Policy(minTerm: int, churnWindow: int, churnBudget: int, autonomy: bool)

  /** Reclaims after the cutoff. */
  function CountAfter(h: seq<int>, cutoff: int): (n: nat)
    ensures n <= |h|
  {
    if h == [] then 0 else (if h[|h| - 1] > cutoff then 1 else 0) + CountAfter(h[..|h| - 1], cutoff)
  }

  function InWindow(p: Policy, h: seq<int>, now: int): nat {
    CountAfter(h, now - p.churnWindow)
  }

  predicate Churning(p: Policy, h: seq<int>, now: int) {
    p.churnBudget > 0 && p.churnWindow > 0 && InWindow(p, h, now) >= p.churnBudget
  }

  /** cooldownFor's doubling loop, in int64 durations. */
  function Doubled(d: int, times: nat, window: int): int
    decreases times
  {
    if times == 0 || d >= window then d else Doubled(Wrap64(d * 2), times - 1, window)
  }

  function CooldownFor(p: Policy, h: seq<int>, now: int): int {
    if p.minTerm <= 0 then 0
    else
      var n := InWindow(p, h, now);
      if n <= 1 || !p.autonomy then p.minTerm
      else
        var d := Doubled(p.minTerm, n - 1, p.churnWindow);
        if p.churnWindow > 0 && d > p.churnWindow then p.churnWindow else d
  }

  predicate InCooldown(p: Policy, h: seq<int>, now: int) {
    p.minTerm > 0 && h != [] && h[|h| - 1] + CooldownFor(p, h, now) - now > 0
  }

  function Retention(p: Policy): int {
    if p.minTerm > p.churnWindow then p.minTerm else p.churnWindow
  }

  function KeepAfter(h: seq<int>, cutoff: int): seq<int> {
    if h == [] then []
    else KeepAfter(h[..|h| - 1], cutoff) + (if h[|h| - 1] > cutoff then [h[|h| - 1]] else [])
  }

  function Prune(p: Policy, h: seq<int>, now: int): seq<int> {
    if Retention(p) <= 0 then [] else KeepAfter(h, now - Retention(p))
  }

  // ---- The cooldown ----

  function Pow2(n: nat): nat {
    if n == 0 then 1 else 2 * Pow2(n - 1)
  }

  function Min(a: int, b: int): int {
    if a < b then a else b
  }

  /** d doubled n times, without stopping. */
  function Scaled(d: int, n: nat): int
    decreases n
  {
    if n == 0 then d else Scaled(2 * d, n - 1)
  }

  lemma {:induction false} ScaledIsPower(d: int, n: nat)
    ensures Scaled(d, n) == d * Pow2(n)
    decreases n
  {
    if n > 0 {
      ScaledIsPower(2 * d, n - 1);
      assert 2 * d * Pow2(n - 1) == d * Pow2(n);
    }
  }

  lemma {:induction false} ScaledGrows(d: int, n: nat)
    requires d > 0
    ensures Scaled(d, n) >= d
    decreases n
  {
    if n > 0 {
      ScaledGrows(2 * d, n - 1);
    }
  }

  /** No doubling below the window leaves 64 bits. Whoever sets the policy can check
      it; it is so whenever the window is at most 2^62 ns, or at most the term. */
  ghost predicate NeverWraps(d: int, window: int) {
    forall i: nat :: Scaled(d, i) < window ==> Scaled(d, i + 1) <= MAX_INT64
  }

  lemma {:induction false} ScaledNext(d: int, n: nat)
    ensures Scaled(d, n + 1) == 2 * Scaled(d, n)
    decreases n
  {
    if n > 0 {
      ScaledNext(2 * d, n - 1);
    }
  }

  lemma NeverWrapsLater(d: int, window: int)
    requires NeverWraps(d, window)
    ensures NeverWraps(2 * d, window)
  {
    forall i: nat | Scaled(2 * d, i) < window ensures Scaled(2 * d, i + 1) <= MAX_INT64 {
      assert Scaled(d, i + 1) == Scaled(2 * d, i) && Scaled(d, i + 2) == Scaled(2 * d, i + 1);
    }
  }

  lemma {:induction false} DoubledIsPower(d: int, times: nat, window: int)
    requires 0 < d && NeverWraps(d, window)
    ensures Doubled(d, times, window) >= d
    ensures Min(Doubled(d, times, window), window) == Min(Scaled(d, times), window)
    decreases times
  {
    if times > 0 {
      ScaledGrows(d, times);
      if d < window {
        assert Scaled(d, 0) == d && Scaled(d, 1) == Scaled(2 * d, 0) == 2 * d;
        NeverWrapsLater(d, window);
        DoubledIsPower(2 * d, times - 1, window);
      }
    }
  }

  /** A doubling that leaves 64 bits comes out negative at the step that does it. */
  lemma {:induction false} DoubledWraps(d: int, i: nat, window: int)
    requires 0 < d && Scaled(d, i) < window <= MAX_INT64 < Scaled(d, i + 1)
    ensures Doubled(d, i + 1, window) < 0
    decreases i
  {
    ScaledGrows(d, i);
    ScaledNext(d, i);
    if i > 0 {
      ScaledGrows(2 * d, i - 1);
      DoubledWraps(2 * d, i - 1, window);
    } else {
      assert Doubled(Wrap64(2 * d), 0, window) == Wrap64(2 * d);
    }
  }

  /** The loop doubles up to its cap for every number of reclaims if and only if no
      doubling below the cap leaves 64 bits. */
  lemma DoublingIsExact(d: int, window: int)
    requires 0 < d && window <= MAX_INT64
    ensures NeverWraps(d, window) <==>
      forall n: nat :: Min(Doubled(d, n, window), window) == Min(Scaled(d, n), window)
  {
    if NeverWraps(d, window) {
      forall n: nat ensures Min(Doubled(d, n, window), window) == Min(Scaled(d, n), window) {
        DoubledIsPower(d, n, window);
      }
    } else {
      var i: nat :| Scaled(d, i) < window && Scaled(d, i + 1) > MAX_INT64;
      DoubledWraps(d, i, window);
      ScaledGrows(d, i);
    }
  }

  /** The cooldown doubles with every reclaim in the window and stops at the window. */
  lemma CooldownIsBoundedDoubling(p: Policy, h: seq<int>, now: int)
    requires 0 < p.minTerm && 0 < p.churnWindow && NeverWraps(p.minTerm, p.churnWindow)
    requires p.autonomy && InWindow(p, h, now) > 1
    ensures CooldownFor(p, h, now) == Min(p.minTerm * Pow2(InWindow(p, h, now) - 1), p.churnWindow)
  {
    DoubledIsPower(p.minTerm, InWindow(p, h, now) - 1, p.churnWindow);
    ScaledIsPower(p.minTerm, InWindow(p, h, now) - 1);
  }

  /** n reclaims at once. */
  function Burst(n: nat, t: int): seq<int> {
    if n == 0 then [] else Burst(n - 1, t) + [t]
  }

  lemma {:induction false} BurstCounts(n: nat, t: int, cutoff: int)
    requires t > cutoff
    ensures CountAfter(Burst(n, t), cutoff) == n == |Burst(n, t)| && forall x :: x in Burst(n, t) ==> x == t
  {
    if n > 0 {
      BurstCounts(n - 1, t, cutoff);
      var h := Burst(n - 1, t);
      assert (h + [t])[..|h|] == h;
      assert (h + [t])[|h|] == t;
    }
  }

  /** A policy whose doubling wraps gives a cooldown already over to some number of
      reclaims at once. */
  lemma WrappedCooldownIsOver(p: Policy, t: int) returns (n: nat)
    requires 0 < p.minTerm && p.autonomy && p.churnWindow <= MAX_INT64 && !NeverWraps(p.minTerm, p.churnWindow)
    ensures n > 1 && InWindow(p, Burst(n, t), t) == n && CooldownFor(p, Burst(n, t), t) < 0
  {
    var i: nat :| Scaled(p.minTerm, i) < p.churnWindow && Scaled(p.minTerm, i + 1) > MAX_INT64;
    ScaledGrows(p.minTerm, i);
    DoubledWraps(p.minTerm, i, p.churnWindow);
    n := i + 2;
    BurstCounts(n, t, t - p.churnWindow);
  }

  /** So the law holds of every history exactly under the policies that never wrap. */
  lemma BoundedDoublingExactly(p: Policy)
    requires 0 < p.minTerm && 0 < p.churnWindow <= MAX_INT64 && p.autonomy
    ensures NeverWraps(p.minTerm, p.churnWindow) <==>
      forall h, now :: InWindow(p, h, now) > 1 ==>
        CooldownFor(p, h, now) == Min(p.minTerm * Pow2(InWindow(p, h, now) - 1), p.churnWindow)
  {
    hide CooldownFor, InWindow;
    if NeverWraps(p.minTerm, p.churnWindow) {
      forall h, now | InWindow(p, h, now) > 1
        ensures CooldownFor(p, h, now) == Min(p.minTerm * Pow2(InWindow(p, h, now) - 1), p.churnWindow) {
        CooldownIsBoundedDoubling(p, h, now);
      }
    } else {
      var n := WrappedCooldownIsOver(p, 0);
      ScaledIsPower(p.minTerm, n - 1);
      ScaledGrows(p.minTerm, n - 1);
      assert CooldownFor(p, Burst(n, 0), 0) != Min(p.minTerm * Pow2(InWindow(p, Burst(n, 0), 0) - 1), p.churnWindow);
    }
  }

  /** A policy that wraps: two reclaims just inside a window of 2^63-1 ns with a term
      of 2^62 ns give a cooldown that ended before it began. */
  lemma DoublingWraps()
    ensures var p := Policy(0x4000_0000_0000_0000, MAX_INT64, 0, true);
      CooldownFor(p, [0, 1], 2) == -MAX_INT64 - 1 && !InCooldown(p, [0, 1], 2)
  {
    assert CountAfter([0, 1][..1], 2 - MAX_INT64) == 1;
  }

  /** The cooldown is at least the term exactly when the window that caps it is not
      shorter than the term, or nothing engages the cap. */
  lemma CooldownCoversTheTerm(p: Policy, h: seq<int>, now: int)
    requires 0 < p.minTerm && (p.autonomy ==> NeverWraps(p.minTerm, p.churnWindow))
    ensures CooldownFor(p, h, now) >= p.minTerm <==>
      p.minTerm <= p.churnWindow || p.churnWindow <= 0 || !p.autonomy || InWindow(p, h, now) <= 1
  {
    if p.autonomy && InWindow(p, h, now) > 1 {
      DoubledIsPower(p.minTerm, InWindow(p, h, now) - 1, p.churnWindow);
    }
  }

  // ---- The pruned history answers as the full one ----

  ghost predicate Rising(h: seq<int>, now: int) {
    forall i :: 0 <= i < |h| ==> h[i] <= now && forall j :: i <= j < |h| ==> h[i] <= h[j]
  }

  /** kept is the tail of full that no reader of the history can tell from it at
      any time from `now` on. */
  ghost predicate Tail(p: Policy, full: seq<int>, kept: seq<int>, now: int) {
    && Rising(full, now) && |kept| <= |full| && kept == full[|full| - |kept|..]
    && forall i :: 0 <= i < |full| - |kept| ==> full[i] <= now - Retention(p) || Retention(p) <= 0
  }

  lemma {:induction false} KeepAfterIsATail(h: seq<int>, cutoff: int, now: int)
    requires Rising(h, now)
    ensures |KeepAfter(h, cutoff)| <= |h| && KeepAfter(h, cutoff) == h[|h| - |KeepAfter(h, cutoff)|..]
    ensures forall i :: 0 <= i < |h| - |KeepAfter(h, cutoff)| ==> h[i] <= cutoff
  {
    if h != [] {
      var front, last := h[..|h| - 1], h[|h| - 1];
      assert h == front + [last];
      KeepAfterIsATail(front, cutoff, now);
      if last <= cutoff {
        // Nothing in front of it is later, so nothing is kept.
        forall i | 0 <= i < |front| ensures front[i] <= cutoff {
          assert h[i] <= h[|h| - 1];
        }
        KeepAfterIsLater(front, cutoff);
        var kept := KeepAfter(front, cutoff);
        assert kept != [] ==> kept[0] in kept;
      }
    }
  }

  lemma {:induction false} KeepAfterIsLater(h: seq<int>, cutoff: int)
    ensures forall t :: t in KeepAfter(h, cutoff) <==> t in h && t > cutoff
  {
    if h != [] {
      KeepAfterIsLater(h[..|h| - 1], cutoff);
      assert h == h[..|h| - 1] + [h[|h| - 1]];
    }
  }

  lemma PruneKeepsATail(p: Policy, full: seq<int>, kept: seq<int>, now: int)
    requires Tail(p, full, kept, now)
    ensures Tail(p, full, Prune(p, kept, now), now)
  {
    if Retention(p) > 0 {
      KeepAfterIsATail(kept, now - Retention(p), now);
      var again := Prune(p, kept, now);
      var drop := |full| - |kept|;
      forall i | 0 <= i < |full| - |again| ensures full[i] <= now - Retention(p) {
        if i >= drop {
          assert full[i] == kept[i - drop];
        }
      }
    }
  }

  lemma TailLasts(p: Policy, full: seq<int>, kept: seq<int>, now: int, later: int)
    requires Tail(p, full, kept, now) && now <= later
    ensures Tail(p, full, kept, later)
  {
  }

  lemma ReclaimKeepsATail(p: Policy, full: seq<int>, kept: seq<int>, now: int)
    requires Tail(p, full, kept, now)
    ensures Tail(p, full + [now], kept + [now], now)
  {
  }

  lemma {:induction false} TailCounts(p: Policy, full: seq<int>, kept: seq<int>, cutoff: int)
    requires |kept| <= |full| && kept == full[|full| - |kept|..]
    requires forall i :: 0 <= i < |full| - |kept| ==> full[i] <= cutoff
    ensures CountAfter(full, cutoff) == CountAfter(kept, cutoff)
  {
    if kept == [] {
      NoneAfter(full, cutoff);
    } else {
      var f, k := full[..|full| - 1], kept[..|kept| - 1];
      assert k == f[|f| - |k|..];
      TailCounts(p, f, k, cutoff);
    }
  }

  lemma {:induction false} NoneAfter(h: seq<int>, cutoff: int)
    requires forall i :: 0 <= i < |h| ==> h[i] <= cutoff
    ensures CountAfter(h, cutoff) == 0
  {
    if h != [] {
      NoneAfter(h[..|h| - 1], cutoff);
    }
  }

  /** Pruning is invisible: at every later time the pruned history gives the answer
      the full history would give to both questions asked of it. */
  lemma PruningIsInvisible(p: Policy, full: seq<int>, kept: seq<int>, now: int, later: int)
    requires Tail(p, full, kept, now) && now <= later
    ensures Churning(p, kept, later) == Churning(p, full, later)
    ensures InCooldown(p, kept, later) == InCooldown(p, full, later)
  {
    if p.churnWindow > 0 || p.minTerm > 0 {
      TailCounts(p, full, kept, later - p.churnWindow);
      if kept == [] && full != [] && p.minTerm > 0 {
        CooldownNeverOutlastsRetention(p, full, later);
      }
    }
  }

  lemma CooldownNeverOutlastsRetention(p: Policy, h: seq<int>, now: int)
    requires 0 < p.minTerm
    ensures CooldownFor(p, h, now) <= Retention(p)
  {
    if p.churnWindow <= 0 {
      assert Doubled(p.minTerm, if InWindow(p, h, now) > 0 then InWindow(p, h, now) - 1 else 0, p.churnWindow) ==
        p.minTerm;
    }
  }

  // ---- What the cooldown keeps ----

  /** Policies whose cooldown alone covers the last `minTerm` after a reclaim. */
  ghost predicate KeepsTheTerm(p: Policy) {
    p.minTerm > 0 && p.autonomy ==> NeverWraps(p.minTerm, p.churnWindow)
  }

  /** Out of cooldown, the last reclaim is at least a term ago. That a window shorter
      than the term cuts the cooldown short does not matter: by the time it is over,
      the reclaims have left the window and the whole term applies again. */
  lemma NoGrantWithinTheTerm(p: Policy, h: seq<int>, now: int)
    requires h != [] && Rising(h, now) && KeepsTheTerm(p) && !InCooldown(p, h, now)
    ensures now >= h[|h| - 1] + p.minTerm
  {
    var last := h[|h| - 1];
    assert last <= now;
    if p.minTerm > 0 {
      CooldownCoversTheTerm(p, h, now);
      if 0 < p.churnWindow < p.minTerm && p.autonomy && InWindow(p, h, now) > 1 {
        DoubledIsPower(p.minTerm, InWindow(p, h, now) - 1, p.churnWindow);
        if now - p.churnWindow >= last {
          NoneAfter(h, now - p.churnWindow);
          assert false;
        }
      }
    }
  }

  /** The cooldown alone covers the term under every history exactly when the doubling
      never wraps. */
  lemma TermIsKeptExactly(p: Policy)
    requires p.churnWindow <= MAX_INT64
    ensures KeepsTheTerm(p) <==>
      forall h, now :: h != [] && Rising(h, now) && !InCooldown(p, h, now) ==> now >= h[|h| - 1] + p.minTerm
  {
    if KeepsTheTerm(p) {
      forall h, now | h != [] && Rising(h, now) && !InCooldown(p, h, now) ensures now >= h[|h| - 1] + p.minTerm {
        NoGrantWithinTheTerm(p, h, now);
      }
    } else {
      var n := WrappedCooldownIsOver(p, 0);
      var h := Burst(n, 0);
      BurstCounts(n, 0, -1);
      assert forall i :: 0 <= i < |h| ==> h[i] in h;
      assert Rising(h, 0) && !InCooldown(p, h, 0);
    }
  }

  // ---- What the churn budget adds ----

  /** Doubling i + 1 times leaves 64 bits before it reaches the window. */
  predicate WrapsAt(p: Policy, i: nat) {
    Scaled(p.minTerm, i) < p.churnWindow && Scaled(p.minTerm, i + 1) > MAX_INT64
  }

  /** Where the doubling would wrap, the budget refuses first: it is spent before there
      are enough reclaims in the window to wrap. */
  ghost predicate GrantsKeepTheTerm(p: Policy) {
    p.minTerm > 0 && p.autonomy ==> forall i: nat :: WrapsAt(p, i) ==> 0 < p.churnBudget <= i + 2
  }

  lemma {:induction false} ScaledRises(d: int, n: nat, i: nat)
    requires d > 0 && n <= i
    ensures d <= Scaled(d, n) <= Scaled(d, i)
    decreases i
  {
    ScaledGrows(d, n);
    if n < i {
      ScaledRises(d, n, i - 1);
      ScaledNext(d, i - 1);
    }
  }

  /** Below the step that wraps, and below the window, the loop just doubles. */
  lemma {:induction false} DoubledBelow(d: int, times: nat, i: nat, window: int)
    requires d > 0 && times <= i && Scaled(d, i) < window <= MAX_INT64
    ensures Doubled(d, times, window) == Scaled(d, times)
    decreases times
  {
    ScaledRises(d, times, i);
    if times > 0 {
      ScaledRises(d, 1, i);
      assert Scaled(d, 1) == Scaled(2 * d, 0) == 2 * d;
      DoubledBelow(2 * d, times - 1, i - 1, window);
    }
  }

  /** Refused for neither churn nor cooldown, a grant is at least a term after the last
      reclaim. */
  lemma GrantIsATermLater(p: Policy, h: seq<int>, now: int)
    requires h != [] && Rising(h, now) && p.churnWindow <= MAX_INT64 && GrantsKeepTheTerm(p)
    requires !Churning(p, h, now) && !InCooldown(p, h, now)
    ensures now >= h[|h| - 1] + p.minTerm
  {
    if KeepsTheTerm(p) {
      NoGrantWithinTheTerm(p, h, now);
    } else {
      var i: nat :| Scaled(p.minTerm, i) < p.churnWindow && Scaled(p.minTerm, i + 1) > MAX_INT64;
      assert WrapsAt(p, i);
      ScaledGrows(p.minTerm, i);
      var n := InWindow(p, h, now);
      if n > 1 {
        DoubledBelow(p.minTerm, n - 1, i, p.churnWindow);
        ScaledRises(p.minTerm, n - 1, i);
      }
    }
  }

  /** Where the budget does not, a burst of reclaims opens the node at once. */
  lemma BurstOpensAtOnce(p: Policy, i: nat, t: int)
    requires p.minTerm > 0 && p.autonomy && p.churnWindow <= MAX_INT64 && WrapsAt(p, i) && !(0 < p.churnBudget <= i + 2)
    ensures var h := Burst(i + 2, t);
      h != [] && Rising(h, t) && !Churning(p, h, t) && !InCooldown(p, h, t) && h[|h| - 1] == t
  {
    var h := Burst(i + 2, t);
    ScaledGrows(p.minTerm, i);
    DoubledWraps(p.minTerm, i, p.churnWindow);
    BurstCounts(i + 2, t, t - p.churnWindow);
    assert forall j :: 0 <= j < |h| ==> h[j] in h;
  }

  /** With both refusals, no grant comes within the term of the last reclaim, under any
      history, exactly when the budget is spent before the doubling can wrap. */
  lemma GrantsKeepTheTermExactly(p: Policy)
    requires p.churnWindow <= MAX_INT64
    ensures GrantsKeepTheTerm(p) <==>
      forall h, now :: h != [] && Rising(h, now) && !Churning(p, h, now) && !InCooldown(p, h, now) ==>
        now >= h[|h| - 1] + p.minTerm
  {
    hide Churning, InCooldown, Rising;
    if GrantsKeepTheTerm(p) {
      forall h, now | h != [] && Rising(h, now) && !Churning(p, h, now) && !InCooldown(p, h, now)
        ensures now >= h[|h| - 1] + p.minTerm {
        GrantIsATermLater(p, h, now);
      }
    } else {
      var i: nat :| WrapsAt(p, i) && !(0 < p.churnBudget <= i + 2);
      BurstOpensAtOnce(p, i, 0);
    }
  }
}
