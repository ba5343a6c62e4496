/** The stride detector of one read stream, as a value, and what it says over whole
    histories of reads. */
module Prefetch {
  import opened Common

  datatype Config = Config(depth: int, confirmations: int, window: int, minAccuracy: real, patience: int)

  predicate Validate(c: Config) {
    c.depth > 0 && c.confirmations >= 3 && c.window > 0 && 0.0 <= c.minAccuracy <= 1.0 && c.patience > 0
  }

  /** One reader's stream. `outstanding` holds the predictions not yet judged, by index
      and with the time each was made; `recent` the verdicts, oldest first. */
  datatype Stream = Stream(
    last: int, stride: int, runs: nat, started: bool,
    outstanding: map<int, int>, recent: seq<bool>, muted: bool, mutedStride: int)

  function NewStream(): Stream {
    Stream(0, 0, 0, false, map[], [], false, 0)
  }

  // ---- Judging predictions ----

  function CountRead(recent: seq<bool>): nat {
    if recent == [] then 0 else CountRead(recent[..|recent| - 1]) + if recent[|recent| - 1] then 1 else 0
  }

  function Accuracy(recent: seq<bool>): real
    requires recent != []
  {
    CountRead(recent) as real / |recent| as real
  }

  function LastOf(recent: seq<bool>, n: int): seq<bool> {
    if 0 <= n < |recent| then recent[|recent| - n..] else recent
  }

  function Record(c: Config, s: Stream, read: bool): Stream
    requires c.window > 0
  {
    var recent := LastOf(s.recent + [read], c.window);
    if |recent| < c.window || s.muted || Accuracy(recent) >= c.minAccuracy then s.(recent := recent)
    else s.(recent := recent, muted := true, mutedStride := s.stride, outstanding := map[], stride := 0, runs := 0)
  }

  function RecordMisses(c: Config, s: Stream, n: nat): Stream
    requires c.window > 0
  {
    if n == 0 then s else Record(c, RecordMisses(c, s, n - 1), false)
  }

  function Overdue(c: Config, outstanding: map<int, int>, now: int): set<int> {
    set at | at in outstanding && now - outstanding[at] >= c.patience
  }

  /** The stream once these predictions have been condemned. One that a miss mutes
      loses every prediction it still had. */
  function Condemned(c: Config, s: Stream, gone: set<int>): Stream
    requires c.window > 0
  {
    var judged := RecordMisses(c, s, |gone|);
    if judged.muted && !s.muted then judged else judged.(outstanding := s.outstanding - gone)
  }

  function Confirmed(c: Config, s: Stream, index: int): Stream
    requires c.window > 0
  {
    if index in s.outstanding then Record(c, s.(outstanding := s.outstanding - {index}), true) else s
  }

  /** This read confirms its prediction, and those out of patience are misses. */
  function Score(c: Config, s: Stream, index: int, now: int): Stream
    requires c.window > 0
  {
    var hit := Confirmed(c, s, index);
    Condemned(c, hit, Overdue(c, hit.outstanding, now))
  }

  lemma {:induction false} MissesForget(c: Config, s: Stream, n: nat)
    requires c.window > 0
    ensures var u := RecordMisses(c, s, n);
      && (s.muted ==> u.muted) && (s.muted == u.muted ==> u.outstanding == s.outstanding)
      && (s.muted != u.muted ==> u.outstanding == map[])
  {
    hide Accuracy;
    if n > 0 {
      MissesForget(c, s, n - 1);
    }
  }

  /** Condemning one more, in whatever order they are met. */
  lemma CondemnOne(c: Config, s: Stream, gone: set<int>, at: int)
    requires c.window > 0 && at !in gone
    ensures var u := Condemned(c, s, gone);
      Record(c, u.(outstanding := u.outstanding - {at}), false) == Condemned(c, s, gone + {at})
  {
    hide Accuracy, LastOf;
    MissesForget(c, s, |gone|);
    assert |gone + {at}| == |gone| + 1;
    assert s.outstanding - gone - {at} == s.outstanding - (gone + {at});
    var none: map<int, int> := map[];
    assert none - {at} == none;
  }

  // ---- Following the stride ----

  function Track(c: Config, s: Stream, index: int): Stream {
    if !s.started then s.(last := index, started := true)
    else
      var stride := Wrap64(index - s.last);
      var at := s.(last := index);
      if stride == 0 then at
      else if stride != s.stride then at.(stride := stride, runs := 0)
      else
        var on := at.(runs := s.runs + 1);
        if s.muted && stride != s.mutedStride && on.runs + 2 >= c.confirmations then on.(muted := false, recent := [])
        else on
  }

  predicate Predicts(c: Config, s: Stream) {
    s.started && s.runs + 2 >= c.confirmations && !s.muted
  }

  /** The i-th block ahead, in the 64-bit arithmetic of the source. */
  function NextAt(index: int, stride: int, i: int): int {
    Wrap64(index + Wrap64(stride * i))
  }

  ghost predicate IsAhead(index: int, stride: int, i: int, depth: int, x: int) {
    exists j :: i <= j <= depth && x == NextAt(index, stride, j)
  }

  /** The blocks ahead from the i-th on that are not already predicted. */
  function Ahead(index: int, stride: int, i: int, depth: int, known: set<int>): seq<int>
    decreases depth - i
  {
    if i > depth then []
    else
      var next := NextAt(index, stride, i);
      if next in known then Ahead(index, stride, i + 1, depth, known)
      else [next] + Ahead(index, stride, i + 1, depth, known + {next})
  }

  function Judged(c: Config, s: Stream, index: int, now: int): Stream
    requires c.window > 0
  {
    Track(c, Score(c, s, index, now), index)
  }

  ghost function Noted(outstanding: map<int, int>, out: seq<int>, now: int): map<int, int> {
    map at | at in outstanding.Keys + Elems(out) :: if at in out then now else outstanding[at]
  }

  ghost function Observe(c: Config, s: Stream, index: int, now: int): (Stream, seq<int>)
    requires c.window > 0
  {
    var t := Judged(c, s, index, now);
    var out := if Predicts(c, t) then Ahead(index, t.stride, 1, c.depth, t.outstanding.Keys) else [];
    (t.(outstanding := Noted(t.outstanding, out, now)), out)
  }

  /** Predicted blocks are distinct, were not outstanding, and lie ahead on the
      stride; and every block ahead is predicted or was outstanding already. */
  lemma {:induction false} AheadIsNew(index: int, stride: int, i: int, depth: int, known: set<int>)
    ensures var out := Ahead(index, stride, i, depth, known);
      && NoDup(out) && (forall x :: x in out ==> x !in known)
      && (forall x :: x in out ==> IsAhead(index, stride, i, depth, x))
      && (forall j :: i <= j <= depth ==> NextAt(index, stride, j) in known + Elems(out))
    decreases depth - i
  {
    hide NextAt;
    if i <= depth {
      var next := NextAt(index, stride, i);
      if next in known {
        AheadIsNew(index, stride, i + 1, depth, known);
      } else {
        AheadIsNew(index, stride, i + 1, depth, known + {next});
        var rest := Ahead(index, stride, i + 1, depth, known + {next});
        var out := [next] + rest;
        assert Elems(out) == {next} + Elems(rest);
        forall x | x in out ensures IsAhead(index, stride, i, depth, x) {
          if x != next {
            var j :| i + 1 <= j <= depth && x == NextAt(index, stride, j);
          }
        }
      }
    }
  }

  // ---- Histories ----

  datatype Read = Read(index: int, now: int)

  ghost predicate Reads(h: seq<Read>) {
    forall i :: 0 <= i < |h| ==> IsInt64(h[i].index)
  }

  /** The stream after a history of reads. */
  ghost function After(c: Config, h: seq<Read>): Stream
    requires c.window > 0
  {
    if h == [] then NewStream()
    else Observe(c, After(c, h[..|h| - 1]), h[|h| - 1].index, h[|h| - 1].now).0
  }

  ghost function PredictedAt(c: Config, h: seq<Read>): seq<int>
    requires c.window > 0 && h != []
  {
    Observe(c, After(c, h[..|h| - 1]), h[|h| - 1].index, h[|h| - 1].now).1
  }

  /** The reads, ignoring a block read again at once. */
  function Distinct(h: seq<Read>): seq<int> {
    if h == [] then []
    else
      var rest, x := Distinct(h[..|h| - 1]), h[|h| - 1].index;
      if rest != [] && rest[|rest| - 1] == x then rest else rest + [x]
  }

  lemma {:induction false} DistinctIs(h: seq<Read>)
    ensures h == [] <==> Distinct(h) == []
    ensures h != [] ==> Distinct(h)[|Distinct(h)| - 1] == h[|h| - 1].index
    ensures Reads(h) ==> forall i :: 0 <= i < |Distinct(h)| ==> IsInt64(Distinct(h)[i])
  {
    if h != [] {
      DistinctIs(h[..|h| - 1]);
    }
  }

  /** How far read i + 1 is from read i, as a 64-bit difference. */
  function StepAt(d: seq<int>, i: int): int
    requires 0 <= i < |d| - 1
  {
    Wrap64(d[i + 1] - d[i])
  }

  /** The last n of them are an arithmetic progression. */
  ghost predicate Progression(d: seq<int>, n: nat, stride: int) {
    n <= |d| && forall i :: |d| - n <= i < |d| - 1 ==> StepAt(d, i) == stride
  }

  ghost predicate StreamInv(c: Config, s: Stream, h: seq<Read>)
    requires Validate(c)
  {
    && (s.started <==> h != []) && (h != [] ==> s.last == h[|h| - 1].index)
    && (s.stride == 0 ==> s.runs == 0)
    && (s.stride != 0 ==> Progression(Distinct(h), s.runs + 2, s.stride))
    && |s.recent| <= c.window
    && (!s.muted && |s.recent| == c.window ==> Accuracy(s.recent) >= c.minAccuracy)
  }

  /** Judging changes the stride only by muting, which forgets it. */
  lemma RecordKeeps(c: Config, s: Stream, read: bool)
    requires Validate(c) && |s.recent| <= c.window
    ensures var u := Record(c, s, read);
      && u.started == s.started && u.last == s.last && |u.recent| <= c.window
      && (s.muted ==> u.muted && u.stride == s.stride && u.runs == s.runs && u.mutedStride == s.mutedStride)
      && (!s.muted && u.muted ==> u.stride == 0 && u.runs == 0 && u.mutedStride == s.stride && u.outstanding == map[])
      && (!u.muted ==>
        && u.stride == s.stride && u.runs == s.runs
        && (|u.recent| == c.window ==> Accuracy(u.recent) >= c.minAccuracy))
      && (s.muted == u.muted ==> u.outstanding == s.outstanding)
  {
    hide Accuracy;
  }

  lemma {:induction false} MissesKeep(c: Config, s: Stream, n: nat)
    requires Validate(c) && |s.recent| <= c.window
    requires !s.muted && |s.recent| == c.window ==> Accuracy(s.recent) >= c.minAccuracy
    ensures var u := RecordMisses(c, s, n);
      && u.started == s.started && u.last == s.last && |u.recent| <= c.window
      && (s.muted ==> u.muted && u.stride == s.stride && u.runs == s.runs && u.mutedStride == s.mutedStride)
      && (!s.muted && u.muted ==> u.stride == 0 && u.runs == 0 && u.mutedStride == s.stride && u.outstanding == map[])
      && (!u.muted ==>
        && u.stride == s.stride && u.runs == s.runs
        && (|u.recent| == c.window ==> Accuracy(u.recent) >= c.minAccuracy))
      && (s.muted == u.muted ==> u.outstanding == s.outstanding)
  {
    hide Accuracy, Record;
    if n > 0 {
      MissesKeep(c, s, n - 1);
      RecordKeeps(c, RecordMisses(c, s, n - 1), false);
    }
  }

  lemma ScoreKeeps(c: Config, s: Stream, index: int, now: int)
    requires Validate(c) && |s.recent| <= c.window
    requires !s.muted && |s.recent| == c.window ==> Accuracy(s.recent) >= c.minAccuracy
    ensures var u := Score(c, s, index, now);
      && u.started == s.started && u.last == s.last && |u.recent| <= c.window
      && (s.muted ==> u.muted && u.stride == s.stride && u.runs == s.runs && u.mutedStride == s.mutedStride)
      && (!s.muted && u.muted ==> u.stride == 0 && u.runs == 0 && u.mutedStride == s.stride && u.outstanding == map[])
      && (!u.muted ==>
        && u.stride == s.stride && u.runs == s.runs
        && (|u.recent| == c.window ==> Accuracy(u.recent) >= c.minAccuracy))
  {
    hide Accuracy, Record, RecordMisses;
    var less := s.(outstanding := s.outstanding - {index});
    RecordKeeps(c, less, true);
    var hit := if index in s.outstanding then Record(c, less, true) else s;
    MissesKeep(c, hit, |Overdue(c, hit.outstanding, now)|);
    if hit.muted && !s.muted {
      assert hit.outstanding - Overdue(c, hit.outstanding, now) == map[];
    }
  }

  lemma OneMoreRead(d: seq<int>, x: int, n: nat, stride: int)
    requires Progression(d, n, stride) && d != [] && Wrap64(x - d[|d| - 1]) == stride
    ensures Progression(d + [x], n + 1, stride) && Progression(d + [x], 2, stride)
  {
    hide Wrap64;
    var e := d + [x];
    forall i | |e| - (n + 1) <= i < |e| - 1 ensures StepAt(e, i) == stride {
      assert i < |d| - 1 ==> StepAt(e, i) == StepAt(d, i);
    }
  }

  lemma TrackKeepsInv(c: Config, s: Stream, h: seq<Read>, r: Read)
    requires Validate(c) && StreamInv(c, s, h) && Reads(h + [r])
    ensures StreamInv(c, Track(c, s, r.index), h + [r])
  {
    var d := Distinct(h);
    var g := h + [r];
    assert g[..|g| - 1] == h;
    assert Reads(h) by {
      forall i | 0 <= i < |h| ensures IsInt64(h[i].index) {
        assert g[i] == h[i];
      }
    }
    DistinctIs(h);
    assert IsInt64(g[|h|].index);
    if h != [] {
      assert IsInt64(h[|h| - 1].index);
      SameIffNoStride(r.index, s.last);
      hide Wrap64, Accuracy;
      var stride := Wrap64(r.index - s.last);
      if stride != 0 {
        OneMoreRead(d, r.index, if stride == s.stride then s.runs + 2 else 1, stride);
      }
    }
  }

  lemma SameIffNoStride(a: int, b: int)
    requires IsInt64(a) && IsInt64(b)
    ensures Wrap64(a - b) == 0 <==> a == b
  {
  }

  lemma ObserveKeepsInv(c: Config, s: Stream, h: seq<Read>, r: Read)
    requires Validate(c) && StreamInv(c, s, h) && Reads(h + [r])
    ensures StreamInv(c, Observe(c, s, r.index, r.now).0, h + [r])
    ensures StreamInv(c, Judged(c, s, r.index, r.now), h + [r])
  {
    ScoreKeeps(c, s, r.index, r.now);
    var u := Score(c, s, r.index, r.now);
    hide Score, Track, Wrap64, Accuracy, Reads, Distinct, Progression;
    assert StreamInv(c, u, h);
    TrackKeepsInv(c, u, h, r);
  }

  lemma {:induction false} EveryHistoryKeepsInv(c: Config, h: seq<Read>)
    requires Validate(c) && Reads(h)
    ensures StreamInv(c, After(c, h), h)
  {
    if h != [] {
      var front := h[..|h| - 1];
      EveryHistoryKeepsInv(c, front);
      assert h == front + [h[|h| - 1]];
      hide StreamInv, Observe;
      ObserveKeepsInv(c, After(c, front), front, h[|h| - 1]);
    }
  }

  /** A prediction is made only when the last runs + 2 distinct reads, at least as
      many as confirm a stride, step by the same non-zero stride; and only for a
      stream whose recent predictions were read often enough. Its blocks lie ahead
      on that stride, are distinct, and were not outstanding. */
  lemma PredictionIsConfirmed(c: Config, h: seq<Read>)
    requires Validate(c) && Reads(h) && h != [] && PredictedAt(c, h) != []
    ensures var s, out := After(c, h), PredictedAt(c, h);
      && s.stride != 0 && s.runs + 2 >= c.confirmations && Progression(Distinct(h), s.runs + 2, s.stride)
      && !s.muted && (|s.recent| == c.window ==> Accuracy(s.recent) >= c.minAccuracy)
      && NoDup(out)
      && (forall x :: x in out ==> IsAhead(h[|h| - 1].index, s.stride, 1, c.depth, x))
      && (forall x :: x in out ==>
        x !in Judged(c, After(c, h[..|h| - 1]), h[|h| - 1].index, h[|h| - 1].now).outstanding && x in s.outstanding)
  {
    EveryHistoryKeepsInv(c, h);
    var r := h[|h| - 1];
    var t := Judged(c, After(c, h[..|h| - 1]), r.index, r.now);
    hide Judged, NextAt, Accuracy, Progression, Ahead, Distinct, After;
    AheadIsNew(r.index, t.stride, 1, c.depth, t.outstanding.Keys);
  }

  // ---- The mute ----

  /** A stride other than the one that failed has confirmed. */
  ghost predicate AnotherStrideConfirms(c: Config, h: seq<Read>, failed: int)
    requires Validate(c)
  {
    exists stride :: stride != 0 && stride != failed && Progression(Distinct(h), c.confirmations, stride)
  }

  lemma MutedStaysMuted(c: Config, s: Stream, h: seq<Read>, r: Read)
    requires Validate(c) && StreamInv(c, s, h) && Reads(h + [r]) && s.muted
    requires !AnotherStrideConfirms(c, h + [r], s.mutedStride)
    ensures var (u, out) := Observe(c, s, r.index, r.now);
      u.muted && u.mutedStride == s.mutedStride && out == []
  {
    ScoreKeeps(c, s, r.index, r.now);
    ObserveKeepsInv(c, s, h, r);
    var u := Judged(c, s, r.index, r.now);
    hide Score, Wrap64, Accuracy, Reads, Distinct;
    assert !u.muted ==>
      && u.stride != 0 && u.stride != s.mutedStride
      && Progression(Distinct(h + [r]), c.confirmations, u.stride);
  }

  /** While these further reads came, no stride but the one that failed confirmed. */
  ghost predicate NoOtherConfirms(c: Config, h: seq<Read>, more: seq<Read>, failed: int)
    requires Validate(c)
  {
    more == [] || (NoOtherConfirms(c, h, more[..|more| - 1], failed) && !AnotherStrideConfirms(c, h + more, failed))
  }

  /** Once muted, a stream predicts nothing, however long the stride that failed goes
      on, until reads that step by a different one confirm it. */
  lemma {:induction false} MuteSticks(c: Config, h: seq<Read>, more: seq<Read>)
    requires Validate(c) && Reads(h + more) && After(c, h).muted && NoOtherConfirms(c, h, more, After(c, h).mutedStride)
    ensures After(c, h + more).muted && After(c, h + more).mutedStride == After(c, h).mutedStride
    ensures more != [] ==> PredictedAt(c, h + more) == []
    decreases |more|
  {
    hide StreamInv, Observe, AnotherStrideConfirms;
    if more == [] {
      assert h + more == h;
    } else {
      var front, r := more[..|more| - 1], more[|more| - 1];
      var g := h + more;
      assert g[..|g| - 1] == h + front && g == h + front + [r];
      ReadsBefore(h + front, r);
      MuteSticks(c, h, front);
      EveryHistoryKeepsInv(c, h + front);
      MutedStaysMuted(c, After(c, h + front), h + front, r);
    }
  }

  lemma ReadsBefore(h: seq<Read>, r: Read)
    requires Reads(h + [r])
    ensures Reads(h)
  {
    assert forall i :: 0 <= i < |h| ==> (h + [r])[i] == h[i];
  }

  /** The stride that failed, going on alone, never confirms another. */
  lemma SameStrideConfirmsNoOther(c: Config, h: seq<Read>, stride: int, n: nat)
    requires Validate(c) && Progression(Distinct(h), n, stride) && n >= 2
    ensures !AnotherStrideConfirms(c, h, stride)
  {
    var d := Distinct(h);
    hide Distinct, Wrap64;
    forall other | other != stride ensures !Progression(d, c.confirmations, other) {
      assert StepAt(d, |d| - 2) == stride;
    }
  }

  // ---- Exactly when a stream is predicted ----

  /** The run reaches back as far as the stride does. */
  ghost predicate RunIsLongest(s: Stream, d: seq<int>) {
    && (|d| >= 2 <==> s.stride != 0)
    && (s.stride != 0 ==> |d| >= s.runs + 2)
    && (|d| > s.runs + 2 ==> StepAt(d, |d| - s.runs - 3) != s.stride)
  }

  lemma LongestGrows(s: Stream, d: seq<int>, x: int, u: Stream)
    requires d != [] && RunIsLongest(s, d) && (s.stride != 0 ==> Progression(d, s.runs + 2, s.stride))
    requires s.stride == 0 ==> s.runs == 0
    requires var step := Wrap64(x - d[|d| - 1]);
      step != 0 && u.stride == step && u.runs == if step == s.stride then s.runs + 1 else 0
    ensures RunIsLongest(u, d + [x])
  {
    hide Wrap64, Progression;
    var e := d + [x];
    assert forall i :: 0 <= i < |d| - 1 ==> StepAt(e, i) == StepAt(d, i);
    if |d| >= 2 {
      LastStep(d, s.runs + 2, s.stride);
    }
  }

  lemma LastStep(d: seq<int>, n: nat, stride: int)
    requires n >= 2 && Progression(d, n, stride)
    ensures StepAt(d, |d| - 2) == stride
  {
    hide StepAt;
  }

  lemma DistinctGrows(h: seq<Read>, r: Read)
    ensures Distinct(h + [r]) == if h != [] && h[|h| - 1].index == r.index then Distinct(h) else Distinct(h) + [r.index]
  {
    DistinctIs(h);
    assert (h + [r])[..|h + [r]| - 1] == h;
  }

  lemma TrackKeepsLongest(c: Config, s: Stream, h: seq<Read>, r: Read)
    requires Validate(c) && StreamInv(c, s, h) && Reads(h + [r]) && !s.muted && RunIsLongest(s, Distinct(h))
    ensures RunIsLongest(Track(c, s, r.index), Distinct(h + [r]))
  {
    DistinctIs(h);
    DistinctGrows(h, r);
    hide Distinct, RunIsLongest, Progression, Accuracy, Wrap64;
    if h == [] {
      FirstRead(s, r.index, Track(c, s, r.index));
    } else {
      assert (h + [r])[|h| - 1] == h[|h| - 1] && (h + [r])[|h|] == r;
      SameIffNoStride(r.index, s.last);
      if r.index == s.last {
        SameRun(s, Track(c, s, r.index), Distinct(h));
      } else {
        LongestGrows(s, Distinct(h), r.index, Track(c, s, r.index));
      }
    }
  }

  lemma FirstRead(s: Stream, x: int, u: Stream)
    requires RunIsLongest(s, []) && u.stride == s.stride
    ensures RunIsLongest(u, [] + [x])
  {
  }

  lemma SameRun(s: Stream, u: Stream, d: seq<int>)
    requires RunIsLongest(s, d) && u.stride == s.stride && u.runs == s.runs
    ensures RunIsLongest(u, d)
  {
    hide StepAt;
  }

  ghost predicate NeverMuted(c: Config, h: seq<Read>)
    requires Validate(c)
  {
    !After(c, h).muted && (h == [] || NeverMuted(c, h[..|h| - 1]))
  }

  lemma {:induction false} LongestUnlessMuted(c: Config, h: seq<Read>)
    requires Validate(c) && Reads(h) && NeverMuted(c, h)
    ensures RunIsLongest(After(c, h), Distinct(h))
  {
    hide Observe, Distinct, RunIsLongest, StreamInv, NeverMuted, After;
    if h == [] {
      NoReads(c);
    } else {
      var front, r := h[..|h| - 1], h[|h| - 1];
      assert h == front + [r];
      ReadsBefore(front, r);
      OneReadLess(c, h);
      LongestUnlessMuted(c, front);
      EveryHistoryKeepsInv(c, front);
      ObserveKeepsLongest(c, After(c, front), front, r);
    }
  }

  lemma NoReads(c: Config)
    requires c.window > 0
    ensures RunIsLongest(After(c, []), Distinct([]))
  {
  }

  lemma OneReadLess(c: Config, h: seq<Read>)
    requires Validate(c) && h != [] && NeverMuted(c, h)
    ensures NeverMuted(c, h[..|h| - 1]) && !After(c, h[..|h| - 1]).muted && !After(c, h).muted
    ensures After(c, h) == Observe(c, After(c, h[..|h| - 1]), h[|h| - 1].index, h[|h| - 1].now).0
  {
    hide Observe;
  }

  lemma ObserveKeepsLongest(c: Config, s: Stream, h: seq<Read>, r: Read)
    requires Validate(c) && StreamInv(c, s, h) && Reads(h + [r]) && RunIsLongest(s, Distinct(h))
    requires !s.muted && !Observe(c, s, r.index, r.now).0.muted
    ensures RunIsLongest(Observe(c, s, r.index, r.now).0, Distinct(h + [r]))
  {
    hide Score, Accuracy, Wrap64, Distinct, RunIsLongest, Progression, Ahead, Noted;
    ScoreKeeps(c, s, r.index, r.now);
    var u := Score(c, s, r.index, r.now);
    assert !u.muted && StreamInv(c, u, h);
    SameRun(s, u, Distinct(h));
    TrackKeepsLongest(c, u, h, r);
    SameRun(Track(c, u, r.index), Observe(c, s, r.index, r.now).0, Distinct(h + [r]));
  }

  /** A stream never muted is predicted exactly when its last reads, as many as
      confirm a stride, step by one non-zero stride. */
  lemma PredictsExactly(c: Config, h: seq<Read>)
    requires Validate(c) && Reads(h) && NeverMuted(c, h)
    ensures Predicts(c, After(c, h)) <==>
      exists stride :: stride != 0 && Progression(Distinct(h), c.confirmations, stride)
  {
    EveryHistoryKeepsInv(c, h);
    LongestUnlessMuted(c, h);
    DistinctIs(h);
    hide After, Distinct, StepAt, Accuracy;
    LongestRunConfirms(c, After(c, h), Distinct(h));
  }

  lemma LongestRunConfirms(c: Config, s: Stream, d: seq<int>)
    requires Validate(c) && RunIsLongest(s, d) && (s.stride != 0 ==> Progression(d, s.runs + 2, s.stride))
    requires s.stride == 0 ==> s.runs == 0
    ensures s.runs + 2 >= c.confirmations <==> exists stride :: stride != 0 && Progression(d, c.confirmations, stride)
  {
    hide StepAt;
    if s.runs + 2 >= c.confirmations {
      assert Progression(d, c.confirmations, s.stride);
    }
    forall stride | stride != 0 && Progression(d, c.confirmations, stride) ensures s.runs + 2 >= c.confirmations {
      LastStep(d, c.confirmations, stride);
      LastStep(d, s.runs + 2, s.stride);
    }
  }
}
