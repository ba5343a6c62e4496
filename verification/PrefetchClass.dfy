/** The detector as objects: streams updated in place, with the loops of score and
    of prediction, each proved against what the stream becomes. */
module PrefetchClass {
  import opened Common
  import opened Prefetch

  class Reader {
    var last: int
    var stride: int
    var runs: nat
    var started: bool
    var outstanding: map<int, int>
    var recent: seq<bool>
    var muted: bool
    var mutedStride: int

    ghost function State(): Stream
      reads this
    {
      Stream(last, stride, runs, started, outstanding, recent, muted, mutedStride)
    }

    constructor ()
      ensures State() == NewStream()
    {
      last, stride, runs, started := 0, 0, 0, false;
      outstanding, recent, muted, mutedStride := map[], [], false, 0;
    }
  }

  method Share(recent: seq<bool>) returns (r: real)
    requires recent != []
    ensures r == Accuracy(recent)
  {
    var read, i := 0, 0;
    while i < |recent|
      invariant 0 <= i <= |recent| && read == CountRead(recent[..i])
    {
      assert recent[..i + 1][..i] == recent[..i];
      if recent[i] {
        read := read + 1;
      }
      i := i + 1;
    }
    assert recent[..i] == recent;
    r := read as real / |recent| as real;
  }

  method Windowed(all: seq<bool>, window: int) returns (recent: seq<bool>)
    requires window > 0
    ensures recent == LastOf(all, window)
  {
    recent := all;
    if |recent| > window {
      recent := recent[|recent| - window..];
    }
  }

  /** A full window whose share of reads is under the floor. */
  method TooFewRead(recent: seq<bool>, c: Config) returns (bad: bool)
    requires c.window > 0
    ensures bad == (|recent| >= c.window && Accuracy(recent) < c.minAccuracy)
  {
    hide Accuracy;
    if |recent| < c.window {
      return false;
    }
    var share := Share(recent);
    bad := share < c.minAccuracy;
  }

  class Detector {
    const cfg: Config
    var streams: map<string, Reader>

    ghost predicate Valid()
      reads this
    {
      Validate(cfg) && forall a, b :: a in streams && b in streams && streams[a] == streams[b] ==> a == b
    }

    constructor (cfg: Config)
      requires Validate(cfg)
      ensures Valid() && streams == map[] && this.cfg == cfg
    {
      this.cfg, streams := cfg, map[];
    }

    method DoRecord(s: Reader, read: bool)
      requires cfg.window > 0
      modifies s
      ensures s.State() == Record(cfg, old(s.State()), read)
    {
      hide Accuracy, LastOf;
      var recent := Windowed(s.recent + [read], cfg.window);
      var bad := TooFewRead(recent, cfg);
      s.recent := recent;
      if !s.muted && bad {
        s.muted, s.mutedStride := true, s.stride;
        s.outstanding := map[];
        s.stride, s.runs := 0, 0;
      }
    }

    /** score: the predictions are visited in any order, and over the map as it was
        even when a miss replaces it. */
    method DoScore(s: Reader, index: int, now: int)
      requires cfg.window > 0
      modifies s
      ensures s.State() == Score(cfg, old(s.State()), index, now)
    {
      hide Record, RecordMisses, Condemned, Overdue, Judging;
      if index in s.outstanding {
        s.outstanding := s.outstanding - {index};
        DoRecord(s, true);
      }
      ghost var hit := s.State();
      var ranged := s.outstanding;
      var left := ranged.Keys;
      ghost var gone: set<int> := {};
      NothingCondemned(cfg, hit);
      StartJudging(cfg, ranged, now);
      while left != {}
        invariant Judging(cfg, ranged, now, left, gone) && s.State() == Condemned(cfg, hit, gone)
        decreases |left|
      {
        NotEmpty(left);
        var at :| at in left;
        JudgeOne(cfg, ranged, now, left, gone, at);
        left := left - {at};
        if now - ranged[at] >= cfg.patience {
          CondemnOne(cfg, hit, gone, at);
          s.outstanding := s.outstanding - {at};
          DoRecord(s, false);
          gone := gone + {at};
        }
      }
      EndJudging(cfg, ranged, now, left, gone);
    }

    method DoTrack(s: Reader, index: int)
      modifies s
      ensures s.State() == Track(cfg, old(s.State()), index)
    {
      hide Wrap64;
      if !s.started {
        s.last, s.started := index, true;
        return;
      }
      var stride := Wrap64(index - s.last);
      s.last := index;
      if stride == 0 {
        return;
      }
      if stride == s.stride {
        s.runs := s.runs + 1;
        if s.muted && stride != s.mutedStride && s.runs + 2 >= cfg.confirmations {
          s.muted := false;
          s.recent := [];
        }
        return;
      }
      s.stride, s.runs := stride, 0;
    }

    /** The prediction loop of Observe. */
    method Predict(s: Reader, index: int, now: int) returns (out: seq<int>)
      modifies s
      ensures out == Ahead(index, old(s.stride), 1, cfg.depth, old(s.outstanding.Keys))
      ensures s.State() == old(s.State()).(outstanding := Noted(old(s.outstanding), out, now))
    {
      hide NextAt, Ahead, Noted, AheadFrom;
      out := [];
      ghost var t := s.State();
      var i := 1;
      NothingAhead(t, index, cfg.depth, now);
      while i <= cfg.depth
        invariant AheadFrom(t, s.State(), index, i, cfg.depth, out, now)
        decreases cfg.depth - i
      {
        AheadSteps(t, s.State(), index, i, cfg.depth, out, now);
        var next := NextAt(index, s.stride, i);
        if next !in s.outstanding {
          s.outstanding := s.outstanding[next := now];
          out := out + [next];
        }
        i := i + 1;
      }
      AheadEnds(t, s.State(), index, i, cfg.depth, out, now);
    }

    /** Observe: only the stream read changes, and predictions stay within it. */
    method DoObserve(name: string, index: int, now: int) returns (out: seq<int>)
      requires Valid()
      modifies this, set x | x in streams :: streams[x]
      ensures Valid() && streams.Keys == old(streams.Keys) + {name}
      ensures (streams[name].State(), out) ==
        Observe(cfg, if name in old(streams) then old(streams[name].State()) else NewStream(), index, now)
      ensures forall x :: x in old(streams) && x != name ==>
        streams[x] == old(streams)[x] && streams[x].State() == old(streams[x].State())
    {
      hide Score, Track, Noted, Ahead;
      var s;
      if name in streams {
        s := streams[name];
      } else {
        s := new Reader();
        streams := streams[name := s];
      }
      DoScore(s, index, now);
      DoTrack(s, index);
      if !s.started || s.runs + 2 < cfg.confirmations || s.muted {
        NothingNoted(s.outstanding, now);
        return [];
      }
      out := Predict(s, index, now);
    }

    method Forget(name: string)
      requires Valid()
      modifies this
      ensures Valid() && streams == old(streams) - {name}
    {
      streams := streams - {name};
    }
  }

  lemma NotEmpty(left: set<int>)
    requires left != {}
    ensures exists at :: at in left
  {
    assert (forall at :: at !in left) ==> left == {};
  }

  /** Of the predictions ranged over, those still to be looked at and those condemned. */
  ghost predicate Judging(c: Config, ranged: map<int, int>, now: int, left: set<int>, gone: set<int>) {
    left <= ranged.Keys && gone == Overdue(c, ranged, now) - left
  }

  lemma StartJudging(c: Config, ranged: map<int, int>, now: int)
    ensures Judging(c, ranged, now, ranged.Keys, {})
  {
  }

  lemma JudgeOne(c: Config, ranged: map<int, int>, now: int, left: set<int>, gone: set<int>, at: int)
    requires Judging(c, ranged, now, left, gone) && at in left
    ensures at in ranged && at !in gone
    ensures Judging(c, ranged, now, left - {at}, if now - ranged[at] >= c.patience then gone + {at} else gone)
  {
  }

  lemma EndJudging(c: Config, ranged: map<int, int>, now: int, left: set<int>, gone: set<int>)
    requires Judging(c, ranged, now, left, gone) && left == {}
    ensures gone == Overdue(c, ranged, now)
  {
    hide Overdue;
  }

  lemma NothingCondemned(c: Config, s: Stream)
    requires c.window > 0
    ensures Condemned(c, s, {}) == s
  {
    assert s.outstanding - {} == s.outstanding;
  }

  /** The prediction loop from t, about to look at the i-th block ahead. */
  ghost predicate AheadFrom(t: Stream, s: Stream, index: int, i: int, depth: int, out: seq<int>, now: int) {
    && s == t.(outstanding := Noted(t.outstanding, out, now))
    && out + Ahead(index, t.stride, i, depth, s.outstanding.Keys) ==
      Ahead(index, t.stride, 1, depth, t.outstanding.Keys)
  }

  lemma NothingAhead(t: Stream, index: int, depth: int, now: int)
    ensures AheadFrom(t, t, index, 1, depth, [], now)
  {
    hide Ahead;
    NothingNoted(t.outstanding, now);
  }

  lemma AheadSteps(t: Stream, s: Stream, index: int, i: int, depth: int, out: seq<int>, now: int)
    requires AheadFrom(t, s, index, i, depth, out, now) && i <= depth
    ensures var next := NextAt(index, s.stride, i);
      if next in s.outstanding then AheadFrom(t, s, index, i + 1, depth, out, now)
      else AheadFrom(t, s.(outstanding := s.outstanding[next := now]), index, i + 1, depth, out + [next], now)
  {
    hide NextAt, Noted;
    var next := NextAt(index, s.stride, i);
    NotedOne(t.outstanding, out, now, next);
    if next !in s.outstanding {
      var rest := Ahead(index, t.stride, i + 1, depth, s.outstanding.Keys + {next});
      assert out + ([next] + rest) == (out + [next]) + rest;
    }
  }

  lemma AheadEnds(t: Stream, s: Stream, index: int, i: int, depth: int, out: seq<int>, now: int)
    requires AheadFrom(t, s, index, i, depth, out, now) && i > depth
    ensures out == Ahead(index, t.stride, 1, depth, t.outstanding.Keys)
    ensures s == t.(outstanding := Noted(t.outstanding, out, now))
  {
    assert Ahead(index, t.stride, i, depth, s.outstanding.Keys) == [];
    hide Ahead;
    assert out + [] == out;
  }

  lemma NothingNoted(m: map<int, int>, now: int)
    ensures Noted(m, [], now) == m
  {
  }

  lemma NotedOne(m: map<int, int>, out: seq<int>, now: int, next: int)
    ensures Noted(m, out + [next], now) == Noted(m, out, now)[next := now]
    ensures Noted(m, out + [next], now).Keys == Noted(m, out, now).Keys + {next}
  {
  }
}
