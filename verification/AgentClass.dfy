/** The agent as an object: startup, and the sequential code of grant, release and
    reclaim over its lease manager and the borrowed pool's directory. What the
    filesystem refuses is given to each method. */
module AgentClass {
  import opened Common
  import opened Leases
  import opened ReclaimHistory
  import opened LeaseManager
  import opened ManagerClass
  import opened PoolNames
  import opened NameLists

  class PoolDir {
    var names: set<string>

    constructor (names: set<string>)
      ensures this.names == names
    {
      this.names := names;
    }
  }

  /** What startup had to correct, each list in the order of its names. */
  datatype Reconciliation = Reconciliation(
    invalidated: seq<string>, leftovers: seq<string>, orphans: seq<string>, missing: seq<string>)

  /** What an Open meets: which entries can be unlinked and how each release of a
      missing lease is saved. */
  datatype Weather = Weather(readable: bool, reset: Saving, removable: set<string>, saves: map<string, Saving>)

  function SaveOf(w: Weather, id: string): Saving {
    if id in w.saves then w.saves[id] else Saved
  }

  /** What reconcile keeps of a directory, and of the leases. */
  function KeptNames(names: set<string>, live: set<string>): set<string> {
    set name | name in names && (Spared(name) || (!AgentFile(name) && name in live))
  }

  function ExtentsIn(names: set<string>): set<string> {
    set name | name in names && !AgentFile(name) && !Spared(name)
  }

  function LeftoversIn(names: set<string>): set<string> {
    set name | name in names && AgentFile(name) && !Spared(name)
  }

  /** Extents nobody holds, but for those an interrupted discard explains. */
  function OrphansIn(names: set<string>, live: set<string>): set<string> {
    set name | name in names && !AgentFile(name) && !Spared(name) && name !in live && !HasSuffix(name, INVALID_SUFFIX)
  }

  lemma OneMoreSwept(done: set<string>, name: string, live: set<string>)
    requires name !in done
    ensures KeptNames(done + {name}, live) ==
      KeptNames(done, live) + if Spared(name) || (!AgentFile(name) && name in live) then {name} else {}
    ensures ExtentsIn(done + {name}) == ExtentsIn(done) + if AgentFile(name) || Spared(name) then {} else {name}
    ensures LeftoversIn(done + {name}) == LeftoversIn(done) + if AgentFile(name) && !Spared(name) then {name} else {}
    ensures OrphansIn(done + {name}, live) == OrphansIn(done, live) +
      if !AgentFile(name) && !Spared(name) && name !in live && !HasSuffix(name, INVALID_SUFFIX) then {name} else {}
    ensures name !in KeptNames(done, live) && KeptNames(done, live) <= done
  {
    hide AgentFile, Spared, HasSuffix;
  }

  lemma Moved(todo: set<string>, kept: set<string>, name: string)
    requires name in todo && name !in kept
    ensures todo + kept == (todo - {name}) + (kept + {name}) && todo + kept - {name} == (todo - {name}) + kept
    ensures kept + {} == kept && name in todo + kept
  {
  }

  /** The sweep of a directory with only `todo` left to look at. */
  ghost predicate SweptTo(
    all: set<string>, live: set<string>, todo: set<string>,
    names: set<string>, seen: set<string>, leftovers: set<string>, orphans: set<string>)
  {
    && todo <= all && names == todo + KeptNames(all - todo, live)
    && seen == ExtentsIn(all - todo) && leftovers == LeftoversIn(all - todo) && orphans == OrphansIn(all - todo, live)
  }

  lemma NothingSwept(all: set<string>, live: set<string>)
    ensures SweptTo(all, live, all, all, {}, {}, {})
  {
    assert all - all == {};
  }

  lemma AllSwept(
    all: set<string>, live: set<string>, todo: set<string>,
    names: set<string>, seen: set<string>, leftovers: set<string>, orphans: set<string>)
    requires todo == {} && SweptTo(all, live, todo, names, seen, leftovers, orphans)
    ensures names == KeptNames(all, live) && seen == ExtentsIn(all) && leftovers == LeftoversIn(all)
    ensures orphans == OrphansIn(all, live)
    ensures names <= all
  {
    hide AgentFile, Spared, HasSuffix;
    assert all - todo == all;
  }

  lemma EntrySwept(
    all: set<string>, live: set<string>, todo: set<string>,
    names: set<string>, seen: set<string>, leftovers: set<string>, orphans: set<string>, name: string)
    requires name in todo && SweptTo(all, live, todo, names, seen, leftovers, orphans)
    ensures Spared(name) ==> SweptTo(all, live, todo - {name}, names, seen, leftovers, orphans)
    ensures !Spared(name) && AgentFile(name) ==>
      SweptTo(all, live, todo - {name}, names - {name}, seen, leftovers + {name}, orphans)
    ensures !Spared(name) && !AgentFile(name) && name in live ==>
      SweptTo(all, live, todo - {name}, names, seen + {name}, leftovers, orphans)
    ensures !Spared(name) && !AgentFile(name) && name !in live ==>
      SweptTo(all, live, todo - {name}, names - {name}, seen + {name}, leftovers,
        if HasSuffix(name, INVALID_SUFFIX) then orphans else orphans + {name})
    ensures KeptNames(all, live) <= names <= all
  {
    hide AgentFile, Spared, HasSuffix;
    var done := all - todo;
    OneMoreSwept(done, name, live);
    assert all - (todo - {name}) == done + {name};
    Moved(todo, KeptNames(done, live), name);
    assert KeptNames(all, live) <= todo + KeptNames(done, live) <= all;
    hide KeptNames, ExtentsIn, LeftoversIn, OrphansIn;
    assert seen + {} == seen && leftovers + {} == leftovers && orphans + {} == orphans;
  }

  /** Leases gone and to go, of those without an extent. */
  ghost predicate DroppedTo(
    held: LeaseMap, seen: set<string>, but: set<string>, todo: set<string>, gone: set<string>, leases: LeaseMap,
    missing: set<string>)
  {
    gone !! todo && gone + todo == held.Keys - seen && leases == held - gone && missing == gone - but
  }

  lemma NoneDropped(held: LeaseMap, seen: set<string>, but: set<string>)
    ensures DroppedTo(held, seen, but, held.Keys - seen, {}, held, {})
  {
  }

  lemma OneDropped(
    held: LeaseMap, seen: set<string>, but: set<string>, todo: set<string>, gone: set<string>, leases: LeaseMap,
    missing: set<string>,
    id: string)
    requires id in todo && DroppedTo(held, seen, but, todo, gone, leases, missing)
    ensures DroppedTo(held, seen, but, todo - {id}, gone + {id}, leases - {id},
      if id in but then missing else missing + {id})
    ensures id in leases
    ensures forall x :: x in held && x in seen ==> x in leases - {id} && leases[x] == held[x]
  {
    assert held - gone - {id} == held - (gone + {id});
    assert gone + {id} !! todo - {id} && (gone + {id}) + (todo - {id}) == gone + todo;
    assert gone + {id} - but == (gone - but) + if id in but then {} else {id};
  }

  lemma AllDropped(
    held: LeaseMap, seen: set<string>, but: set<string>, todo: set<string>, gone: set<string>, leases: LeaseMap,
    missing: set<string>)
    requires todo == {} && DroppedTo(held, seen, but, todo, gone, leases, missing)
    ensures leases == (map id | id in held && id in seen :: held[id])
    ensures missing == set id | id in held && id !in seen && id !in but
  {
  }

  predicate HasExtent(names: set<string>, id: string) {
    id in names && !AgentFile(id) && !Spared(id)
  }

  ghost function KeptLeases(names: set<string>, m: LeaseMap): LeaseMap {
    map id | id in m && HasExtent(names, id) :: m[id]
  }

  ghost predicate Interrupted(names: set<string>, id: string) {
    Invalidated(id) in names
  }

  function InvalidatedIn(names: set<string>): set<string> {
    set name | name in names && HasSuffix(name, INVALID_SUFFIX)
  }

  /** Leases without an extent, but for those an interrupted discard explains. */
  ghost function MissingIn(names: set<string>, m: LeaseMap): set<string> {
    set id | id in m && !HasExtent(names, id) && !Interrupted(names, id)
  }

  lemma NothingListed(all: seq<string>)
    ensures PartOf([], {}, all, 0)
  {
  }

  lemma PartLists(part: seq<string>, names: set<string>, all: seq<string>, i: nat)
    requires i <= |all| && PartOf(part, names, all, i)
    ensures Lists(part, names)
  {
  }

  class Agent {
    const manager: Manager
    const dir: PoolDir

    constructor (manager: Manager, dir: PoolDir)
      ensures this.manager == manager && this.dir == dir
    {
      this.manager, this.dir := manager, dir;
    }

    /** Journal and disk agree. */
    ghost predicate Agrees()
      reads manager, dir
    {
      Books(manager.State()) && (set name | name in dir.names && !Spared(name)) == manager.leases.Keys
    }

    /** Unlink every entry nothing accounts for, and note the extents seen. */
    method Sweep(w: Weather, entries: seq<string>)
      returns (seen: set<string>, leftovers: seq<string>, orphans: seq<string>, ok: bool)
      requires Lists(entries, dir.names)
      modifies dir
      ensures KeptNames(old(dir.names), manager.leases.Keys) <= dir.names <= old(dir.names)
      ensures ok ==> dir.names == KeptNames(old(dir.names), manager.leases.Keys) && seen == ExtentsIn(old(dir.names))
      ensures ok ==>
        && Lists(leftovers, LeftoversIn(old(dir.names)))
        && Lists(orphans, OrphansIn(old(dir.names), manager.leases.Keys))
    {
      hide AgentFile, Spared, HasSuffix, KeptNames, ExtentsIn, LeftoversIn, OrphansIn, SweptTo, Ascending, PartOf;
      ghost var all, live := dir.names, manager.leases.Keys;
      ghost var left, lost: set<string> := {}, {};
      var i := 0;
      seen, leftovers, orphans := {}, [], [];
      NothingSwept(all, live);
      NothingListed(entries);
      assert entries[0..] == entries;
      while i < |entries|
        invariant 0 <= i <= |entries| && SweptTo(all, live, Elems(entries[i..]), dir.names, seen, left, lost)
        invariant PartOf(leftovers, left, entries, i) && PartOf(orphans, lost, entries, i)
      {
        var name := entries[i];
        Drops(entries, i);
        EntrySwept(all, live, Elems(entries[i..]), dir.names, seen, left, lost, name);
        PartGrows(leftovers, left, entries, i);
        PartGrows(orphans, lost, entries, i);
        i := i + 1;
        if Spared(name) {
        } else if AgentFile(name) {
          if name !in w.removable {
            return seen, leftovers, orphans, false;
          }
          dir.names := dir.names - {name};
          leftovers, left := leftovers + [name], left + {name};
        } else {
          seen := seen + {name};
          if name !in manager.leases {
            if name !in w.removable {
              return seen, leftovers, orphans, false;
            }
            dir.names := dir.names - {name};
            if !HasSuffix(name, INVALID_SUFFIX) {
              orphans, lost := orphans + [name], lost + {name};
            }
          }
        }
      }
      AllSwept(all, live, Elems(entries[i..]), dir.names, seen, left, lost);
      PartLists(leftovers, left, entries, i);
      PartLists(orphans, lost, entries, i);
      ok := true;
    }

    /** Release every lease whose extent was not seen, in order of their names. */
    method DropMissing(seen: set<string>, w: Weather, interrupted: set<string>) returns (missing: seq<string>, ok: bool)
      requires Books(manager.State())
      modifies manager, manager.journal
      ensures Books(manager.State())
      ensures manager.restored == old(manager.restored) && manager.reclaims == old(manager.reclaims)
      ensures ok ==>
        && manager.leases == (map id | id in old(manager.leases) && id in seen :: old(manager.leases)[id])
        && Lists(missing, set id | id in old(manager.leases) && id !in seen && id !in interrupted)
      ensures !ok ==> forall id :: id in old(manager.leases) && id in seen ==>
        id in manager.leases && manager.leases[id] == old(manager.leases)[id]
    {
      hide Books, Ladder, FileAfter, LeaseManager.Release, DroppedTo, Ascending, PartOf;
      ghost var held, m := manager.leases, manager.State();
      var order := InOrder(manager.leases.Keys - seen);
      ghost var gone, named: set<string> := {}, {};
      missing := [];
      var i := 0;
      NoneDropped(held, seen, interrupted);
      NothingListed(order);
      assert order[0..] == order;
      while i < |order|
        invariant 0 <= i <= |order| && Books(manager.State())
        invariant DroppedTo(held, seen, interrupted, Elems(order[i..]), gone, manager.leases, named)
        invariant PartOf(missing, named, order, i)
        invariant manager.restored == m.restored && manager.reclaims == m.reclaims
      {
        var id := order[i];
        Drops(order, i);
        PartGrows(missing, named, order, i);
        OneDropped(held, seen, interrupted, Elems(order[i..]), gone, manager.leases, named, id);
        ReleaseIs(manager.State(), id);
        var size, saved := manager.Release(id, SaveOf(w, id));
        gone, i := gone + {id}, i + 1;
        if !saved {
          return missing, false;
        }
        if id !in interrupted {
          missing, named := missing + [id], named + {id};
        }
      }
      AllDropped(held, seen, interrupted, Elems(order[i..]), gone, manager.leases, named);
      PartLists(missing, named, order, i);
      ok := true;
    }

    /** invalidatedExtents. */
    method Invalidations(entries: seq<string>, ghost names: set<string>) returns (out: seq<string>)
      requires Lists(entries, names)
      ensures Lists(out, InvalidatedIn(names))
    {
      hide HasSuffix, Ascending;
      out := [];
      ghost var got: set<string> := {};
      var i := 0;
      NothingListed(entries);
      while i < |entries|
        invariant 0 <= i <= |entries| && PartOf(out, got, entries, i) && got == InvalidatedIn(Elems(entries[..i]))
      {
        PartGrows(out, got, entries, i);
        assert entries[..i + 1] == entries[..i] + [entries[i]];
        hide PartOf;
        if HasSuffix(entries[i], INVALID_SUFFIX) {
          out, got := out + [entries[i]], got + {entries[i]};
        }
        i := i + 1;
      }
      assert entries[..i] == entries;
    }

    /** Make journal and disk agree, both ways, and report each thing once. */
    method Reconcile(w: Weather) returns (rec: Reconciliation, ok: bool)
      requires Books(manager.State())
      modifies manager, manager.journal, dir
      ensures Books(manager.State())
      ensures ok ==>
        && dir.names == KeptNames(old(dir.names), old(manager.leases.Keys))
        && manager.leases == KeptLeases(old(dir.names), old(manager.leases))
        && Agrees()
      ensures ok ==>
        && Lists(rec.invalidated, InvalidatedIn(old(dir.names)))
        && Lists(rec.leftovers, LeftoversIn(old(dir.names)))
        && Lists(rec.orphans, OrphansIn(old(dir.names), old(manager.leases.Keys)))
        && Lists(rec.missing, MissingIn(old(dir.names), old(manager.leases)))
      // no extent of a lease held, and no lease with an extent, is ever lost
      ensures KeptNames(old(dir.names), old(manager.leases.Keys)) <= dir.names <= old(dir.names)
      ensures forall id :: id in old(manager.leases) && HasExtent(old(dir.names), id) ==>
        id in manager.leases && manager.leases[id] == old(manager.leases)[id]
      ensures manager.restored == old(manager.restored) && manager.reclaims == old(manager.reclaims)
    {
      hide AgentFile, Spared, HasSuffix, Books, Invalidated, Lists, InvalidatedIn, LeftoversIn, OrphansIn;
      ghost var all, held := dir.names, manager.leases;
      var entries := InOrder(dir.names);
      var invalidated := Invalidations(entries, dir.names);
      var interrupted := set id | id in manager.leases && Invalidated(id) in dir.names;
      var seen, leftovers, orphans, swept := Sweep(w, entries);
      rec := Reconciliation(invalidated, leftovers, orphans, []);
      if !swept {
        return rec, false;
      }
      var missing, dropped := DropMissing(seen, w, interrupted);
      rec := rec.(missing := missing);
      ok := dropped;
      if ok {
        assert manager.leases == KeptLeases(all, held);
        assert MissingIn(all, held) == set id | id in held && id !in seen && id !in interrupted;
      }
    }

    /** Grant: the manager decides, then the extent is made, and a failure gives the
        lease back. */
    method Grant(l: Lease, now: int, save: Saving, creates: bool, reserves: AllocStep, undo: Saving) returns (ok: bool)
      requires manager.Valid()
      modifies manager, manager.journal, dir
      ensures manager.Valid()
      ensures ok <==>
        && LeaseManager.Accept(old(manager.State()), l, now, save).1.None?
        && ValidLeaseId(l.id) && l.id !in old(dir.names) && creates && reserves == Reserved
      ensures ok ==>
        manager.State() == Granted(Pruned(old(manager.State()), now), l, now) && dir.names == old(dir.names) + {l.id}
      ensures !ok ==> manager.leases == old(manager.leases) && manager.acct == old(manager.acct)
      ensures !ok ==>
        dir.names == old(dir.names) || (reserves in {CloseFails, NotRemoved} && dir.names == old(dir.names) + {l.id})
    {
      hide MgrInv, ValidLeaseId, LeaseManager.Accept, Ladder, FileAfter, Granted, Pruned, LeaseManager.Release;
      ghost var m := manager.State();
      AcceptThenRelease(m, l, now, save);
      var no := manager.Accept(l, now, save);
      if no.Some? {
        return false;
      }
      ok := Allocate(l.id, creates, reserves);
      if !ok {
        BooksHold(manager.State());
        var size, released := manager.Release(l.id, undo);
      }
    }

    /** allocate: O_EXCL, so an extent already there is never adopted. */
    method Allocate(id: string, creates: bool, reserves: AllocStep) returns (ok: bool)
      modifies dir
      ensures ok <==> ValidLeaseId(id) && id !in old(dir.names) && creates && reserves == Reserved
      ensures dir.names == old(dir.names) || dir.names == old(dir.names) + {id}
      ensures ok ==> dir.names == old(dir.names) + {id}
      ensures !ok && dir.names != old(dir.names) ==> reserves in {CloseFails, NotRemoved}
    {
      hide ValidLeaseId;
      if !ValidLeaseId(id) || id in dir.names || !creates {
        return false;
      }
      ghost var was := dir.names;
      dir.names := dir.names + {id};
      match reserves
      case Removed =>
        dir.names := dir.names - {id};
        assert dir.names == was;
        return false;
      case NotRemoved => return false;
      case CloseFails => return false;
      case Reserved => return true;
    }

    /** discard: renamed out of reach, then unlinked. */
    method Discard(id: string, d: DiscardStep) returns (r: DiscardResult)
      modifies dir
      ensures (dir.names, r) == Discarded(old(dir.names), id, d)
    {
      hide ValidLeaseId, Invalidated;
      if !ValidLeaseId(id) {
        return Broken;
      }
      if id !in dir.names {
        return NoExtent;
      }
      if d == NotRenamed {
        return Broken;
      }
      dir.names := dir.names - {id} + {Invalidated(id)};
      if d == NotUnlinked {
        return Broken;
      }
      assert dir.names - {Invalidated(id)} == old(dir.names) - {id} - {Invalidated(id)};
      dir.names := dir.names - {Invalidated(id)};
      r := Gone;
    }

    /** Release: the extent before the accounting, and no accounting without it. */
    method Release(id: string, d: DiscardStep, save: Saving) returns (size: Option<int>, ok: bool)
      requires manager.Valid()
      modifies manager, manager.journal, dir
      ensures manager.Valid() && dir.names == Discarded(old(dir.names), id, d).0
      ensures manager.State() ==
        if Discarded(old(dir.names), id, d).1 == Gone then LeaseManager.Release(old(manager.State()), id)
        else old(manager.State())
      ensures ok <==> Discarded(old(dir.names), id, d).1 == Gone && id in old(manager.leases) && save == Saved
    {
      hide MgrInv, Books, Discarded, Ladder, FileAfter, LeaseManager.Release;
      var r := Discard(id, d);
      if r != Gone {
        return None, false;
      }
      BooksHold(manager.State());
      size, ok := manager.Release(id, save);
    }

    /** ReclaimCapacity: the manager chooses, and every extent it chose is
        discarded, one that will not go being named and passed over. */
    method ReclaimCapacity(need: int, now: int, save: Saving, ds: map<string, DiscardStep>)
      returns (o: Outcome, failed: seq<string>)
      requires manager.Valid()
      modifies manager, manager.journal, dir
      ensures manager.Valid() && (manager.State(), o) == LeaseManager.Reclaim(old(manager.State()), need, now)
      ensures (dir.names, failed) == DiscardedAll(old(dir.names), o.dropped, ds)
      ensures forall id :: id in o.dropped && id in dir.names ==> id in failed
    {
      hide MgrInv, LeaseManager.Reclaim, Ladder, FileAfter, DiscardedAll;
      o := manager.Reclaim(need, now, save);
      WhatStaysIsNamed(dir.names, o.dropped, ds);
      failed := DiscardAll(o.dropped, ds);
    }

    method DiscardAll(ids: seq<string>, ds: map<string, DiscardStep>) returns (failed: seq<string>)
      modifies dir
      ensures (dir.names, failed) == DiscardedAll(old(dir.names), ids, ds)
    {
      hide Discarded;
      failed := [];
      ghost var names := dir.names;
      var i := 0;
      while i < |ids|
        invariant 0 <= i <= |ids| && (dir.names, failed) == DiscardedAll(names, ids[..i], ds)
      {
        assert ids[..i + 1][..i] == ids[..i];
        var r := Discard(ids[i], StepOf(ds, ids[i]));
        if r == Broken {
          failed := failed + [ids[i]];
        }
        i := i + 1;
      }
      assert ids[..i] == ids;
    }
  }

  datatype AllocStep = Reserved | Removed | NotRemoved | CloseFails

  datatype DiscardStep = Unlinked | NotRenamed | NotUnlinked

  datatype DiscardResult = Gone | NoExtent | Broken

  function StepOf(ds: map<string, DiscardStep>, id: string): DiscardStep {
    if id in ds then ds[id] else Unlinked
  }

  function Discarded(names: set<string>, id: string, d: DiscardStep): (set<string>, DiscardResult) {
    if !ValidLeaseId(id) then (names, Broken)
    else if id !in names then (names, NoExtent)
    else if d == NotRenamed then (names, Broken)
    else if d == NotUnlinked then (names - {id} + {Invalidated(id)}, Broken)
    else (names - {id} - {Invalidated(id)}, Gone)
  }

  function DiscardedAll(
    names: set<string>, ids: seq<string>, ds: map<string, DiscardStep>): (set<string>, seq<string>) {
    if ids == [] then (names, [])
    else
      var (rest, failed) := DiscardedAll(names, ids[..|ids| - 1], ds);
      var id := ids[|ids| - 1];
      var (after, r) := Discarded(rest, id, StepOf(ds, id));
      (after, if r == Broken then failed + [id] else failed)
  }

  /** A reclaimed lease whose extent is still there under its name is reported. */
  lemma {:induction false} WhatStaysIsNamed(names: set<string>, ids: seq<string>, ds: map<string, DiscardStep>)
    ensures var (after, failed) := DiscardedAll(names, ids, ds); forall id :: id in ids && id in after ==> id in failed
  {
    if ids != [] {
      var last := ids[|ids| - 1];
      WhatStaysIsNamed(names, ids[..|ids| - 1], ds);
      var (rest, failed) := DiscardedAll(names, ids[..|ids| - 1], ds);
      DiscardedOnly(rest, last, StepOf(ds, last));
      assert ids == ids[..|ids| - 1] + [last];
      hide Discarded;
      var (after, all) := DiscardedAll(names, ids, ds);
      forall id | id in ids && id in after ensures id in all {
        var (_, r) := Discarded(rest, last, StepOf(ds, last));
        if id != last {
          if id !in rest {
            assert id == Invalidated(last);
            LeaseOrNot(names, ids[..|ids| - 1], ds, id);
          }
        }
      }
    }
  }

  lemma DiscardedOnly(names: set<string>, id: string, d: DiscardStep)
    ensures var (after, r) := Discarded(names, id, d);
      && (id in after ==> r == Broken)
      && (forall n :: n in after && n !in names ==> n == Invalidated(id) && !ValidLeaseId(n))
      && (!ValidLeaseId(id) ==> r == Broken)
  {
    var n := Invalidated(id);
    assert n[|n| - |INVALID_SUFFIX|..] == INVALID_SUFFIX;
    hide ValidLeaseId;
  }

  /** A name no lease may have is always reported. */
  lemma {:induction false} LeaseOrNot(names: set<string>, ids: seq<string>, ds: map<string, DiscardStep>, id: string)
    requires id in ids && !ValidLeaseId(id)
    ensures id in DiscardedAll(names, ids, ds).1
  {
    hide ValidLeaseId;
    var front, last := ids[..|ids| - 1], ids[|ids| - 1];
    assert ids == front + [last];
    if id == last {
      DiscardedOnly(DiscardedAll(names, front, ds).0, id, StepOf(ds, id));
    } else {
      LeaseOrNot(names, front, ds, id);
    }
  }

  lemma ReleaseIs(m: Mgr, id: string)
    requires id in m.leases && Books(m)
    ensures var u := LeaseManager.Release(m, id);
      u.leases == m.leases - {id} && u.restored == m.restored && u.reclaims == m.reclaims
  {
    assert IdSet([m.leases[id]]) == {id};
  }

  lemma BooksHold(m: Mgr)
    requires MgrInv(m)
    ensures Books(m)
  {
  }

  /** Giving back a lease just accepted leaves the books as they were. */
  lemma AcceptThenRelease(m: Mgr, l: Lease, now: int, save: Saving)
    requires MgrInv(m)
    ensures var (u, no) := LeaseManager.Accept(m, l, now, save);
      && u.leases == (if no.None? then u.leases else m.leases) && (no.Some? ==> u.acct == m.acct)
      && (no.None? ==> u == Granted(Pruned(m, now), l, now))
      && (no.None? ==> LeaseManager.Release(u, l.id).leases == m.leases && LeaseManager.Release(u, l.id).acct == m.acct)
  {
    AcceptKeepsInv(m, l, now, save);
    hide Prune, Churning, InCooldown, QuotaRefusal, Lend, WithinCaps;
    var (u, no) := LeaseManager.Accept(m, l, now, save);
    if no.None? {
      var g := l.(grantedAt := now);
      assert IdSet([g]) == {l.id} && Total([g]) == l.size;
      assert u.leases - {l.id} == m.leases;
    }
  }

  /** Open: replay the journal, then make it and the disk agree. Whatever either
      held, an agent that starts has exactly its live leases as extents. */
  method Open(cfg: Config, acct: Accounting, journal: FileJournal, dir: PoolDir, now: int, w: Weather, alive: bool)
    returns (started: Option<Agent>, rec: Reconciliation)
    requires Balanced(acct.(borrowed := 0))
    modifies journal, dir
    ensures started.Some? ==>
      && fresh(started.value.manager) && started.value.dir == dir && started.value.Agrees()
      && started.value.manager.leases == KeptLeases(old(dir.names) + {LOCK},
           LeaseManager.Restore(cfg, acct, old(journal.file), now, true, w.reset).leases)
    ensures started.Some? ==> w.readable
  {
    var manager := new Manager(cfg, acct, journal);
    dir.names := dir.names + {LOCK};
    rec := Reconciliation([], [], [], []);
    ghost var r := LeaseManager.Restore(cfg, acct, journal.file, now, w.readable, w.reset);
    RestoreKeepsBalance(cfg, acct, journal.file, now, w.readable, w.reset);
    var corrupt := journal.Corrupt();
    hide LeaseManager.Restore, RestoreSaves, Balanced, Keyed, Sum, MgrInv, Ladder, FileAfter, Spared;
    manager.Restore(now, w.readable, w.reset);
    if !w.readable || (!manager.restored && !corrupt) {
      return None, rec;
    }
    var a := new Agent(manager, dir);
    var ok;
    rec, ok := a.Reconcile(w);
    if !alive || !ok {
      return None, rec;
    }
    assert Spared(HEARTBEAT) by {
      HeartbeatIsSpared();
    }
    dir.names := dir.names + {HEARTBEAT};
    started := Some(a);
  }

  lemma HeartbeatIsSpared()
    ensures Spared(HEARTBEAT)
  {
  }
}
