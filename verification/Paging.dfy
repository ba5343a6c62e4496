/** Reading a directory a page at a time: the driver lists from the last name seen,
    the agent encodes the page, and the NFS side walks it and asks again until a page
    comes back short. */
module Paging {
  import opened Common
  import opened Sorting
  import opened AgentWire

  const PAGE: nat := 512
  const PAGE_BYTES := PAGE * (ENTRY_HEADER + MAX_NAME + 1)

  // ---- Names in order ----

  predicate NameLess(a: Bytes, b: Bytes) {
    b != [] && (a == [] || a[0] < b[0] || (a[0] == b[0] && NameLess(a[1..], b[1..])))
  }

  lemma {:induction false} NameTransitive(a: Bytes, b: Bytes, c: Bytes)
    requires NameLess(a, b) && NameLess(b, c)
    ensures NameLess(a, c)
  {
    if a != [] && a[0] == b[0] && b[0] == c[0] {
      NameTransitive(a[1..], b[1..], c[1..]);
    }
  }

  lemma {:induction false} NameTrichotomy(a: Bytes, b: Bytes)
    ensures NameLess(a, b) || a == b || NameLess(b, a)
    ensures !(NameLess(a, b) && NameLess(b, a)) && !NameLess(a, a)
  {
    if a != [] {
      NameTrichotomy(a[1..], a[1..]);
      if b != [] {
        NameTrichotomy(a[1..], b[1..]);
        if a[0] == b[0] && a[1..] == b[1..] {
          assert a == [a[0]] + a[1..] == b;
        }
      }
    }
  }

  predicate EntryLess(a: Entry, b: Entry) {
    NameLess(a.name, b.name)
  }

  lemma EntriesOrder()
    ensures Ordering(EntryLess)
  {
    hide NameLess;
    forall a: Entry, b: Entry, c: Entry
      ensures (EntryLess(a, b) ==> !EntryLess(b, a)) && (EntryLess(a, b) && !EntryLess(c, b) ==> EntryLess(a, c)) {
      NameTrichotomy(a.name, b.name);
      NameTrichotomy(b.name, c.name);
      if EntryLess(a, b) && NameLess(b.name, c.name) {
        NameTransitive(a.name, b.name, c.name);
      }
    }
  }

  // ---- A directory ----

  /** What ReadDir gives: names that are not empty, each once. */
  ghost predicate Directory(d: seq<Entry>) {
    (forall i :: 0 <= i < |d| ==> d[i].name != []) && forall i, j :: 0 <= i < j < |d| ==> d[i].name != d[j].name
  }

  ghost predicate Ascending(d: seq<Entry>) {
    forall i, j :: 0 <= i < j < |d| ==> NameLess(d[i].name, d[j].name)
  }

  function Ordered(d: seq<Entry>): seq<Entry> {
    SortBy(d, EntryLess)
  }

  /** Sorting a directory puts its names in strictly ascending order and keeps each. */
  lemma OrderedIs(d: seq<Entry>)
    requires Directory(d)
    ensures Ascending(Ordered(d)) && multiset(Ordered(d)) == multiset(d) && Directory(Ordered(d))
  {
    hide NameLess, SortBy, Ordering;
    EntriesOrder();
    SortSorts(d, EntryLess);
    var o := Ordered(d);
    forall i | 0 <= i < |o| ensures o[i].name != [] {
      assert o[i] in multiset(o);
    }
    forall i, j | 0 <= i < j < |o| ensures NameLess(o[i].name, o[j].name) && o[i].name != o[j].name {
      NamesStayApart(d, o, i, j);
      NameTrichotomy(o[i].name, o[j].name);
      assert !EntryLess(o[j], o[i]);
    }
  }

  lemma NamesStayApart(d: seq<Entry>, o: seq<Entry>, i: nat, j: nat)
    requires Directory(d) && multiset(o) == multiset(d) && i < j < |o|
    ensures o[i].name != o[j].name
  {
    assert o[i] in multiset(d) && o[j] in multiset(d);
    if o[i] == o[j] {
      assert o == o[..i] + [o[i]] + o[i + 1..j] + [o[j]] + o[j + 1..];
      assert multiset(d)[o[i]] >= 2;
      OnceOnly(d, o[i]);
      assert false;
    }
    var a :| 0 <= a < |d| && d[a] == o[i];
    var b :| 0 <= b < |d| && d[b] == o[j];
  }

  lemma {:induction false} OnceOnly(d: seq<Entry>, e: Entry)
    requires Directory(d)
    ensures multiset(d)[e] <= 1
  {
    if d != [] {
      var front, last := d[..|d| - 1], d[|d| - 1];
      assert d == front + [last];
      OnceOnly(front, e);
      assert e != last || e !in front;
    }
  }

  // ---- The driver's page ----

  function PageOf(d: seq<Entry>, after: Bytes, limit: nat): seq<Entry> {
    if d == [] || limit == 0 then []
    else if !NameLess(after, d[0].name) then PageOf(d[1..], after, limit)
    else [d[0]] + PageOf(d[1..], after, limit - 1)
  }

  /** List: sorted, everything up to `after` passed over, and no more than `limit`. */
  method List(d: seq<Entry>, after: Bytes, limit: nat) returns (out: seq<Entry>)
    ensures out == PageOf(Ordered(d), after, limit)
  {
    hide NameLess, SortBy;
    var names := SortBy(d, EntryLess);
    out := [];
    var i := 0;
    assert names[0..] == names;
    while i < |names|
      invariant 0 <= i <= |names| && |out| <= limit
      invariant out + PageOf(names[i..], after, limit - |out|) == PageOf(names, after, limit)
    {
      assert names[i..][1..] == names[i + 1..];
      if !NameLess(after, names[i].name) {
        i := i + 1;
        continue;
      }
      if |out| == limit {
        break;
      }
      out := out + [names[i]];
      i := i + 1;
    }
  }

  lemma {:induction false} PageOfRest(d: seq<Entry>, after: Bytes, limit: nat)
    requires forall i :: 0 <= i < |d| ==> NameLess(after, d[i].name)
    ensures PageOf(d, after, limit) == d[..if limit < |d| then limit else |d|]
  {
    hide NameLess;
    if d != [] && limit > 0 {
      PageOfRest(d[1..], after, limit - 1);
    }
  }

  /** Asking again after the k-th name gives exactly the next names. */
  lemma {:induction false} PageStartsAfter(d: seq<Entry>, k: nat, limit: nat)
    requires Ascending(d) && k <= |d| && forall i :: 0 <= i < |d| ==> d[i].name != []
    ensures var after := if k == 0 then [] else d[k - 1].name;
      PageOf(d, after, limit) == d[k..if k + limit < |d| then k + limit else |d|]
  {
    var after := if k == 0 then [] else d[k - 1].name;
    assert k == 0 ==> forall i :: 0 <= i < |d| ==> NameLess([], d[i].name);
    hide NameLess;
    SkipsTo(d, after, k, 0, limit);
    PageOfRest(d[k..], after, limit);
    assert d[0..] == d;
  }

  lemma {:induction false} SkipsTo(d: seq<Entry>, after: Bytes, k: nat, i: nat, limit: nat)
    requires Ascending(d) && i <= k <= |d| && (k > 0 ==> after == d[k - 1].name)
    ensures PageOf(d[i..], after, limit) == PageOf(d[k..], after, limit)
    decreases k - i
  {
    hide NameLess;
    if i < k {
      NameTrichotomy(d[i].name, d[k - 1].name);
      SkipsTo(d, after, k, i + 1, limit);
      assert d[i..][1..] == d[i + 1..];
    }
  }

  // ---- Over the wire ----

  ghost predicate Sendable(d: seq<Entry>) {
    forall e :: e in d ==> EntryFits(e) && IsInt64(e.bytes)
  }

  /** A page always fits the buffer the NFS side keeps for one. */
  lemma {:induction false} PageFits(es: seq<Entry>)
    requires forall e :: e in es ==> EntryFits(e)
    ensures |Listing(es)| <= |es| * (ENTRY_HEADER + MAX_NAME)
  {
    if es != [] {
      assert es[|es| - 1] in es;
      RecordLength(es[|es| - 1]);
      hide RecordHead;
      PageFits(es[..|es| - 1]);
    }
  }

  // ---- What a walk delivers ----

  /** The names delivered of a listing: `keyed` says whose path has a key, and `enough`
      at which name the callback has had enough. */
  function Delivered(ls: seq<Entry>, keyed: Bytes -> bool, enough: Bytes -> bool): seq<Entry> {
    if ls == [] then []
    else if !keyed(ls[0].name) then Delivered(ls[1..], keyed, enough)
    else if enough(ls[0].name) then [ls[0]]
    else [ls[0]] + Delivered(ls[1..], keyed, enough)
  }

  predicate Stops(ls: seq<Entry>, keyed: Bytes -> bool, enough: Bytes -> bool) {
    ls != [] && ((keyed(ls[0].name) && enough(ls[0].name)) || Stops(ls[1..], keyed, enough))
  }

  lemma {:induction false} DeliveredJoins(a: seq<Entry>, b: seq<Entry>, keyed: Bytes -> bool, enough: Bytes -> bool)
    ensures Stops(a + b, keyed, enough) <==> Stops(a, keyed, enough) || Stops(b, keyed, enough)
    ensures Delivered(a + b, keyed, enough) ==
      if Stops(a, keyed, enough) then Delivered(a, keyed, enough)
      else Delivered(a, keyed, enough) + Delivered(b, keyed, enough)
  {
    if a == [] {
      assert a + b == b;
    } else {
      assert (a + b)[1..] == a[1..] + b;
      DeliveredJoins(a[1..], b, keyed, enough);
    }
  }

  /** Nothing skipped and nobody stopping, that is everything. */
  lemma {:induction false} AllDelivered(ls: seq<Entry>, keyed: Bytes -> bool, enough: Bytes -> bool)
    requires forall e :: e in ls ==> keyed(e.name) && !enough(e.name)
    ensures Delivered(ls, keyed, enough) == ls && !Stops(ls, keyed, enough)
  {
    if ls != [] {
      assert ls[0] in ls;
      AllDelivered(ls[1..], keyed, enough);
      assert ls == [ls[0]] + ls[1..];
    }
  }

  /** In any case only names with a key, and all of them unless the callback stops. */
  lemma {:induction false} KeyedAreDelivered(ls: seq<Entry>, keyed: Bytes -> bool, enough: Bytes -> bool, e: Entry)
    ensures e in Delivered(ls, keyed, enough) ==> e in ls && keyed(e.name)
    ensures !Stops(ls, keyed, enough) && e in ls && keyed(e.name) ==> e in Delivered(ls, keyed, enough)
  {
    if ls != [] {
      KeyedAreDelivered(ls[1..], keyed, enough, e);
      assert ls == [ls[0]] + ls[1..];
    }
  }

  /** And in order, so each once. */
  lemma {:induction false} DeliveredAscends(ls: seq<Entry>, keyed: Bytes -> bool, enough: Bytes -> bool)
    requires Ascending(ls)
    ensures Ascending(Delivered(ls, keyed, enough))
  {
    hide NameLess;
    if ls != [] {
      DeliveredAscends(ls[1..], keyed, enough);
      var rest := Delivered(ls[1..], keyed, enough);
      forall j | 0 <= j < |rest| ensures NameLess(ls[0].name, rest[j].name) {
        assert rest[j] in rest;
        KeyedAreDelivered(ls[1..], keyed, enough, rest[j]);
        var k :| 0 <= k < |ls[1..]| && ls[1..][k] == rest[j];
        assert NameLess(ls[0].name, ls[k + 1].name);
      }
    }
  }

  /** Walk one reply with the cursor, remembering each name and delivering those that
      have a key, until the callback has had enough. */
  method WalkPage(
    body: Bytes, before: seq<Entry>, last: Bytes, keyed: Bytes -> bool, enough: Bytes -> bool, ghost page: seq<Entry>)
    returns (seen: seq<Entry>, after: Bytes, names: nat, stopped: bool, ok: bool)
    requires Walk(body, 0) == Some(page)
    ensures ok && seen == before + Delivered(page, keyed, enough) && stopped == Stops(page, keyed, enough)
    ensures !stopped ==> names == |page| && after == if page == [] then last else page[|page| - 1].name
  {
    hide EntryNext, Walk, Delivered, Stops, WalkedTo;
    seen, after, names, stopped := before, last, 0, false;
    var at: nat := 0;
    WalkStarts(page, keyed, enough, before, last);
    while true
      invariant at <= |body| && names <= |page| && Walk(body, at) == Some(page[names..])
      invariant WalkedTo(page, keyed, enough, before, last, seen, after, names)
      decreases |page| - names
    {
      AdvanceIs(body, at);
      WalkGoesOn(page, keyed, enough, before, last, seen, after, names);
      var code, e, next := Advance(body, at);
      if code != 1 {
        ok := code == 0;
        break;
      }
      assert page[names..][1..] == page[names + 1..] && page[names..][0] == page[names] == e.value;
      names := names + 1;
      after := e.value.name;
      at := next;
      if !keyed(after) {
        continue;
      }
      seen := seen + [e.value];
      if enough(after) {
        stopped, ok := true, true;
        return;
      }
    }
  }

  /** A page walked as far as its first n names, none of which stopped it. */
  ghost predicate WalkedTo(
    page: seq<Entry>, keyed: Bytes -> bool, enough: Bytes -> bool, before: seq<Entry>, last: Bytes,
    seen: seq<Entry>, after: Bytes, n: nat)
    requires n <= |page|
  {
    && seen + Delivered(page[n..], keyed, enough) == before + Delivered(page, keyed, enough)
    && Stops(page[n..], keyed, enough) == Stops(page, keyed, enough)
    && after == if n == 0 then last else page[n - 1].name
  }

  lemma WalkStarts(page: seq<Entry>, keyed: Bytes -> bool, enough: Bytes -> bool, before: seq<Entry>, last: Bytes)
    ensures WalkedTo(page, keyed, enough, before, last, before, last, 0) && page[0..] == page
  {
    hide Delivered, Stops;
    assert page[0..] == page;
  }

  lemma WalkGoesOn(
    page: seq<Entry>, keyed: Bytes -> bool, enough: Bytes -> bool, before: seq<Entry>, last: Bytes,
    seen: seq<Entry>, after: Bytes, n: nat)
    requires n <= |page| && WalkedTo(page, keyed, enough, before, last, seen, after, n)
    ensures n == |page| ==>
      && page[n..] == [] && seen == before + Delivered(page, keyed, enough) && !Stops(page, keyed, enough)
      && after == if page == [] then last else page[|page| - 1].name
    ensures n < |page| ==>
      var e := page[n];
      && page[n..] != []
      && (!keyed(e.name) ==> WalkedTo(page, keyed, enough, before, last, seen, e.name, n + 1))
      && (keyed(e.name) && enough(e.name) ==>
        seen + [e] == before + Delivered(page, keyed, enough) && Stops(page, keyed, enough))
      && (keyed(e.name) && !enough(e.name) ==> WalkedTo(page, keyed, enough, before, last, seen + [e], e.name, n + 1))
  {
    hide Delivered, Stops;
    if n == |page| {
      NothingLeft(page, keyed, enough);
      assert seen + [] == seen;
    } else {
      NextName(page, n, keyed, enough);
      Appended(seen, page[n], Delivered(page[n + 1..], keyed, enough));
    }
  }

  lemma NothingLeft(page: seq<Entry>, keyed: Bytes -> bool, enough: Bytes -> bool)
    ensures page[|page|..] == [] && Delivered(page[|page|..], keyed, enough) == []
    ensures !Stops(page[|page|..], keyed, enough)
  {
  }

  lemma Appended(seen: seq<Entry>, e: Entry, rest: seq<Entry>)
    ensures seen + ([e] + rest) == seen + [e] + rest
  {
  }

  lemma NextName(page: seq<Entry>, n: nat, keyed: Bytes -> bool, enough: Bytes -> bool)
    requires n < |page|
    ensures var e, rest := page[n], Delivered(page[n + 1..], keyed, enough);
      && Delivered(page[n..], keyed, enough) ==
        (if !keyed(e.name) then rest else if enough(e.name) then [e] else [e] + rest)
      && Stops(page[n..], keyed, enough) == ((keyed(e.name) && enough(e.name)) || Stops(page[n + 1..], keyed, enough))
  {
    assert page[n..][1..] == page[n + 1..] && page[n..][0] == page[n];
  }

  /** One turn of the cursor, in terms of the records to come. */
  lemma AdvanceIs(body: Bytes, at: nat)
    requires at <= |body| && Walk(body, at).Some?
    ensures var s := EntryNext(body, at);
      && s != Bad && (s == End <==> Walk(body, at).value == [])
      && (s.Got? ==>
        && 0 <= s.at <= |body| && Walk(body, s.at).Some?
        && Walk(body, at).value == [s.entry] + Walk(body, s.at).value)
  {
    hide GetBE, Wrap64;
  }

  /** The names of a page: those from k on, as many as one page takes. */
  function Slice(all: seq<Entry>, k: nat): seq<Entry>
    requires k <= |all|
  {
    all[k..if k + PAGE < |all| then k + PAGE else |all|]
  }

  lemma SliceJoins(all: seq<Entry>, k: nat)
    requires k <= |all|
    ensures var n := |Slice(all, k)|;
      && k + n <= |all| && n <= PAGE && all[..k] + Slice(all, k) == all[..k + n]
      && (n > 0 ==> Slice(all, k)[n - 1] == all[k + n - 1])
      && (n < PAGE ==> all[..k + n] == all && k + n == |all|)
  {
  }

  /** One question to the agent, and its reply. */
  method Ask(d: seq<Entry>, after: Bytes, ghost k: nat) returns (body: Bytes)
    requires Directory(d) && Sendable(d)
    requires var all := Ordered(d); k <= |all| && after == if k == 0 then [] else all[k - 1].name
    ensures Walk(body, 0) == Some(Slice(Ordered(d), k)) && |body| <= PAGE_BYTES
  {
    hide Ordered, PageOf, Listing, NameLess, Walk, Slice, EncodeEntries, Sendable, Directory;
    NextPage(d, after, k);
    PageTravels(Slice(Ordered(d), k));
    var page := List(d, after, PAGE);
    var sent := WriteEntries(page);
    body := sent.value;
  }

  lemma NextPage(d: seq<Entry>, after: Bytes, k: nat)
    requires Directory(d) && Sendable(d)
    requires var all := Ordered(d); k <= |all| && after == if k == 0 then [] else all[k - 1].name
    ensures PageOf(Ordered(d), after, PAGE) == Slice(Ordered(d), k)
    ensures Sendable(Slice(Ordered(d), k)) && |Slice(Ordered(d), k)| <= PAGE
  {
    hide Ordered, PageOf, NameLess;
    OrderedIs(d);
    SendableOrdered(d, Ordered(d));
    PageStartsAfter(Ordered(d), k, PAGE);
    assert forall e :: e in Slice(Ordered(d), k) ==> e in Ordered(d);
  }

  lemma PageTravels(page: seq<Entry>)
    requires Sendable(page) && |page| <= PAGE
    ensures EncodeEntries(page) == Some(Listing(page)) && Walk(Listing(page), 0) == Some(page)
    ensures |Listing(page)| <= PAGE_BYTES
  {
    hide Listing, Walk;
    PageFits(page);
    CursorReadsListing(page, []);
    assert [] + Listing(page) == Listing(page);
  }

  /** readdir: page after page from the last name seen, until one is short or the
      callback has had enough. Every name that has a key is delivered exactly once, in
      order, whatever the size of the directory; and it asks once more than it has full
      pages. */
  method Readdir(d: seq<Entry>, keyed: Bytes -> bool, enough: Bytes -> bool)
    returns (seen: seq<Entry>, asked: nat, eof: bool, ok: bool)
    requires Directory(d) && Sendable(d)
    ensures ok && seen == Delivered(Ordered(d), keyed, enough) && eof == !Stops(Ordered(d), keyed, enough)
    ensures eof ==> asked == |d| / PAGE + 1
    ensures multiset(Ordered(d)) == multiset(d) && Ascending(Ordered(d))
  {
    OrderedIs(d);
    ghost var all := Ordered(d);
    SameLength(d, all);
    hide Ordered, Directory, Sendable, Ascending, Walk, Slice, Delivered, Stops, ReadTo, FullPages;
    seen, asked, eof, ok := [], 0, false, true;
    ghost var k: nat := 0;
    var after: Bytes := [];
    NothingRead(all, keyed, enough);
    NoPages();
    while true
      invariant k <= |all| && FullPages(k, asked) && ReadTo(all, keyed, enough, seen, after, k)
      decreases |all| - k
    {
      var names, stopped;
      seen, after, names, stopped, ok := ReadPage(d, keyed, enough, seen, after, k);
      if !stopped {
        OneMorePage(k, asked, names, |d|);
      }
      asked := asked + 1;
      if stopped {
        return;
      }
      k := k + names;
      if names < PAGE {
        eof := true;
        break;
      }
    }
  }

  /** One turn of readdir's loop. */
  method ReadPage(
    d: seq<Entry>, keyed: Bytes -> bool, enough: Bytes -> bool, seen: seq<Entry>, after: Bytes, ghost k: nat)
    returns (more: seq<Entry>, next: Bytes, names: nat, stopped: bool, ok: bool)
    requires Directory(d) && Sendable(d) && ReadTo(Ordered(d), keyed, enough, seen, after, k)
    ensures ok
    ensures var all := Ordered(d);
      if stopped then more == Delivered(all, keyed, enough) && Stops(all, keyed, enough)
      else
        && k + names <= |all| && names <= PAGE && ReadTo(all, keyed, enough, more, next, k + names)
        && (names < PAGE ==> k + names == |all| && more == Delivered(all, keyed, enough) && !Stops(all, keyed, enough))
  {
    hide Ordered, Directory, Sendable, Walk, Slice, Delivered, Stops, ReadTo;
    ghost var all := Ordered(d);
    CursorIs(all, keyed, enough, seen, after, k);
    PageRead(all, keyed, enough, seen, after, k);
    var body := Ask(d, after, k);
    more, next, names, stopped, ok := WalkPage(body, seen, after, keyed, enough, Slice(all, k));
  }

  ghost predicate FullPages(k: nat, asked: nat) {
    k == asked * PAGE
  }

  lemma NoPages()
    ensures FullPages(0, 0)
  {
  }

  lemma OneMorePage(k: nat, asked: nat, n: nat, total: nat)
    requires FullPages(k, asked) && n <= PAGE
    ensures n == PAGE ==> FullPages(k + n, asked + 1)
    ensures n < PAGE && k + n == total ==> asked + 1 == total / PAGE + 1
  {
  }

  /** The first k names walked, and the callback not yet done. */
  ghost predicate ReadTo(
    all: seq<Entry>, keyed: Bytes -> bool, enough: Bytes -> bool, seen: seq<Entry>, after: Bytes, k: nat) {
    && k <= |all| && seen == Delivered(all[..k], keyed, enough) && !Stops(all[..k], keyed, enough)
    && after == if k == 0 then [] else all[k - 1].name
  }

  lemma NothingRead(all: seq<Entry>, keyed: Bytes -> bool, enough: Bytes -> bool)
    ensures ReadTo(all, keyed, enough, [], [], 0)
  {
  }

  lemma CursorIs(all: seq<Entry>, keyed: Bytes -> bool, enough: Bytes -> bool, seen: seq<Entry>, after: Bytes, k: nat)
    requires ReadTo(all, keyed, enough, seen, after, k)
    ensures k <= |all| && after == if k == 0 then [] else all[k - 1].name
  {
    hide Delivered, Stops;
  }

  /** One more page walked: to its end, or to where the callback stops the whole. */
  lemma PageRead(all: seq<Entry>, keyed: Bytes -> bool, enough: Bytes -> bool, seen: seq<Entry>, after: Bytes, k: nat)
    requires ReadTo(all, keyed, enough, seen, after, k)
    ensures var page, n := Slice(all, k), |Slice(all, k)|;
      var more := seen + Delivered(page, keyed, enough);
      && k + n <= |all| && n <= PAGE
      && if Stops(page, keyed, enough) then more == Delivered(all, keyed, enough) && Stops(all, keyed, enough)
         else
           && ReadTo(all, keyed, enough, more, if n == 0 then after else page[n - 1].name, k + n)
           && (n < PAGE ==> k + n == |all| && more == Delivered(all, keyed, enough) && !Stops(all, keyed, enough))
  {
    hide Delivered, Stops, Slice;
    var page := Slice(all, k);
    SliceJoins(all, k);
    DeliveredJoins(all[..k], page, keyed, enough);
    DeliveredJoins(all[..k] + page, all[k + |page|..], keyed, enough);
    assert all[..k] + page + all[k + |page|..] == all;
  }

  lemma SendableOrdered(d: seq<Entry>, o: seq<Entry>)
    requires Sendable(d) && multiset(o) == multiset(d)
    ensures Sendable(o)
  {
    forall e | e in o ensures EntryFits(e) && IsInt64(e.bytes) {
      assert e in multiset(d);
    }
  }

  lemma SameLength(d: seq<Entry>, o: seq<Entry>)
    requires multiset(o) == multiset(d)
    ensures |o| == |d|
  {
    assert |multiset(o)| == |multiset(d)|;
  }
}
