/** One path, one key: the C side's normaliser, the Go side's two views of a
    reference, and that they name the same object. */
module PathKey {
  import opened Common

  // ---- Components ----

  /** A path cut at every slash, empty pieces and all. */
  function Split(s: string): (parts: seq<string>)
    ensures parts != []
  {
    if s == [] then [""]
    else
      var rest := Split(s[1..]);
      if s[0] == '/' then [""] + rest else [[s[0]] + rest[0]] + rest[1..]
  }

  function Join(parts: seq<string>): string {
    if parts == [] then ""
    else if |parts| == 1 then parts[0]
    else parts[0] + "/" + Join(parts[1..])
  }

  lemma {:induction false} JoinInvertsSplit(s: string)
    ensures Join(Split(s)) == s
  {
    if s != [] {
      JoinInvertsSplit(s[1..]);
      var rest := Split(s[1..]);
      if s[0] == '/' {
        assert ([""] + rest)[1..] == rest;
      } else if |rest| > 1 {
        assert ([[s[0]] + rest[0]] + rest[1..])[1..] == rest[1..];
      }
      assert s == [s[0]] + s[1..];
    }
  }

  lemma {:induction false} SplitPlain(s: string)
    requires '/' !in s
    ensures Split(s) == [s]
  {
    if s != [] {
      assert s[0] in s;
      SplitPlain(s[1..]);
      assert s == [s[0]] + s[1..] && [s[1..]][1..] == [];
    }
  }

  /** Cutting a concatenation. */
  lemma {:induction false} SplitConcat(a: string, b: string)
    ensures Split(a + "/" + b) == Split(a) + Split(b)
  {
    hide Split;
    if a == [] {
      SplitCons('/', b);
      SplitPlain(a);
      assert a + "/" + b == ['/'] + b;
    } else {
      SplitConcat(a[1..], b);
      SplitCons(a[0], a[1..]);
      SplitCons(a[0], a[1..] + "/" + b);
      assert a == [a[0]] + a[1..] && a + "/" + b == [a[0]] + (a[1..] + "/" + b);
      HeadGrows(a[0], Split(a[1..]), Split(b));
    }
  }

  /** A character put before a path joins its first piece, whatever pieces follow. */
  lemma HeadGrows(c: char, x: seq<string>, y: seq<string>)
    requires x != []
    ensures [[c] + (x + y)[0]] + (x + y)[1..] == ([[c] + x[0]] + x[1..]) + y && [""] + (x + y) == ([""] + x) + y
  {
    assert (x + y)[1..] == x[1..] + y;
  }

  lemma SplitCons(x: char, rest: string)
    ensures Split([x] + rest) ==
      if x == '/' then [""] + Split(rest) else [[x] + Split(rest)[0]] + Split(rest)[1..]
  {
    assert ([x] + rest)[1..] == rest;
  }

  ghost predicate NoSlash(parts: seq<string>) {
    forall c :: c in parts ==> '/' !in c
  }

  lemma {:induction false} SplitHasNoSlash(s: string)
    ensures NoSlash(Split(s))
  {
    if s != [] {
      SplitHasNoSlash(s[1..]);
    }
  }

  lemma {:induction false} SplitInvertsJoin(parts: seq<string>)
    requires parts != [] && NoSlash(parts)
    ensures Split(Join(parts)) == parts
  {
    assert parts[0] in parts;
    SplitPlain(parts[0]);
    if |parts| > 1 {
      SplitInvertsJoin(parts[1..]);
      SplitConcat(parts[0], Join(parts[1..]));
    }
    assert parts == [parts[0]] + parts[1..];
  }

  // ---- The key of a path ----

  datatype Key = Ok(key: string) | Empty | Traversal | TooLong

  predicate Dropped(c: string) {
    c == "" || c == "."
  }

  predicate Ordinary(c: string) {
    c != "" && c != "." && c != ".."
  }

  function Extend(acc: string, c: string): string {
    if acc == "" then c else acc + "/" + c
  }

  /** forebay_path_key from the components still to come on. */
  function KeyFrom(parts: seq<string>, acc: string, room: nat): Key {
    if parts == [] then if acc == "" then Empty else Ok(acc)
    else if Dropped(parts[0]) then KeyFrom(parts[1..], acc, room)
    else if parts[0] == ".." then Traversal
    else if |Extend(acc, parts[0])| >= room then TooLong
    else KeyFrom(parts[1..], Extend(acc, parts[0]), room)
  }

  function PathKey(path: string, room: nat): Key {
    KeyFrom(Split(path), "", room)
  }

  function Kept(parts: seq<string>): seq<string> {
    if parts == [] then [] else (if Dropped(parts[0]) then [] else [parts[0]]) + Kept(parts[1..])
  }

  lemma {:induction false} KeptKeeps(parts: seq<string>)
    ensures forall c :: c in Kept(parts) <==> c in parts && !Dropped(c)
  {
    if parts != [] {
      KeptKeeps(parts[1..]);
      assert parts == [parts[0]] + parts[1..];
    }
  }

  lemma {:induction false} KeptOrdinary(parts: seq<string>)
    requires forall c :: c in parts ==> Ordinary(c)
    ensures Kept(parts) == parts
  {
    if parts != [] {
      assert parts[0] in parts;
      KeptOrdinary(parts[1..]);
      assert parts == [parts[0]] + parts[1..];
    }
  }

  /** acc followed by the join of what is kept. */
  function Joined(acc: string, kept: seq<string>): string {
    if kept == [] then acc else Extend(acc, Join(kept))
  }

  lemma JoinedStep(acc: string, c: string, rest: seq<string>)
    requires c != ""
    ensures Joined(acc, [c] + rest) == Joined(Extend(acc, c), rest)
  {
    if rest != [] {
      assert ([c] + rest)[1..] == rest;
      assert Join([c] + rest) == c + "/" + Join(rest);
    }
  }

  lemma ExtendGrows(acc: string, kept: seq<string>)
    ensures |Joined(acc, kept)| >= |acc|
  {
  }

  /** OK means no component climbs and the join of those kept is not empty and fits,
      and is what comes out. */
  lemma {:induction false} KeyIsTheJoin(parts: seq<string>, acc: string, room: nat)
    requires |acc| < room || acc == ""
    ensures var all := Joined(acc, Kept(parts));
      KeyFrom(parts, acc, room) == Ok(all) <==> ".." !in parts && all != "" && |all| < room
    ensures KeyFrom(parts, acc, room).Ok? ==> KeyFrom(parts, acc, room) == Ok(Joined(acc, Kept(parts)))
    ensures KeyFrom(parts, acc, room) == Empty <==> acc == "" && Kept(parts) == []
    decreases parts
  {
    hide Joined, Join;
    if parts == [] {
      JoinedNothing(acc);
    } else {
      var c, rest := parts[0], parts[1..];
      assert parts == [c] + rest;
      if Dropped(c) {
        KeyIsTheJoin(rest, acc, room);
        assert Kept(parts) == Kept(rest);
      } else {
        JoinedStep(acc, c, Kept(rest));
        ExtendGrows(Extend(acc, c), Kept(rest));
        if c != ".." && |Extend(acc, c)| < room {
          KeyIsTheJoin(rest, Extend(acc, c), room);
        }
      }
    }
  }

  lemma JoinedNothing(acc: string)
    ensures Joined(acc, []) == acc
  {
  }

  /** The slash-join of a path's components with the empty and "." dropped; refused
      when one climbs, when nothing is left, or when it does not fit. */
  lemma PathKeyIs(path: string, room: nat)
    ensures var kept := Kept(Split(path));
      && (PathKey(path, room) == Ok(Join(kept)) <==> ".." !in Split(path) && kept != [] && |Join(kept)| < room)
      && (PathKey(path, room).Ok? ==> PathKey(path, room) == Ok(Join(kept)))
      && (PathKey(path, room) == Empty <==> kept == [])
  {
    KeyIsTheJoin(Split(path), "", room);
    var kept := Kept(Split(path));
    KeptKeeps(Split(path));
    hide Kept, KeyFrom, Split;
    if kept != [] {
      assert kept[0] in kept;
      JoinIsNotEmpty(kept);
    }
  }

  ghost predicate Unrefused(k: Key) {
    k.Ok? || k.Empty?
  }

  /** A path is refused for climbing exactly when everything before some ".." of it
      would have been let through; what was too long before it is refused as that. */
  lemma {:induction false} ClimbingIsRefused(parts: seq<string>, acc: string, room: nat)
    ensures KeyFrom(parts, acc, room) == Traversal <==>
      exists i :: 0 <= i < |parts| && parts[i] == ".." && Unrefused(KeyFrom(parts[..i], acc, room))
    decreases parts
  {
    if parts != [] {
      var c, rest := parts[0], parts[1..];
      var more := if Dropped(c) then acc else Extend(acc, c);
      forall i | 0 < i <= |parts| ensures parts[..i][0] == c && parts[..i][1..] == rest[..i - 1] {
      }
      if c == ".." {
        assert parts[..0] == [];
        assert Unrefused(KeyFrom(parts[..0], acc, room));
      } else if !Dropped(c) && |more| >= room {
        assert forall i :: 0 < i <= |parts| ==> KeyFrom(parts[..i], acc, room) == TooLong;
      } else {
        ClimbingIsRefused(rest, more, room);
        assert forall i :: 0 < i <= |parts| ==> KeyFrom(parts[..i], acc, room) == KeyFrom(rest[..i - 1], more, room);
        if KeyFrom(rest, more, room) == Traversal {
          var j :| 0 <= j < |rest| && rest[j] == ".." && Unrefused(KeyFrom(rest[..j], more, room));
          assert parts[j + 1] == ".." && Unrefused(KeyFrom(parts[..j + 1], acc, room));
        }
      }
    }
  }

  lemma JoinIsNotEmpty(parts: seq<string>)
    requires parts != [] && parts[0] != ""
    ensures Join(parts) != ""
  {
  }

  /** Taking the key of a key changes nothing. */
  lemma PathKeyIsIdempotent(path: string, room: nat)
    requires PathKey(path, room).Ok?
    ensures PathKey(PathKey(path, room).key, room) == PathKey(path, room)
  {
    hide KeyFrom;
    var kept := Kept(Split(path));
    PathKeyIs(path, room);
    KeptKeeps(Split(path));
    SplitHasNoSlash(path);
    hide PathKey, Kept, Split;
    SplitInvertsJoin(kept);
    KeptOrdinary(kept);
    PathKeyIs(Join(kept), room);
  }

  // ---- The C code ----

  lemma SplitAt(s: string, len: nat)
    requires len <= |s| && '/' !in s[..len] && (len < |s| ==> s[len] == '/')
    ensures Split(s) == [s[..len]] + if len < |s| then Split(s[len + 1..]) else []
  {
    hide Split;
    SplitPlain(s[..len]);
    if len < |s| {
      SplitConcat(s[..len], s[len + 1..]);
      CutAt(s, len);
    } else {
      assert s[..len] == s;
    }
  }

  lemma CutAt(s: string, len: nat)
    requires len < |s| && s[len] == '/'
    ensures s == s[..len] + "/" + s[len + 1..]
  {
  }

  /** A leading slash adds a component that is dropped. */
  lemma SlashIsDropped(s: string, acc: string, room: nat)
    requires s != [] && s[0] == '/'
    ensures KeyFrom(Split(s), acc, room) == KeyFrom(Split(s[1..]), acc, room)
  {
    assert ([""] + Split(s[1..]))[1..] == Split(s[1..]);
  }

  lemma NothingIsDropped(acc: string, room: nat)
    ensures KeyFrom(Split(""), acc, room) == if acc == "" then Empty else Ok(acc)
  {
    assert [""][1..] == [];
  }

  /** One component at the front of what is left. */
  lemma OneComponent(s: string, len: nat, acc: string, room: nat)
    requires 0 < len <= |s| && '/' !in s[..len] && (len < |s| ==> s[len] == '/')
    ensures var c := s[..len];
      KeyFrom(Split(s), acc, room) ==
      if c == "." then KeyFrom(Split(s[len..]), acc, room)
      else if c == ".." then Traversal
      else if |Extend(acc, c)| >= room then TooLong
      else KeyFrom(Split(s[len..]), Extend(acc, c), room)
  {
    SplitAt(s, len);
    var c := s[..len];
    var rest := if len < |s| then Split(s[len + 1..]) else [];
    assert ([c] + rest)[1..] == rest;
    if len < |s| {
      SlashIsDropped(s[len..], acc, room);
      SlashIsDropped(s[len..], Extend(acc, c), room);
      assert s[len..][1..] == s[len + 1..];
    } else {
      assert s[len..] == "";
      NothingIsDropped(acc, room);
      NothingIsDropped(Extend(acc, c), room);
    }
    hide Split;
  }

  method SkipSlashes(path: string, from: nat, ghost acc: string, ghost room: nat) returns (p: nat)
    requires from <= |path|
    ensures from <= p <= |path| && (p < |path| ==> path[p] != '/')
    ensures KeyFrom(Split(path[p..]), acc, room) == KeyFrom(Split(path[from..]), acc, room)
  {
    hide KeyFrom, Split;
    p := from;
    while p < |path| && path[p] == '/'
      invariant from <= p <= |path| && KeyFrom(Split(path[p..]), acc, room) == KeyFrom(Split(path[from..]), acc, room)
    {
      SlashIsDropped(path[p..], acc, room);
      assert path[p..][1..] == path[p + 1..];
      p := p + 1;
    }
  }

  method ScanName(path: string, from: nat) returns (p: nat)
    requires from < |path| && path[from] != '/'
    ensures from < p <= |path| && '/' !in path[from..p] && (p < |path| ==> path[p] == '/')
  {
    p := from;
    while p < |path| && path[p] != '/'
      invariant from <= p <= |path| && '/' !in path[from..p]
    {
      p := p + 1;
    }
  }

  /** A separator unless it is the first, then the name. */
  method AppendName(out: array<char>, written: nat, c: string) returns (now: nat)
    requires c != "" && written + (if written > 0 then 1 else 0) + |c| < out.Length
    modifies out
    ensures now < out.Length && out[..now] == Extend(old(out[..written]), c)
  {
    now := written;
    ghost var acc := out[..written];
    if written > 0 {
      out[now] := '/';
      now := now + 1;
    }
    ghost var before, at := out[..now], now;
    var i := 0;
    while i < |c|
      invariant 0 <= i <= |c| && now == at + i && out[..now] == before + c[..i]
    {
      out[now] := c[i];
      assert out[..now + 1] == out[..now] + [c[i]] && c[..i + 1] == c[..i] + [c[i]];
      now, i := now + 1, i + 1;
    }
    assert c[..i] == c;
    assert acc == "" ==> before + c == c;
  }

  /** forebay_path_key, scanning a path and writing into a buffer of the caller's. */
  method WriteKey(path: string, out: array<char>) returns (r: Key)
    modifies out
    ensures out.Length == 0 ==> r == Empty
    ensures out.Length > 0 ==> r == PathKey(path, out.Length)
    ensures r.Ok? ==> |r.key| < out.Length && out[..|r.key|] == r.key && out[|r.key|] == '\0'
  {
    if out.Length == 0 {
      return Empty;
    }
    hide KeyFrom, Split;
    out[0] := '\0';
    var written, p := 0, 0;
    assert path[0..] == path && out[..0] == "";
    while p < |path|
      invariant 0 <= p <= |path| && 0 <= written < out.Length
      invariant KeyFrom(Split(path[p..]), out[..written], out.Length) == PathKey(path, out.Length)
      decreases |path| - p
    {
      ghost var acc, from := out[..written], p;
      p := SkipSlashes(path, p, acc, out.Length);
      if p == |path| {
        assert path[p..] == "";
        break;
      }
      var start := p;
      p := ScanName(path, p);
      var len := p - start;
      var c := path[start..p];
      assert path[start..][..len] == c && path[start..][len..] == path[p..];
      OneComponent(path[start..], len, acc, out.Length);
      if c == "." {
        continue;
      }
      if c == ".." {
        return Traversal;
      }
      if written + (if written > 0 then 1 else 0) + len >= out.Length {
        return TooLong;
      }
      written := AppendName(out, written, c);
    }
    assert path[p..] == "";
    NothingIsDropped(out[..written], out.Length);
    if written == 0 {
      return Empty;
    }
    var key := out[..written];
    out[written] := '\0';
    assert out[..written] == key;
    r := Ok(key);
  }

  // ---- References ----

  datatype Ref = Ref(dataset: string, version: string, name: string)

  predicate Valid(r: Ref) {
    && r.dataset != "" && r.version != "" && r.name != ""
    && '/' !in r.dataset && '/' !in r.version
  }

  function ObjectKey(r: Ref): string {
    r.dataset + "/" + r.version + "/" + r.name
  }

  /** path.Clean's components for a rooted path: ".." takes one back. */
  function Resolve(parts: seq<string>, acc: seq<string>): seq<string> {
    if parts == [] then acc
    else if Dropped(parts[0]) then Resolve(parts[1..], acc)
    else if parts[0] == ".." then Resolve(parts[1..], if acc == [] then [] else acc[..|acc| - 1])
    else Resolve(parts[1..], acc + [parts[0]])
  }

  function CleanRooted(path: string): string {
    "/" + Join(Resolve(Split(path), []))
  }

  /** The served path of a reference under the root "/": path.Join leaves out empty
      names, and cleans. */
  function FilePath(r: Ref): string {
    CleanRooted("/" + (if r.dataset == "" then "" else "/" + r.dataset)
                + (if r.version == "" then "" else "/" + r.version) + (if r.name == "" then "" else "/" + r.name))
  }

  /** strings.SplitN(key, "/", 3) after one leading slash is trimmed. */
  function ParseObjectKey(key: string): Option<Ref> {
    var parts := Split(if key != [] && key[0] == '/' then key[1..] else key);
    if |parts| < 3 then None
    else
      var r := Ref(parts[0], parts[1], Join(parts[2..]));
      if Valid(r) then Some(r) else None
  }

  lemma {:induction false} ResolveOrdinary(parts: seq<string>, acc: seq<string>)
    requires forall c :: c in parts ==> Ordinary(c)
    ensures Resolve(parts, acc) == acc + parts
    decreases parts
  {
    if parts != [] {
      assert parts[0] in parts;
      ResolveOrdinary(parts[1..], acc + [parts[0]]);
      assert acc + [parts[0]] + parts[1..] == acc + parts;
    } else {
      assert acc + parts == acc;
    }
  }

  /** Cleaning leaves only ordinary components, without slashes. */
  lemma {:induction false} ResolvedIsOrdinary(parts: seq<string>, acc: seq<string>)
    requires NoSlash(parts) && NoSlash(acc) && forall c :: c in acc ==> Ordinary(c)
    ensures NoSlash(Resolve(parts, acc)) && forall c :: c in Resolve(parts, acc) ==> Ordinary(c)
    decreases parts
  {
    if parts != [] {
      assert parts[0] in parts;
      if Dropped(parts[0]) {
        ResolvedIsOrdinary(parts[1..], acc);
      } else if parts[0] == ".." {
        ResolvedIsOrdinary(parts[1..], if acc == [] then [] else acc[..|acc| - 1]);
      } else {
        ResolvedIsOrdinary(parts[1..], acc + [parts[0]]);
      }
    }
  }

  /** The pieces of a reference's key. */
  lemma KeyParts(r: Ref)
    requires Valid(r)
    ensures Split(ObjectKey(r)) == [r.dataset, r.version] + Split(r.name)
  {
    SplitPlain(r.dataset);
    SplitPlain(r.version);
    hide Split;
    SplitConcat(r.version, r.name);
    SplitConcat(r.dataset, r.version + "/" + r.name);
    assert ObjectKey(r) == r.dataset + "/" + (r.version + "/" + r.name);
    assert [r.dataset] + ([r.version] + Split(r.name)) == [r.dataset, r.version] + Split(r.name);
  }

  lemma ResolveSkips(parts: seq<string>, acc: seq<string>)
    ensures Resolve([""] + parts, acc) == Resolve(parts, acc)
  {
    assert ([""] + parts)[1..] == parts;
  }

  lemma FilePathIs(r: Ref)
    requires Valid(r)
    ensures FilePath(r) == "/" + Join(Resolve(Split(ObjectKey(r)), []))
  {
    var path := "/" + ("/" + r.dataset) + ("/" + r.version) + ("/" + r.name);
    assert path == "" + "/" + ("" + "/" + ObjectKey(r));
    SplitConcat("", "" + "/" + ObjectKey(r));
    SplitConcat("", ObjectKey(r));
    SplitPlain("");
    hide Split, Resolve;
    var parts := Split(ObjectKey(r));
    assert Split(path) == [""] + ([""] + parts);
    ResolveSkips([""] + parts, []);
    ResolveSkips(parts, []);
  }

  /** The key of a path that cleaning left is its components' join. */
  lemma KeyOfClean(parts: seq<string>, room: nat)
    requires parts != [] && NoSlash(parts) && (forall c :: c in parts ==> Ordinary(c))
    ensures PathKey("/" + Join(parts), room) == Ok(Join(parts)) <==> |Join(parts)| < room
    ensures PathKey("/" + Join(parts), room).Ok? ==> PathKey("/" + Join(parts), room) == Ok(Join(parts))
  {
    SplitInvertsJoin(parts);
    SplitConcat("", Join(parts));
    assert "" + "/" + Join(parts) == "/" + Join(parts);
    SplitPlain("");
    KeptOrdinary(parts);
    assert Kept([""] + parts) == parts by {
      assert ([""] + parts)[1..] == parts;
    }
    PathKeyIs("/" + Join(parts), room);
    hide PathKey, Kept, Join, Split;
    assert ".." !in [""] + parts;
  }

  /** The NFS view of a reference and its object key are one name exactly when no
      component of it is empty, "." or "..". */
  lemma ViewsAgreeExactly(r: Ref, room: nat)
    requires Valid(r) && |ObjectKey(r)| < room
    ensures PathKey(FilePath(r), room) == Ok(ObjectKey(r)) <==> forall c :: c in Split(ObjectKey(r)) ==> Ordinary(c)
  {
    var parts := Split(ObjectKey(r));
    FilePathIs(r);
    SplitHasNoSlash(ObjectKey(r));
    JoinInvertsSplit(ObjectKey(r));
    hide Split, PathKey, FilePath;
    if forall c :: c in parts ==> Ordinary(c) {
      ResolveOrdinary(parts, []);
      assert [] + parts == parts;
      hide Resolve;
      KeyOfClean(parts, room);
    } else if PathKey(FilePath(r), room) == Ok(ObjectKey(r)) {
      var kept := Resolve(parts, []);
      ResolvedIsOrdinary(parts, []);
      hide Resolve;
      KeyIsOrdinary(kept, room, ObjectKey(r));
      assert false;
    }
  }

  lemma KeyIsOrdinary(kept: seq<string>, room: nat, key: string)
    requires NoSlash(kept) && (forall c :: c in kept ==> Ordinary(c)) && PathKey("/" + Join(kept), room) == Ok(key)
    ensures Split(key) == kept && forall c :: c in Split(key) ==> Ordinary(c)
  {
    hide PathKey;
    if kept == [] {
      RootHasNoKey(room);
      assert false;
    }
    KeyOfClean(kept, room);
    SplitInvertsJoin(kept);
  }

  lemma RootHasNoKey(room: nat)
    ensures PathKey("/" + Join([]), room) == Empty
  {
    assert "/" + Join([]) == "" + "/" + "";
    SplitConcat("", "");
    SplitPlain("");
    PathKeyIs("/" + Join([]), room);
    assert ["", ""][1..] == [""];
    assert Kept(["", ""]) == [];
  }

  /** A valid reference is what its key, with or without a leading slash, parses to. */
  lemma KeyRoundTrip(r: Ref)
    requires Valid(r)
    ensures ParseObjectKey(ObjectKey(r)) == Some(r) && ParseObjectKey("/" + ObjectKey(r)) == Some(r)
  {
    KeyParts(r);
    JoinInvertsSplit(r.name);
    hide Split, Join;
    assert ObjectKey(r)[0] == r.dataset[0] && r.dataset[0] in r.dataset;
    assert ("/" + ObjectKey(r))[1..] == ObjectKey(r);
    var parts := [r.dataset, r.version] + Split(r.name);
    assert parts[2..] == Split(r.name);
  }

  /** And only valid references come out of a key, with that key. */
  lemma ParsedIsTheKey(key: string)
    requires ParseObjectKey(key).Some?
    ensures Valid(ParseObjectKey(key).value)
    ensures key == ObjectKey(ParseObjectKey(key).value) || key == "/" + ObjectKey(ParseObjectKey(key).value)
  {
    hide Split, Join;
    var trimmed := if key != [] && key[0] == '/' then key[1..] else key;
    JoinInvertsSplit(trimmed);
    var parts := Split(trimmed);
    JoinOfThree(parts);
    assert ObjectKey(ParseObjectKey(key).value) == trimmed;
    assert key != trimmed ==> key == ['/'] + key[1..];
  }

  lemma JoinOfThree(parts: seq<string>)
    requires |parts| >= 3
    ensures Join(parts) == parts[0] + "/" + parts[1] + "/" + Join(parts[2..])
  {
    assert parts[1..][1..] == parts[2..];
    assert Join(parts) == parts[0] + "/" + Join(parts[1..]);
    assert Join(parts[1..]) == parts[1] + "/" + Join(parts[2..]);
    hide Join;
    assert parts[0] + "/" + (parts[1] + "/" + Join(parts[2..])) == parts[0] + "/" + parts[1] + "/" + Join(parts[2..]);
  }

  function Climber(): Ref {
    Ref("d", "v", "x/../y")
  }

  lemma ClimberParts()
    ensures Valid(Climber()) && Split(ObjectKey(Climber())) == ["d", "v", "x", "..", "y"]
  {
    var r := Climber();
    SplitPlain("x");
    SplitPlain("..");
    SplitPlain("y");
    hide Split;
    KeyParts(r);
    assert r.name == "x" + "/" + (".." + "/" + "y");
    SplitConcat("x", ".." + "/" + "y");
    SplitConcat("..", "y");
    assert ["x"] + ([".."] + ["y"]) == ["x", "..", "y"];
    assert ["d", "v"] + ["x", "..", "y"] == ["d", "v", "x", "..", "y"];
  }

  lemma ClimberResolves()
    ensures Resolve(["d", "v", "x", "..", "y"], []) == ["d", "v", "y"]
  {
    hide Split, Join;
    ResolveOne("d", ["v", "x", "..", "y"], []);
    ResolveOne("v", ["x", "..", "y"], ["d"]);
    ResolveOne("x", ["..", "y"], ["d", "v"]);
    assert ["..", "y"][1..] == ["y"] && ["d", "v", "x"][..2] == ["d", "v"];
    assert Resolve(["..", "y"], ["d", "v", "x"]) == Resolve(["y"], ["d", "v"]);
    ResolveOne("y", [], ["d", "v"]);
    hide Resolve;
    assert ["d"] + ["v", "x", "..", "y"] == ["d", "v", "x", "..", "y"] &&
      ["v"] + ["x", "..", "y"] == ["v", "x", "..", "y"];
    assert ["x"] + ["..", "y"] == ["x", "..", "y"] && ["y"] + [] == ["y"];
    assert [] + ["d"] == ["d"] && ["d"] + ["v"] == ["d", "v"] && ["d", "v"] + ["x"] == ["d", "v", "x"];
    assert Resolve([], ["d", "v", "y"]) == ["d", "v", "y"] by {
      ResolveOrdinary([], ["d", "v", "y"]);
    }
  }

  lemma ResolveOne(c: string, rest: seq<string>, acc: seq<string>)
    requires Ordinary(c)
    ensures Resolve([c] + rest, acc) == Resolve(rest, acc + [c])
  {
    assert ([c] + rest)[1..] == rest;
  }

  /** The dots at work: the served path of this reference is another's key. */
  lemma DotsNameAnother()
    ensures Valid(Climber()) && PathKey(FilePath(Climber()), 64) == Ok(ObjectKey(Ref("d", "v", "y")))
    ensures ObjectKey(Climber()) != ObjectKey(Ref("d", "v", "y"))
  {
    hide Split, PathKey, FilePath, Resolve, Join, ObjectKey, Climber;
    ClimberParts();
    FilePathIs(Climber());
    ClimberResolves();
    ClimbedTo();
    KeyOfClean(["d", "v", "y"], 64);
  }

  lemma ClimbedTo()
    ensures Join(["d", "v", "y"]) == ObjectKey(Ref("d", "v", "y")) && |Join(["d", "v", "y"])| < 64
    ensures ObjectKey(Climber()) != ObjectKey(Ref("d", "v", "y"))
  {
    var parts := ["d", "v", "y"];
    assert |ObjectKey(Climber())| == 10 && |ObjectKey(Ref("d", "v", "y"))| == 5;
    assert parts[1..] == ["v", "y"] && ["v", "y"][1..] == ["y"];
  }
}
