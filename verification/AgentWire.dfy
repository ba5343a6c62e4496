/** The frames between the node agent and an NFS server, written once in Go and once
    in C: requests, replies and listings, and that the two agree. */
module AgentWire {
  import opened Common

  const MAGIC := 0x4642_5259
  const VERSION := 2
  const OP_READ := 1
  const OP_STAT := 2
  const OP_LIST := 3
  const MAX_NAME := 1024
  const REQUEST_HEADER := 28
  const REPLY_HEADER := 14
  const ENTRY_HEADER := 11

  // ---- Big-endian numbers ----

  function PutBE(v: nat, n: nat): (b: Bytes)
    ensures |b| == n
  {
    if n == 0 then [] else PutBE(v / 0x100, n - 1) + [v % 0x100]
  }

  function GetBE(b: Bytes): nat {
    if b == [] then 0 else 0x100 * GetBE(b[..|b| - 1]) + b[|b| - 1]
  }

  lemma {:induction false} GetInvertsPut(v: nat, n: nat)
    requires v < Pow256(n)
    ensures GetBE(PutBE(v, n)) == v
  {
    if n > 0 {
      GetInvertsPut(v / 0x100, n - 1);
      assert PutBE(v, n)[..n - 1] == PutBE(v / 0x100, n - 1);
    }
  }

  lemma {:induction false} PutInvertsGet(b: Bytes)
    ensures PutBE(GetBE(b), |b|) == b && GetBE(b) < Pow256(|b|)
  {
    if b != [] {
      PutInvertsGet(b[..|b| - 1]);
      assert b == b[..|b| - 1] + [b[|b| - 1]];
    }
  }

  lemma Widths()
    ensures Pow256(2) == 0x1_0000 && Pow256(4) == 0x1_0000_0000 && Pow256(8) == TWO_64
  {
    assert Pow256(4) == 0x1_0000_0000;
  }

  /** A signed 64-bit number survives its unsigned form. */
  lemma SignedSurvives(x: int)
    requires IsInt64(x)
    ensures Wrap64(GetBE(PutBE(x % TWO_64, 8))) == x
  {
    hide GetBE, PutBE, Pow256, Wrap64;
    Widths();
    GetInvertsPut(x % TWO_64, 8);
    WrapUndoesMod(x);
  }

  lemma WrapUndoesMod(x: int)
    requires IsInt64(x)
    ensures Wrap64(x % TWO_64) == x
  {
  }

  /** binary.BigEndian's Put, at an offset of a buffer. */
  method Put(p: array<Byte>, at: nat, v: nat, n: nat)
    requires at + n <= p.Length && v < Pow256(n)
    modifies p
    ensures p[..at] == old(p[..at]) && p[at + n..] == old(p[at + n..]) && p[at..at + n] == PutBE(v, n)
    ensures p[..at + n] == old(p[..at]) + PutBE(v, n)
  {
    var i: nat, left: nat := n, v;
    while i > 0
      invariant 0 <= i <= n && left < Pow256(i)
      invariant p[..at] == old(p[..at]) && p[at + n..] == old(p[at + n..])
      invariant PutBE(left, i) + p[at + i..at + n] == PutBE(v, n)
    {
      hide Pow256;
      PowSplits(left, i);
      p[at + i - 1] := left % 0x100;
      i, left := i - 1, left / 0x100;
      assert p[at + i..at + n] == [p[at + i]] + p[at + i + 1..at + n];
    }
    assert p[..at + n] == p[..at] + p[at..at + n];
  }

  lemma PowSplits(v: nat, i: nat)
    requires i > 0 && v < Pow256(i)
    ensures v / 0x100 < Pow256(i - 1)
  {
  }

  /** v >> 8 * k. */
  function Shifted(v: nat, k: nat): nat {
    if k == 0 then v else Shifted(v / 0x100, k - 1)
  }

  lemma {:induction false} PutBEAt(v: nat, n: nat, i: nat)
    requires i < n
    ensures PutBE(v, n)[i] == Shifted(v, n - 1 - i) % 0x100
  {
    if i < n - 1 {
      PutBEAt(v / 0x100, n - 1, i);
    }
  }

  /** put_u16, put_u32 and put_u64 of the C client: each byte by its own shift, from the
      first one up. */
  method PutUp(p: array<Byte>, at: nat, v: nat, n: nat)
    requires at + n <= p.Length
    modifies p
    ensures p[..at + n] == old(p[..at]) + PutBE(v, n) && p[at + n..] == old(p[at + n..])
  {
    hide PutBE;
    var i := 0;
    while i < n
      invariant 0 <= i <= n && p[..at] == old(p[..at]) && p[at + n..] == old(p[at + n..])
      invariant forall j :: 0 <= j < i ==> p[at + j] == PutBE(v, n)[j]
    {
      PutBEAt(v, n, i);
      p[at + i] := Shifted(v, n - 1 - i) % 0x100;
      i := i + 1;
    }
    assert p[..at + n] == p[..at] + p[at..at + n];
    assert p[at..at + n] == PutBE(v, n);
  }

  // ---- Requests ----

  datatype Request = Request(op: Byte, tenant: Bytes, name: Bytes, after: Bytes, offset: int, length: int)

  predicate NamesFit(r: Request) {
    |r.tenant| <= MAX_NAME && |r.name| <= MAX_NAME && |r.after| <= MAX_NAME
  }

  /** A zero operation is a read. */
  function Normal(op: Byte): Byte {
    if op == 0 then OP_READ else op
  }

  function Header(r: Request): Bytes {
    PutBE(MAGIC, 4) + [VERSION, r.op] + PutBE(|r.tenant|, 2) + PutBE(|r.name|, 2) + PutBE(|r.after|, 2)
    + PutBE(r.offset % TWO_64, 8) + PutBE(r.length % TWO_64, 8)
  }

  function Frame(r: Request): Bytes {
    Header(r) + r.tenant + r.name + r.after
  }

  function EncodeRequest(r: Request): Option<Bytes> {
    if NamesFit(r) then Some(Frame(r.(op := Normal(r.op)))) else None
  }

  predicate KnownOp(op: Byte) {
    op == OP_READ || op == OP_STAT || op == OP_LIST
  }

  /** decodeRequest from a stream: the request and the bytes after it. */
  function DecodeRequest(s: Bytes): Option<(Request, Bytes)> {
    if |s| < REQUEST_HEADER then None
    else
      var t, n, a := GetBE(s[6..8]), GetBE(s[8..10]), GetBE(s[10..12]);
      var body := s[REQUEST_HEADER..];
      if GetBE(s[..4]) != MAGIC || s[4] != VERSION || !KnownOp(s[5]) then None
      else if t > MAX_NAME || n > MAX_NAME || a > MAX_NAME || |body| < t + n + a then None
      else Some((Request(s[5], body[..t], body[t..t + n], body[t + n..t + n + a],
                         Wrap64(GetBE(s[12..20])), Wrap64(GetBE(s[20..28]))), body[t + n + a..]))
  }

  predicate Numbers(r: Request) {
    IsInt64(r.offset) && IsInt64(r.length)
  }

  /** What stands where in a header. */
  lemma HeaderParts(r: Request, rest: Bytes)
    ensures var s := Header(r) + rest;
      && |Header(r)| == REQUEST_HEADER && s[REQUEST_HEADER..] == rest
      && s[..4] == PutBE(MAGIC, 4) && s[4] == VERSION && s[5] == r.op
      && s[6..8] == PutBE(|r.tenant|, 2) && s[8..10] == PutBE(|r.name|, 2) && s[10..12] == PutBE(|r.after|, 2)
      && s[12..20] == PutBE(r.offset % TWO_64, 8) && s[20..28] == PutBE(r.length % TWO_64, 8)
  {
    hide PutBE;
  }

  lemma NumbersReadBack(r: Request)
    requires NamesFit(r) && Numbers(r)
    ensures GetBE(PutBE(MAGIC, 4)) == MAGIC
    ensures GetBE(PutBE(|r.tenant|, 2)) == |r.tenant| && GetBE(PutBE(|r.name|, 2)) == |r.name|
    ensures GetBE(PutBE(|r.after|, 2)) == |r.after|
    ensures Wrap64(GetBE(PutBE(r.offset % TWO_64, 8))) == r.offset
    ensures Wrap64(GetBE(PutBE(r.length % TWO_64, 8))) == r.length
  {
    Widths();
    hide PutBE, GetBE, Pow256;
    GetInvertsPut(MAGIC, 4);
    GetInvertsPut(|r.tenant|, 2);
    GetInvertsPut(|r.name|, 2);
    GetInvertsPut(|r.after|, 2);
    SignedSurvives(r.offset);
    SignedSurvives(r.length);
  }

  lemma BodyParts(r: Request, suffix: Bytes)
    ensures var t, n, a := |r.tenant|, |r.name|, |r.after|;
      var body := r.tenant + r.name + r.after + suffix;
      && body[..t] == r.tenant && body[t..t + n] == r.name && body[t + n..t + n + a] == r.after
      && body[t + n + a..] == suffix
  {
  }

  /** A frame decodes to its request exactly when its operation is one this speaks,
      whatever follows it. */
  lemma FrameDecodes(r: Request, suffix: Bytes)
    requires NamesFit(r) && Numbers(r)
    ensures DecodeRequest(Frame(r) + suffix) == if KnownOp(r.op) then Some((r, suffix)) else None
  {
    hide PutBE, GetBE, Wrap64, Header;
    var body := r.tenant + r.name + r.after + suffix;
    HeaderParts(r, body);
    NumbersReadBack(r);
    BodyParts(r, suffix);
    FrameIs(r, suffix);
    hide Frame;
    var s := Header(r) + body;
    assert s[REQUEST_HEADER..] == body;
  }

  lemma FrameIs(r: Request, suffix: Bytes)
    ensures Frame(r) + suffix == Header(r) + (r.tenant + r.name + r.after + suffix)
  {
    hide Header;
  }

  lemma RequestRoundTrip(r: Request, suffix: Bytes)
    requires Numbers(r)
    ensures EncodeRequest(r).Some? <==> NamesFit(r)
    ensures NamesFit(r) ==>
      DecodeRequest(EncodeRequest(r).value + suffix) ==
      if KnownOp(Normal(r.op)) then Some((r.(op := Normal(r.op)), suffix)) else None
  {
    if NamesFit(r) {
      hide Frame, DecodeRequest;
      FrameDecodes(r.(op := Normal(r.op)), suffix);
    }
  }

  /** Go's encode: a header buffer filled at its offsets, then the names. */
  method WriteRequest(r: Request) returns (frame: Option<Bytes>)
    ensures frame == EncodeRequest(r)
  {
    if |r.tenant| > MAX_NAME || |r.name| > MAX_NAME || |r.after| > MAX_NAME {
      return None;
    }
    var op: Byte := r.op;
    if op == 0 {
      op := OP_READ;
    }
    var head := FillHeader(r.(op := op));
    frame := Some(head[..] + r.tenant + r.name + r.after);
  }

  method FillHeader(r: Request) returns (buf: array<Byte>)
    requires NamesFit(r)
    ensures buf[..] == Header(r)
  {
    Widths();
    hide PutBE, Pow256;
    buf := new Byte[REQUEST_HEADER](_ => 0);
    Put(buf, 0, MAGIC, 4);
    assert buf[..0] == [];
    buf[4] := VERSION;
    buf[5] := r.op;
    assert buf[..6] == PutBE(MAGIC, 4) + [VERSION, r.op];
    Put(buf, 6, |r.tenant|, 2);
    Put(buf, 8, |r.name|, 2);
    Put(buf, 10, |r.after|, 2);
    Put(buf, 12, r.offset % TWO_64, 8);
    Put(buf, 20, r.length % TWO_64, 8);
    assert buf[..28] == buf[..];
  }

  // ---- The C client's frame ----

  /** exchange's header, field by field as the C client writes it. */
  method FillHead(r: Request) returns (head: array<Byte>)
    ensures head[..] == Header(r)
  {
    hide PutBE;
    head := new Byte[REQUEST_HEADER](_ => 0);
    PutUp(head, 0, MAGIC, 4);
    assert head[..0] == [];
    head[4] := VERSION;
    head[5] := r.op;
    assert head[..6] == PutBE(MAGIC, 4) + [VERSION, r.op];
    PutUp(head, 6, |r.tenant|, 2);
    PutUp(head, 8, |r.name|, 2);
    PutUp(head, 10, |r.after|, 2);
    PutUp(head, 12, r.offset % TWO_64, 8);
    PutUp(head, 20, r.length % TWO_64, 8);
    assert head[..28] == head[..];
  }

  method Copy(to: array<Byte>, at: nat, from: Bytes)
    requires at + |from| <= to.Length
    modifies to
    ensures to[..at + |from|] == old(to[..at]) + from
  {
    var i := 0;
    while i < |from|
      invariant 0 <= i <= |from| && to[..at + i] == old(to[..at]) + from[..i]
    {
      to[at + i] := from[i];
      assert to[..at + i + 1] == to[..at + i] + [from[i]];
      assert from[..i + 1] == from[..i] + [from[i]];
      i := i + 1;
    }
    assert from[..i] == from;
  }

  /** exchange's frame: a missing `after` is an empty one. */
  method BuildFrame(r: Request) returns (frame: array<Byte>)
    requires NamesFit(r)
    ensures frame[..] == Frame(r)
  {
    hide Header, PutBE;
    var head := FillHead(r);
    HeaderLength(r);
    var t, n, a := |r.tenant|, |r.name|, |r.after|;
    frame := new Byte[REQUEST_HEADER + t + n + a](_ => 0);
    Join(frame, head[..], r.tenant, r.name, r.after);
  }

  /** The four memcpys, the last only if there is anything to copy. */
  method Join(frame: array<Byte>, head: Bytes, tenant: Bytes, name: Bytes, after: Bytes)
    requires frame.Length == |head| + |tenant| + |name| + |after|
    modifies frame
    ensures frame[..] == head + tenant + name + after
  {
    Copy(frame, 0, head);
    assert frame[..0] == [] && frame[..|head|] == head;
    Copy(frame, |head|, tenant);
    Copy(frame, |head| + |tenant|, name);
    if |after| > 0 {
      Copy(frame, |head| + |tenant| + |name|, after);
    } else {
      NothingMore(head + tenant + name, after);
    }
    assert frame[..frame.Length] == frame[..];
  }

  lemma NothingMore(s: Bytes, t: Bytes)
    requires |t| == 0
    ensures s + t == s
  {
  }

  lemma HeaderLength(r: Request)
    ensures |Header(r)| == REQUEST_HEADER
  {
  }

  // ---- Replies ----

  const STATUS_OK: Byte := 0
  const STATUS_RANGE: Byte := 1
  const STATUS_REFUSED: Byte := 2
  const STATUS_FAILED: Byte := 3

  function ReplyHeader(status: Byte, n: nat): Bytes {
    PutBE(MAGIC, 4) + [VERSION, status] + PutBE(n, 8)
  }

  /** Bytes are only carried by an OK. */
  function Payload(status: Byte, data: Bytes): Bytes {
    if status == STATUS_OK then data else []
  }

  function EncodeReply(status: Byte, data: Bytes): Bytes {
    ReplyHeader(status, |Payload(status, data)|) + Payload(status, data)
  }

  method WriteReply(status: Byte, data: Bytes) returns (out: Bytes)
    requires |data| <= MAX_INT64
    ensures out == EncodeReply(status, data)
  {
    Widths();
    hide PutBE, Pow256;
    var head := new Byte[REPLY_HEADER](_ => 0);
    Put(head, 0, MAGIC, 4);
    assert head[..0] == [];
    head[4] := VERSION;
    head[5] := status;
    assert head[..6] == PutBE(MAGIC, 4) + [VERSION, status];
    var body := data;
    if status != STATUS_OK {
      body := [];
    }
    Put(head, 6, |body|, 8);
    assert head[..14] == head[..];
    out := head[..] + body;
  }

  function DecodeReply(s: Bytes, max: int): Option<(Byte, Bytes, Bytes)> {
    if |s| < REPLY_HEADER || GetBE(s[..4]) != MAGIC || s[4] != VERSION then None
    else
      var n, body := Wrap64(GetBE(s[6..14])), s[REPLY_HEADER..];
      if n < 0 || n > max || |body| < n then None else Some((s[5], body[..n], body[n..]))
  }

  lemma ReplyParts(status: Byte, n: nat, rest: Bytes)
    requires n <= MAX_INT64
    ensures var s := ReplyHeader(status, n) + rest;
      && |s| >= REPLY_HEADER && s[REPLY_HEADER..] == rest && GetBE(s[..4]) == MAGIC && s[4] == VERSION && s[5] == status
      && GetBE(s[6..14]) == n
  {
    Widths();
    hide PutBE, GetBE, Pow256;
    var s := ReplyHeader(status, n) + rest;
    assert s[..4] == PutBE(MAGIC, 4) && s[6..14] == PutBE(n, 8);
    GetInvertsPut(MAGIC, 4);
    GetInvertsPut(n, 8);
  }

  /** A reply reads back whole exactly when its payload is no more than asked for. */
  lemma ReplyRoundTrip(status: Byte, data: Bytes, suffix: Bytes, max: int)
    requires |data| <= MAX_INT64
    ensures var p := Payload(status, data);
      DecodeReply(EncodeReply(status, data) + suffix, max) == if |p| <= max then Some((status, p, suffix)) else None
  {
    var p := Payload(status, data);
    ReplyParts(status, |p|, p + suffix);
    hide ReplyHeader, GetBE, Payload;
    assert EncodeReply(status, data) + suffix == ReplyHeader(status, |p|) + (p + suffix);
  }

  /** What the C client makes of a reply: its length compared unsigned, and a status
      nobody knows taken for a failure. */
  function ReadReply(s: Bytes, cap: int): Option<(Byte, Bytes, Bytes)> {
    if |s| < REPLY_HEADER || GetBE(s[..4]) != MAGIC || s[4] != VERSION then None
    else
      var n, body := GetBE(s[6..14]), s[REPLY_HEADER..];
      if n > cap || |body| < n then None
      else Some((if s[5] <= STATUS_REFUSED then s[5] else STATUS_FAILED, body[..n], body[n..]))
  }

  /** The two readers agree on every stream of bytes, but for a status neither names. */
  lemma ReadersAgree(s: Bytes, cap: int)
    requires 0 <= cap <= MAX_INT64
    ensures ReadReply(s, cap).Some? <==> DecodeReply(s, cap).Some?
    ensures ReadReply(s, cap).Some? ==>
      var (st, data, rest) := DecodeReply(s, cap).value;
      ReadReply(s, cap).value == (if st <= STATUS_REFUSED then st else STATUS_FAILED, data, rest)
  {
    if |s| >= REPLY_HEADER {
      Widths();
      PutInvertsGet(s[6..14]);
      hide GetBE, PutBE, Pow256;
    }
  }

  /** The C client's side of a conversation. */
  class Conn {
    var broken: bool
    const maxReply: int

    constructor (maxReply: int)
      requires 0 < maxReply <= MAX_INT64
      ensures !broken && this.maxReply == maxReply
    {
      broken, this.maxReply := false, maxReply;
    }

    /** exchange: `incoming` is what the socket would give. A conversation that lost
        its place stays broken, and says nothing more. */
    method Exchange(r: Request, cap: int, sends: bool, incoming: Bytes)
      returns (status: Byte, got: Bytes, sent: Bytes, rest: Bytes)
      modifies this
      ensures old(broken) ==> broken && status == STATUS_FAILED && sent == [] && rest == incoming
      ensures var refused := !NamesFit(r) || r.length <= 0 || cap <= 0 || cap > maxReply;
        !old(broken) ==>
          if refused then !broken && status == STATUS_REFUSED && sent == [] && rest == incoming
          else if !sends then broken && status == STATUS_FAILED
          else
            var reply := ReadReply(incoming, cap);
            && sent == Frame(r) && broken == reply.None?
            && (reply.None? ==> status == STATUS_FAILED)
            && (reply.Some? ==> (status, got, rest) == reply.value)
    {
      status, got, sent, rest := STATUS_FAILED, [], [], incoming;
      if broken {
        return;
      }
      if |r.tenant| > MAX_NAME || |r.name| > MAX_NAME || |r.after| > MAX_NAME ||
         r.length <= 0 || cap <= 0 || cap > maxReply {
        status := STATUS_REFUSED;
        return;
      }
      hide GetBE, Frame;
      var frame := BuildFrame(r);
      if !sends {
        broken := true;
        return;
      }
      sent := frame[..];
      if |incoming| < REPLY_HEADER {
        broken := true;
        return;
      }
      var reply := incoming[..REPLY_HEADER];
      assert reply[..4] == incoming[..4] && reply[6..14] == incoming[6..14];
      if GetBE(reply[..4]) != MAGIC || reply[4] != VERSION {
        broken := true;
        return;
      }
      var declared := GetBE(reply[6..14]);
      var body := incoming[REPLY_HEADER..];
      if declared > cap || |body| < declared {
        broken := true;
        return;
      }
      got, rest := body[..declared], body[declared..];
      if reply[5] == STATUS_OK || reply[5] == STATUS_RANGE || reply[5] == STATUS_REFUSED {
        status := reply[5];
      }
    }
  }

  /** get_u64 of the C client, and every narrower one. */
  method Get(p: Bytes) returns (v: nat)
    ensures v == GetBE(p)
  {
    v := 0;
    var i := 0;
    while i < |p|
      invariant 0 <= i <= |p| && v == GetBE(p[..i])
    {
      assert p[..i + 1][..i] == p[..i];
      v := 0x100 * v + p[i];
      i := i + 1;
    }
    assert p[..i] == p;
  }

  // ---- Listings ----

  datatype Entry = Entry(name: Bytes, dir: bool, bytes: int)

  function RecordHead(e: Entry): Bytes {
    PutBE(|e.name|, 2) + [if e.dir then 1 else 0] + PutBE(e.bytes % TWO_64, 8)
  }

  function Listing(es: seq<Entry>): Bytes {
    if es == [] then [] else Listing(es[..|es| - 1]) + RecordHead(es[|es| - 1]) + es[|es| - 1].name
  }

  predicate EntryFits(e: Entry) {
    |e.name| <= MAX_NAME
  }

  function EncodeEntries(es: seq<Entry>): Option<Bytes> {
    if forall i :: 0 <= i < |es| ==> EntryFits(es[i]) then Some(Listing(es)) else None
  }

  method FillRecord(e: Entry) returns (head: array<Byte>)
    requires EntryFits(e)
    ensures head[..] == RecordHead(e)
  {
    Widths();
    hide PutBE, Pow256;
    head := new Byte[ENTRY_HEADER](_ => 0);
    Put(head, 0, |e.name|, 2);
    assert head[..0] == [];
    if e.dir {
      head[2] := 1;
    }
    assert head[..3] == PutBE(|e.name|, 2) + [if e.dir then 1 else 0];
    Put(head, 3, e.bytes % TWO_64, 8);
    assert head[..11] == head[..];
  }

  method WriteEntries(es: seq<Entry>) returns (out: Option<Bytes>)
    ensures out == EncodeEntries(es)
  {
    hide RecordHead;
    var body: Bytes := [];
    var i := 0;
    while i < |es|
      invariant 0 <= i <= |es| && body == Listing(es[..i]) && forall j :: 0 <= j < i ==> EntryFits(es[j])
    {
      var e := es[i];
      if |e.name| > MAX_NAME {
        assert !EntryFits(es[i]);
        return None;
      }
      var head := FillRecord(e);
      assert es[..i + 1][..i] == es[..i];
      body := body + head[..] + e.name;
      i := i + 1;
    }
    assert es[..i] == es;
    out := Some(body);
  }

  /** The record at the front of a listing as Go reads it: the entry, and what follows. */
  function FirstEntry(body: Bytes): Option<(Entry, Bytes)> {
    if |body| < ENTRY_HEADER then None
    else
      var n, rest := GetBE(body[..2]), body[ENTRY_HEADER..];
      if |rest| < n then None
      else Some((Entry(rest[..n], body[2] == 1, Wrap64(GetBE(body[3..11]))), rest[n..]))
  }

  function DecodeEntries(body: Bytes): Option<seq<Entry>>
    decreases |body|
  {
    if body == [] then Some([])
    else
      var first := FirstEntry(body);
      if first.None? then None
      else
        var rest := DecodeEntries(first.value.1);
        if rest.None? then None else Some([first.value.0] + rest.value)
  }

  method ReadEntries(body: Bytes) returns (r: Option<seq<Entry>>)
    ensures r == DecodeEntries(body)
  {
    hide FirstEntry;
    var out: seq<Entry>, left := [], body;
    assert DecodeEntries(body).Some? ==> [] + DecodeEntries(body).value == DecodeEntries(body).value;
    while left != []
      invariant var rest := DecodeEntries(left);
        DecodeEntries(body) == if rest.None? then None else Some(out + rest.value)
      decreases |left|
    {
      var first := FirstEntry(left);
      if first.None? {
        return None;
      }
      FirstShortens(left);
      ghost var rest := DecodeEntries(first.value.1);
      assert rest.Some? ==> out + ([first.value.0] + rest.value) == out + [first.value.0] + rest.value;
      out, left := out + [first.value.0], first.value.1;
    }
    assert out + [] == out;
    r := Some(out);
  }

  lemma FirstShortens(body: Bytes)
    ensures FirstEntry(body).Some? ==> |FirstEntry(body).value.1| < |body|
  {
    hide GetBE;
  }

  ghost predicate Sized(es: seq<Entry>) {
    forall e :: e in es ==> EntryFits(e) && IsInt64(e.bytes)
  }

  lemma RecordParts(e: Entry, rest: Bytes)
    requires EntryFits(e) && IsInt64(e.bytes)
    ensures FirstEntry(RecordHead(e) + e.name + rest) == Some((e, rest))
    ensures var b := RecordHead(e) + e.name + rest; |b| >= ENTRY_HEADER && b[2] <= 1 && GetBE(b[..2]) == |e.name|
  {
    Widths();
    hide PutBE, GetBE, Pow256, Wrap64;
    var b := RecordHead(e) + e.name + rest;
    assert b[..2] == PutBE(|e.name|, 2) && b[3..11] == PutBE(e.bytes % TWO_64, 8);
    assert b[ENTRY_HEADER..] == e.name + rest;
    GetInvertsPut(|e.name|, 2);
    SignedSurvives(e.bytes);
  }

  /** Listings read from the front. */
  lemma {:induction false} ListingFront(es: seq<Entry>)
    requires es != []
    ensures Listing(es) == RecordHead(es[0]) + es[0].name + Listing(es[1..])
  {
    hide RecordHead, Listing;
    var front, last := es[..|es| - 1], es[|es| - 1];
    ListingEnds(es);
    if |es| == 1 {
      assert front == [] && es[1..] == [];
      NoListing();
    } else {
      ListingFront(front);
      ListingEnds(es[1..]);
      assert front[1..] == es[1..][..|es[1..]| - 1];
      Regroup(RecordHead(es[0]) + es[0].name, Listing(front[1..]), RecordHead(last), last.name);
    }
  }

  lemma NoListing()
    ensures Listing([]) == []
  {
  }

  lemma ListingEnds(es: seq<Entry>)
    requires es != []
    ensures Listing(es) == Listing(es[..|es| - 1]) + RecordHead(es[|es| - 1]) + es[|es| - 1].name
  {
    hide RecordHead;
  }

  lemma Regroup(a: Bytes, b: Bytes, c: Bytes, d: Bytes)
    ensures a + b + c + d == a + (b + c + d)
  {
  }

  lemma {:induction false} ListingRoundTrip(es: seq<Entry>)
    requires Sized(es)
    ensures DecodeEntries(Listing(es)) == Some(es)
    decreases |es|
  {
    hide RecordHead, FirstEntry;
    if es != [] {
      assert es[0] in es;
      ListingFront(es);
      RecordParts(es[0], Listing(es[1..]));
      FirstShortens(Listing(es));
      ListingRoundTrip(es[1..]);
      assert es == [es[0]] + es[1..];
      assert Listing(es) != [];
    }
  }

  /** decodeEntries inverts encodeEntries, which refuses exactly a name too long. */
  lemma EntriesRoundTrip(es: seq<Entry>)
    requires forall e :: e in es ==> IsInt64(e.bytes)
    ensures EncodeEntries(es).Some? <==> forall e :: e in es ==> EntryFits(e)
    ensures EncodeEntries(es).Some? ==> DecodeEntries(EncodeEntries(es).value) == Some(es)
  {
    hide Listing, DecodeEntries;
    if EncodeEntries(es).Some? {
      ListingRoundTrip(es);
    }
  }

  // ---- The C cursor ----

  datatype Step = End | Bad | Got(entry: Entry, at: int)

  /** forebay_entry_next, as a value. */
  function EntryNext(body: Bytes, at: int): Step {
    if at < 0 then Bad
    else if at >= |body| then End
    else if |body| - at < ENTRY_HEADER then Bad
    else
      var n := GetBE(body[at..at + 2]);
      if n >= MAX_NAME + 1 || |body| - at - ENTRY_HEADER < n then Bad
      else Got(Entry(body[at + ENTRY_HEADER..at + ENTRY_HEADER + n], body[at + 2] != 0,
        Wrap64(GetBE(body[at + 3..at + 11]))),
               at + ENTRY_HEADER + n)
  }

  /** The cursor itself: 1, 0 or -1, a record, and `at` moved past it. */
  method Advance(body: Bytes, at: int) returns (code: int, entry: Option<Entry>, at': int)
    ensures var s := EntryNext(body, at);
      && code == (match s case End => 0 case Bad => -1 case Got(_, _) => 1)
      && (s.Got? ==> entry == Some(s.entry) && at' == s.at) && (!s.Got? ==> entry == None && at' == at)
  {
    code, entry, at' := -1, None, at;
    if at < 0 {
      return;
    }
    if at >= |body| {
      code := 0;
      return;
    }
    if |body| - at < ENTRY_HEADER {
      return;
    }
    hide GetBE;
    var n := Get(body[at..at + 2]);
    if n >= MAX_NAME + 1 {
      return;
    }
    if |body| - at - ENTRY_HEADER < n {
      return;
    }
    var size := Get(body[at + 3..at + 11]);
    var name := body[at + ENTRY_HEADER..at + ENTRY_HEADER + n];
    code, entry, at' := 1, Some(Entry(name, body[at + 2] != 0, Wrap64(size))), at + ENTRY_HEADER + n;
  }

  /** Every record from `at` on, if the cursor comes to its end and not to a fault. */
  function Walk(body: Bytes, at: nat): Option<seq<Entry>>
    decreases |body| - at
  {
    match EntryNext(body, at)
    case End => Some([])
    case Bad => None
    case Got(e, next) =>
      var rest := Walk(body, next);
      if rest.None? then None else Some([e] + rest.value)
  }

  /** The cursor sees what Go sees, but takes any flag but zero for a directory and no
      name longer than the protocol's. */
  lemma CursorSeesTheSame(body: Bytes, at: nat)
    requires at < |body|
    ensures var first, s := FirstEntry(body[at..]), EntryNext(body, at);
      && (s.Got? <==> first.Some? && |first.value.0.name| <= MAX_NAME) && s != End
      && (s.Got? ==>
        && s.entry == first.value.0.(dir := body[at + 2] != 0) && first.value.0.dir == (body[at + 2] == 1)
        && at < s.at <= |body| && body[s.at..] == first.value.1)
  {
    hide GetBE, Wrap64;
    var b := body[at..];
    if |b| >= ENTRY_HEADER {
      assert b[..2] == body[at..at + 2] && b[3..11] == body[at + 3..at + 11];
      var n, rest := GetBE(b[..2]), b[ENTRY_HEADER..];
      if n <= |rest| {
        assert rest[..n] == body[at + ENTRY_HEADER..at + ENTRY_HEADER + n];
        assert rest[n..] == body[at + ENTRY_HEADER + n..];
      }
    }
  }

  /** On any body at all: if the cursor reaches the end, Go decodes it too, to the
      same names and sizes. */
  lemma {:induction false} WalkedDecodes(body: Bytes, at: nat)
    requires at <= |body| && Walk(body, at).Some?
    ensures var got := DecodeEntries(body[at..]);
      && got.Some? && |got.value| == |Walk(body, at).value|
      && forall i :: 0 <= i < |got.value| ==>
        got.value[i].name == Walk(body, at).value[i].name && got.value[i].bytes == Walk(body, at).value[i].bytes
    decreases |body| - at
  {
    hide FirstEntry, EntryNext;
    if at < |body| {
      CursorSeesTheSame(body, at);
      assert body[at..] != [];
      WalkedDecodes(body, EntryNext(body, at).at);
    } else {
      AtTheEnd(body, at);
      assert body[at..] == [];
    }
  }

  lemma AtTheEnd(body: Bytes, at: nat)
    requires at >= |body|
    ensures EntryNext(body, at) == End
  {
  }

  /** On every listing Go encodes, the cursor yields the same records byte for byte
      and ends with 0 exactly at the end. */
  lemma {:induction false} CursorReadsListing(es: seq<Entry>, before: Bytes)
    requires Sized(es)
    ensures Walk(before + Listing(es), |before|) == Some(es)
    decreases |es|
  {
    hide RecordHead, FirstEntry, EntryNext;
    var body := before + Listing(es);
    if es == [] {
      AtTheEnd(body, |before|);
    } else {
      var e, rest := es[0], Listing(es[1..]);
      assert e in es;
      ListingFront(es);
      RecordParts(e, rest);
      assert body[|before|..] == RecordHead(e) + e.name + rest;
      CursorSeesTheSame(body, |before|);
      var next := EntryNext(body, |before|);
      FlagReadsBack(e, body, |before|, rest);
      var more := before + (RecordHead(e) + e.name);
      assert body == more + rest;
      RecordLength(e);
      CursorReadsListing(es[1..], more);
      assert es == [e] + es[1..];
    }
  }

  lemma RecordLength(e: Entry)
    ensures |RecordHead(e)| == ENTRY_HEADER
  {
  }

  lemma FlagReadsBack(e: Entry, body: Bytes, at: nat, rest: Bytes)
    requires at < |body| && body[at..] == RecordHead(e) + e.name + rest && EntryFits(e) && IsInt64(e.bytes)
    ensures at + 2 < |body| && (body[at + 2] != 0) == e.dir
    ensures EntryNext(body, at).Got? ==> EntryNext(body, at).at == at + ENTRY_HEADER + |e.name|
  {
    RecordParts(e, rest);
    hide PutBE, GetBE, Wrap64;
    assert body[at..][2] == body[at + 2];
    assert body[at..][..2] == body[at..at + 2];
  }
}
