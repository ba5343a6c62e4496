/** The data server: a byte range of an immutable object, assembled on the block
    grid from the fast tier and the backend, is the plain slice of the object. */
module DataServer {
  import opened Common

  datatype Error = ErrRange | ErrRefused | ErrFailed | ErrCancelled | ErrContradiction | ErrAssembled

  datatype Result = Ok(value: Bytes) | Fail(err: Error)

  /** What the tier and the backend make of one block of a read. `hit` is the
      tier's answer; the others say which calls the backend answers, whether it
      reports sizes, and whether the caller gave up. */
  datatype Answers = Answers(
    cancelled: bool,
    hit: Option<Bytes>,
    wholeUp: bool,
    sized: bool,
    sizeUp: bool,
    tailUp: bool)

  /** The backend's contract: the exact bytes, a range error past the end, or
      some other failure. */
  function BackendRead(o: Bytes, offset: int, length: int, up: bool): Result {
    if offset < 0 || length < 0 then Fail(ErrRange)
    else if !up then Fail(ErrFailed)
    else if offset + length <= |o| then Ok(o[offset..offset + length])
    else Fail(ErrRange)
  }

  function Min(a: int, b: int): int {
    if a < b then a else b
  }

  /** data is block `index` of the object: a whole block, or the exact tail. */
  ghost predicate IsBlock(o: Bytes, block: int, index: int, data: Bytes) {
    0 <= index && IsBlockFrom(o, block, index * block, data)
  }

  ghost predicate IsBlockFrom(o: Bytes, block: int, start: int, data: Bytes) {
    block > 0 && 0 <= start < |o| && data == o[start..Min(start + block, |o|)]
  }

  /** What a read ending at `end` has assembled when it reaches `start`. */
  ghost predicate Assembled(o: Bytes, block: int, offset: int, end: int, start: int, out: Bytes) {
    if start <= offset then out == [] && offset < start + block
    else 0 <= offset <= Min(start, end) <= |o| && out == o[offset..Min(start, end)]
  }

  lemma SliceOfSlice(o: Bytes, a: nat, b: nat, lo: nat, hi: nat)
    requires a <= b <= |o| && lo <= hi <= b - a
    ensures o[a..b][lo..hi] == o[a + lo..a + hi]
  {
    var x, y := o[a..b][lo..hi], o[a + lo..a + hi];
    assert |x| == |y|;
    assert forall i :: 0 <= i < |x| ==> x[i] == o[a + lo + i] == y[i];
  }

  /** One block's share of the read extends the slice. */
  lemma AssembledGrows(o: Bytes, block: int, offset: int, end: int, start: int, out: Bytes, data: Bytes)
    requires block > 0 && 0 <= offset < end && 0 <= start < end && Assembled(o, block, offset, end, start, out)
    requires
      || IsBlockFrom(o, block, start, data)
      || (end <= |o| && end < start + block && data == o[start..end])
    requires |data| < block ==> end <= start + |data|
    ensures var lo := if offset > start then offset - start else 0;
      var hi := Min(end - start, |data|);
      lo <= hi && Assembled(o, block, offset, end, start + block, out + data[lo..hi]) && start < |o|
  {
    var lo := if offset > start then offset - start else 0;
    var hi := Min(end - start, |data|);
    PieceIsASlice(o, block, start, end, data);
    hide IsBlockFrom;
    assert start <= offset ==> offset < start + block;
    SliceOfSlice(o, start, start + |data|, lo, hi);
    Joins(o, block, offset, end, start, out, data[lo..hi]);
  }

  lemma Joins(o: Bytes, block: int, offset: int, end: int, start: int, out: Bytes, piece: Bytes)
    requires block > 0 && 0 <= offset < end && 0 <= start < end && Assembled(o, block, offset, end, start, out)
    requires Min(start + block, end) <= |o|
    requires piece == o[if offset > start then offset else start..Min(start + block, end)]
    ensures Assembled(o, block, offset, end, start + block, out + piece)
  {
    if start <= offset {
      assert out + piece == piece;
    } else {
      Slices(o, offset, start, Min(start + block, end));
    }
  }

  lemma PieceIsASlice(o: Bytes, block: int, start: int, end: int, data: Bytes)
    requires block > 0 && 0 <= start < end
    requires
      || IsBlockFrom(o, block, start, data)
      || (end <= |o| && end < start + block && data == o[start..end])
    requires |data| < block ==> end <= start + |data|
    ensures start < start + |data| <= |o| && data == o[start..start + |data|]
    ensures start + Min(end - start, |data|) == Min(start + block, end)
  {
  }

  lemma Slices(o: Bytes, a: nat, b: nat, c: nat)
    requires a <= b <= c <= |o|
    ensures o[a..b] + o[b..c] == o[a..c]
  {
  }

  /** A block index some offset can name. */
  ghost predicate Addressable(block: int, index: int) {
    0 <= index && index * block <= MAX_INT64
  }

  ghost predicate Faithful(o: Bytes, block: int, index: int, a: Answers) {
    a.hit.Some? ==> IsBlock(o, block, index, a.hit.value)
  }

  /** Nothing fails and nobody gives up. */
  ghost predicate Smooth(a: Answers) {
    !a.cancelled && a.wholeUp && a.sizeUp && a.tailUp
  }

  /** A request ReadRange does not refuse. */
  predicate InBounds(tenant: string, name: string, offset: int, length: int, maxRead: int) {
    tenant != "" && name != "" && 0 <= offset <= MAX_INT64 - length && 0 < length <= maxRead
  }

  // ---- What the server offers the tier ----

  /** The block a demanded read gives the tier to admit: nothing on a hit, the whole
      block if there is one, and the exact tail where sizes are reported. */
  function BlockOffer(o: Bytes, block: int, index: int, wantEnd: int, a: Answers): Option<Bytes> {
    var whole := BackendRead(o, index * block, block, a.wholeUp);
    if a.hit.Some? then None
    else if whole.Ok? then Some(whole.value)
    else if whole.err != ErrRange || !a.sized || !a.sizeUp || wantEnd > |o| || |o| - index * block >= block then None
    else
      var tail := BackendRead(o, index * block, |o| - index * block, a.tailUp);
      if tail.Ok? then Some(tail.value) else None
  }

  /** And what a prediction does, at the int64 product of the source. */
  function FetchOffer(o: Bytes, block: int, index: int, up: bool): Option<Bytes> {
    var r := BackendRead(o, Wrap64(index * block), block, up);
    if r.Ok? then Some(r.value) else None
  }

  /** data is offered under this index by some demanded read of the object. */
  ghost predicate DemandOffer(o: Bytes, block: int, index: int, data: Bytes) {
    Addressable(block, index) &&
    exists wantEnd, a :: index * block < wantEnd && BlockOffer(o, block, index, wantEnd, a) == Some(data)
  }

  ghost predicate PredictedOffer(o: Bytes, block: int, index: int, data: Bytes) {
    exists up :: FetchOffer(o, block, index, up) == Some(data)
  }

  lemma OfferedOnDemand(o: Bytes, block: int, index: int, wantEnd: int, a: Answers)
    requires Addressable(block, index) && index * block < wantEnd && BlockOffer(o, block, index, wantEnd, a).Some?
    ensures DemandOffer(o, block, index, BlockOffer(o, block, index, wantEnd, a).value)
  {
  }

  /** What a demanded read offers is the block: whole, or the exact tail. */
  lemma DemandIsHonest(o: Bytes, block: int, index: int, data: Bytes)
    requires block > 0 && DemandOffer(o, block, index, data)
    ensures IsBlock(o, block, index, data)
  {
    var wantEnd, a :| index * block < wantEnd && BlockOffer(o, block, index, wantEnd, a) == Some(data);
  }

  /** What a prediction offers is the block it is filed under exactly when a read can
      ask for that block. */
  lemma PredictionIsHonestExactly(o: Bytes, block: int, index: int, data: Bytes)
    requires 0 < block && |o| <= MAX_INT64 - block && PredictedOffer(o, block, index, data)
    ensures IsBlock(o, block, index, data) <==> Addressable(block, index)
  {
    var up :| FetchOffer(o, block, index, up) == Some(data);
  }

  class Server {
    const block: int
    const maxRead: int
    var blocks: nat
    var hits: nat
    var fetched: nat
    var narrowed: nat

    /** Every block answered is counted once, under what answered it. */
    ghost predicate Valid()
      reads this
    {
      block > 0 && blocks == hits + fetched + narrowed
    }

    constructor (block: int, maxRead: int)
      requires block > 0
      ensures Valid() && this.block == block && this.maxRead == maxRead
    {
      this.block, this.maxRead := block, maxRead;
      blocks, hits, fetched, narrowed := 0, 0, 0, 0;
    }

    /** blockAt. `offer` is what it gives the tier to admit. */
    method BlockAt(o: Bytes, index: int, wantEnd: int, a: Answers) returns (r: Result, offer: Option<Bytes>)
      requires Valid() && Addressable(block, index) && index * block < wantEnd && Faithful(o, block, index, a)
      modifies this
      ensures Valid()
      ensures offer == BlockOffer(o, block, index, wantEnd, a)
      ensures offer.Some? ==> IsBlock(o, block, index, offer.value)
      ensures r.Ok? ==>
        || IsBlock(o, block, index, r.value)
        || (wantEnd <= |o| && wantEnd < index * block + block && r.value == o[index * block..wantEnd])
      ensures r == Fail(ErrRange) ==> wantEnd > |o|
      ensures r.Fail? ==> r.err != ErrContradiction && r.err != ErrAssembled
      ensures Smooth(a) && r.Fail? ==> r.err == ErrRange
    {
      offer := None;
      if a.hit.Some? {
        blocks, hits := blocks + 1, hits + 1;
        return Ok(a.hit.value), None;
      }
      var start := index * block;
      r := BackendRead(o, start, block, a.wholeUp);
      if r.Ok? {
        blocks, fetched := blocks + 1, fetched + 1;
        return r, Some(r.value);
      }
      if r.err != ErrRange {
        return;
      }
      if a.sized {
        r, offer := TailBySize(o, index, wantEnd, a);
        return;
      }
      var narrow := wantEnd - start;
      if narrow <= 0 || narrow >= block {
        return;
      }
      r := BackendRead(o, start, narrow, a.tailUp);
      if r.Ok? {
        blocks, narrowed := blocks + 1, narrowed + 1;
      }
    }

    method TailBySize(o: Bytes, index: int, wantEnd: int, a: Answers) returns (r: Result, offer: Option<Bytes>)
      requires Valid() && Addressable(block, index) && index * block < wantEnd && index * block + block > |o|
      modifies this
      ensures Valid()
      ensures a.hit.None? && a.wholeUp && a.sized ==> offer == BlockOffer(o, block, index, wantEnd, a)
      ensures offer.Some? ==> IsBlock(o, block, index, offer.value)
      ensures r.Ok? ==> IsBlock(o, block, index, r.value)
      ensures r == Fail(ErrRange) ==> wantEnd > |o|
      ensures r.Fail? ==> r.err != ErrContradiction && r.err != ErrAssembled
      ensures Smooth(a) && r.Fail? ==> r.err == ErrRange
    {
      offer := None;
      if !a.sizeUp {
        return Fail(ErrFailed), None;
      }
      var start := index * block;
      var length := |o| - start;
      if wantEnd > |o| {
        return Fail(ErrRange), None;
      }
      if length >= block {
        return Fail(ErrContradiction), None;
      }
      r := BackendRead(o, start, length, a.tailUp);
      if r.Ok? {
        blocks, fetched := blocks + 1, fetched + 1;
        offer := Some(r.value);
      }
    }

    /** One turn of ReadRange's loop: this block's share of the read. */
    method Piece(o: Bytes, offset: int, end: int, index: int, start: int, ghost out: Bytes, a: Answers)
      returns (r: Result, offered: Option<Bytes>)
      requires Valid() && Addressable(block, index) && start == index * block && 0 <= offset < end && start < end
      requires Faithful(o, block, index, a) && Assembled(o, block, offset, end, start, out)
      modifies this
      ensures Valid() && offered == BlockOffer(o, block, index, end, a)
      ensures r.Ok? ==> start < |o| && Assembled(o, block, offset, end, start + block, out + r.value)
      ensures r == Fail(ErrRange) ==> end > |o|
      ensures r.Fail? ==> r.err != ErrContradiction && r.err != ErrAssembled
      ensures Smooth(a) && r.Fail? ==> r.err == ErrRange
    {
      hide Assembled, BlockOffer;
      r, offered := BlockAt(o, index, end, a);
      if r.Fail? {
        return;
      }
      var data := r.value;
      if |data| < block && end > start + |data| {
        return Fail(ErrRange), offered;
      }
      AssembledGrows(o, block, offset, end, start, out, data);
      var lo := if offset > start then offset - start else 0;
      var hi := if end - start < |data| then end - start else |data|;
      r := Ok(data[lo..hi]);
    }

    /** ReadRange refines slicing. Whatever the tier holds, whatever fails and
        whoever gives up between blocks, bytes that come back are the slice; a
        range error is never given for a range inside the object; with nothing
        failing it is the only error a range in bounds of the request can get;
        and the length check after the loop never fires. */
    method ReadRange(tenant: string, name: string, o: Bytes, offset: int, length: int, env: int -> Answers)
      returns (r: Result, offers: seq<(int, Bytes)>)
      requires Valid() && IsInt64(offset) && IsInt64(length) && |o| <= MAX_INT64 - block
      requires forall i :: Addressable(block, i) ==> Faithful(o, block, i, env(i))
      modifies this
      ensures Valid()
      ensures r.Ok? && length > 0 ==> 0 <= offset && offset + length <= |o| && r.value == o[offset..offset + length]
      ensures r.Ok? && length == 0 ==> r.value == []
      ensures r == Fail(ErrRange) ==> offset + length > |o|
      ensures r.Fail? ==> r.err != ErrContradiction && r.err != ErrAssembled
      ensures forall x :: x in offers ==> DemandOffer(o, block, x.0, x.1)
      ensures InBounds(tenant, name, offset, length, maxRead) && (forall i :: Smooth(env(i))) ==>
        if offset + length <= |o| then r.Ok? else r == Fail(ErrRange)
    {
      offers := [];
      if tenant == "" || name == "" || offset < 0 || length < 0 {
        return Fail(ErrRefused), offers;
      }
      if length == 0 {
        return Ok([]), offers;
      }
      if offset > MAX_INT64 - length || length > maxRead {
        return Fail(ErrRefused), offers;
      }
      var end := offset + length;
      var out: Bytes := [];
      var index := offset / block;
      var start := index * block;
      GridStart(offset, block);
      while start < end
        invariant Valid() && start == index * block && 0 <= index && Assembled(o, block, offset, end, start, out)
        invariant forall x :: x in offers ==> DemandOffer(o, block, x.0, x.1)
        decreases end - start
      {
        hide Assembled, BlockOffer, DemandOffer, Faithful;
        if env(index).cancelled {
          return Fail(ErrCancelled), offers;
        }
        assert Addressable(block, index);
        var offered;
        r, offered := Piece(o, offset, end, index, start, out, env(index));
        if offered.Some? {
          OfferedOnDemand(o, block, index, end, env(index));
          offers := offers + [(index, offered.value)];
        }
        if r.Fail? {
          return;
        }
        out := out + r.value;
        assert IsInt64(start + block); // the loop's own addition does not wrap
        NextStart(index, block);
        index, start := index + 1, start + block;
      }
      if |out| != length {
        return Fail(ErrAssembled), offers;
      }
      r := Ok(out);
    }

    /** fetchOne: what a prediction may put in the tier. The offset is the int64
        product of the source, so an index no offset can name wraps, and what it
        offers is the block it is filed under exactly when the index is one that
        a read can ask for. */
    method FetchOne(o: Bytes, index: int, resident: bool, up: bool) returns (offer: Option<Bytes>)
      requires Valid() && |o| <= MAX_INT64 - block
      ensures offer == if resident then None else FetchOffer(o, block, index, up)
      ensures offer.Some? ==> (IsBlock(o, block, index, offer.value) <==> Addressable(block, index))
      ensures Addressable(block, index) && !resident && up && index * block + block <= |o| ==> offer.Some?
    {
      if resident {
        return None;
      }
      var r := BackendRead(o, Wrap64(index * block), block, up);
      if r.Fail? {
        return None;
      }
      offer := Some(r.value);
    }
  }

  lemma NextStart(index: int, block: int)
    ensures (index + 1) * block == index * block + block
  {
  }

  lemma GridStart(offset: int, block: int)
    requires 0 <= offset && block > 0
    ensures 0 <= offset / block && offset / block * block <= offset < offset / block * block + block
  {
  }
}
