/** The protobuf wire format, after the Protocol Buffers Encoding specification:
    "Base 128 Varints", "Message Structure", "Length-Delimited Records" and
    "Maps". Strings are byte strings. */
module ProtoWire {
  import opened Common

  datatype Error = Truncated | WireType | FieldNumber

  datatype Result<+T> = Ok(value: T) | Err(error: Error)

  const WIRE_VARINT := 0
  const WIRE_FIXED64 := 1
  const WIRE_BYTES := 2
  const WIRE_FIXED32 := 5

  /** A uint64 of the source. */
  predicate IsUint64(v: int) {
    0 <= v < TWO_64
  }

  // ---- Varints ----

  function EncodeUvarint(v: nat): Bytes {
    if v < 0x80 then [v] else [v % 0x80 + 0x80] + EncodeUvarint(v / 0x80)
  }

  /** A varint from its byte number i on: the value of those bytes, and the rest. */
  function Uvarint(b: Bytes, i: nat): Result<(nat, Bytes)> {
    if b == [] || (i == 9 && b[0] > 1) then Err(Truncated)
    else if b[0] < 0x80 then Ok((b[0], b[1..]))
    else
      var more := Uvarint(b[1..], i + 1);
      if more.Err? then more else Ok((b[0] - 0x80 + 0x80 * more.value.0, more.value.1))
  }

  /** One more than the largest value that fits from byte number i of a varint on. */
  function Room(i: nat): nat
    requires i <= 9
  {
    if i == 0 then TWO_64
    else if i == 1 then 0x200_0000_0000_0000
    else if i == 2 then 0x4_0000_0000_0000
    else if i == 3 then 0x800_0000_0000
    else if i == 4 then 0x10_0000_0000
    else if i == 5 then 0x2000_0000
    else if i == 6 then 0x40_0000
    else if i == 7 then 0x8000
    else if i == 8 then 0x100
    else 2
  }

  lemma RoomShrinks(i: nat)
    requires i < 9
    ensures Room(i) == 0x80 * Room(i + 1)
  {
  }

  lemma {:induction false} UvarintInverts(v: nat, i: nat, suffix: Bytes)
    requires i <= 9 && v < Room(i)
    ensures Uvarint(EncodeUvarint(v) + suffix, i) == Ok((v, suffix))
    decreases v
  {
    var b := EncodeUvarint(v) + suffix;
    if v < 0x80 {
      assert b[1..] == suffix;
    } else {
      RoomShrinks(i);
      hide Room;
      UvarintInverts(v / 0x80, i + 1, suffix);
      assert b[1..] == EncodeUvarint(v / 0x80) + suffix;
    }
  }

  /** For every 64-bit value and every suffix, decoding inverts encoding. */
  lemma UvarintRoundTrip(v: nat, suffix: Bytes)
    requires IsUint64(v)
    ensures Uvarint(EncodeUvarint(v) + suffix, 0) == Ok((v, suffix))
  {
    UvarintInverts(v, 0, suffix);
  }

  /** On any bytes: at most ten are consumed, at least one, and the value fits in 64
      bits. Otherwise there was no varint to read. */
  lemma {:induction false} UvarintConsumes(b: Bytes, i: nat)
    requires i <= 9
    ensures var r := Uvarint(b, i);
      r.Ok? ==> r.value.0 < Room(i) && |r.value.1| < |b| <= |r.value.1| + 10 - i && b[|b| - |r.value.1|..] == r.value.1
  {
    if b != [] && !(i == 9 && b[0] > 1) && b[0] >= 0x80 {
      RoomShrinks(i);
      UvarintConsumes(b[1..], i + 1);
    }
  }

  /** And no encoding is longer than it can read. */
  lemma {:induction false} EncodingIsShort(v: nat, i: nat)
    requires i <= 9 && v < Room(i)
    ensures 1 <= |EncodeUvarint(v)| <= 10 - i
    decreases v
  {
    if v >= 0x80 {
      RoomShrinks(i);
      hide Room;
      EncodingIsShort(v / 0x80, i + 1);
    }
  }

  method AppendUvarint(b: Bytes, v: nat) returns (out: Bytes)
    ensures out == b + EncodeUvarint(v)
  {
    out := b;
    var left := v;
    while left >= 0x80
      invariant out + EncodeUvarint(left) == b + EncodeUvarint(v)
    {
      out := out + [left % 0x80 + 0x80];
      left := left / 0x80;
    }
    out := out + [left];
  }

  /** v with x put in above it, `unit` being the power of two that v is below. */
  function At(v: nat, unit: nat, x: nat): nat {
    v + x * unit
  }

  /** The reading loop. Each byte's seven bits land above all those before, so
      or-ing them in is adding them. */
  method ReadUvarint(b: Bytes) returns (r: Result<(nat, Bytes)>)
    ensures r == Uvarint(b, 0)
  {
    hide VarintSoFar, Uvarint, At;
    var v: nat, i: nat, unit: nat := 0, 0, 1;
    VarintStarts(b);
    while i < |b|
      invariant i <= |b| && i <= 9 && v < unit && VarintSoFar(b, i, v, unit)
    {
      var c: int := b[i];
      VarintSteps(b, i, v, unit);
      if i == 9 && c > 1 {
        return Err(Truncated);
      }
      v := At(v, unit, c % 0x80);
      if c < 0x80 {
        return Ok((v, b[i + 1..]));
      }
      unit := 0x80 * unit;
      i := i + 1;
    }
    VarintEnds(b, v, unit);
    r := Err(Truncated);
  }

  /** What is still to read decides the whole. */
  ghost predicate VarintSoFar(b: Bytes, i: nat, v: nat, unit: nat)
    requires i <= |b|
  {
    var more := Uvarint(b[i..], i);
    Uvarint(b, 0) == if more.Err? then more else Ok((At(v, unit, more.value.0), more.value.1))
  }

  lemma VarintStarts(b: Bytes)
    ensures VarintSoFar(b, 0, 0, 1)
  {
    assert b[0..] == b;
  }

  lemma VarintEnds(b: Bytes, v: nat, unit: nat)
    requires |b| <= 9 && VarintSoFar(b, |b|, v, unit)
    ensures Uvarint(b, 0) == Err(Truncated)
  {
    assert b[|b|..] == [];
    assert Uvarint(b[|b|..], |b|) == Err(Truncated);
  }

  lemma VarintSteps(b: Bytes, i: nat, v: nat, unit: nat)
    requires i < |b| && i <= 9 && VarintSoFar(b, i, v, unit) && v < unit
    ensures i == 9 && b[i] > 1 ==> Uvarint(b, 0) == Err(Truncated)
    ensures !(i == 9 && b[i] > 1) && b[i] < 0x80 ==> Uvarint(b, 0) == Ok((At(v, unit, b[i] % 0x80), b[i + 1..]))
    ensures !(i == 9 && b[i] > 1) && b[i] >= 0x80 ==>
      i < 9 && VarintSoFar(b, i + 1, At(v, unit, b[i] % 0x80), 0x80 * unit) && At(v, unit, b[i] % 0x80) < 0x80 * unit
  {
    hide Uvarint, At;
    UvarintAt(b, i);
    var c, more := b[i] % 0x80, Uvarint(b[i + 1..], i + 1);
    Above(v, unit, c);
    if i == 9 && b[i] > 1 {
    } else if b[i] < 0x80 {
      assert c == b[i];
    } else if more.Ok? {
      Accumulate(v, unit, c, more.value.0);
    }
  }

  lemma UvarintAt(b: Bytes, i: nat)
    requires i < |b|
    ensures var c, more := b[i] % 0x80, Uvarint(b[i + 1..], i + 1);
      Uvarint(b[i..], i) ==
      if i == 9 && b[i] > 1 then Err(Truncated)
      else if b[i] < 0x80 then Ok((c, b[i + 1..]))
      else if more.Err? then more
      else Ok((c + 0x80 * more.value.0, more.value.1))
  {
    assert b[i..][1..] == b[i + 1..];
  }

  lemma Above(v: nat, unit: nat, c: nat)
    requires c < 0x80 && v < unit
    ensures At(v, unit, c) < 0x80 * unit
  {
    assert c * unit <= 0x7f * unit;
  }

  lemma Accumulate(v: nat, unit: nat, c: nat, x: nat)
    ensures At(v, unit, c + 0x80 * x) == At(At(v, unit, c), 0x80 * unit, x)
  {
    assert (c + 0x80 * x) * unit == c * unit + x * (0x80 * unit);
  }

  // ---- Fields ----

  datatype Field = Field(number: int, wire: int, varint: nat, bytes: Bytes)

  /** The tag, shifted in 64 bits. */
  function Tag(field: int, wire: nat): nat
    requires wire < 8
  {
    field * 8 % TWO_64 + wire
  }

  function EncodeTag(field: int, wire: nat): Bytes
    requires wire < 8
  {
    EncodeUvarint(Tag(field, wire))
  }

  function AppendVarint(b: Bytes, field: int, v: nat): Bytes {
    b + EncodeTag(field, WIRE_VARINT) + EncodeUvarint(v)
  }

  function AppendBool(b: Bytes, field: int, v: bool): Bytes {
    AppendVarint(b, field, if v then 1 else 0)
  }

  /** A string or an already encoded message. */
  function AppendBytes(b: Bytes, field: int, s: Bytes): Bytes {
    b + EncodeTag(field, WIRE_BYTES) + EncodeUvarint(|s|) + s
  }

  /** Little-endian. */
  function LittleEndian(b: Bytes): nat {
    if b == [] then 0 else b[0] + 0x100 * LittleEndian(b[1..])
  }

  /** The fixed-width loop, from the last byte down. */
  method ReadFixed(b: Bytes, n: nat) returns (v: nat)
    requires n <= |b|
    ensures v == LittleEndian(b[..n])
  {
    v := 0;
    var i := n;
    assert b[n..n] == [];
    while i > 0
      invariant 0 <= i <= n && v == LittleEndian(b[i..n])
    {
      i := i - 1;
      assert b[i..n][1..] == b[i + 1..n];
      v := 0x100 * v + b[i];
    }
    assert b[0..n] == b[..n];
  }

  lemma {:induction false} LittleEndianFits(b: Bytes, n: nat, bound: nat)
    requires |b| == n && bound == Pow256(n)
    ensures LittleEndian(b) < bound
  {
    if n > 0 {
      LittleEndianFits(b[1..], n - 1, Pow256(n - 1));
    }
  }

  function Body(number: int, wire: int, rest: Bytes): Result<(Field, Bytes)> {
    if wire == WIRE_VARINT then
      var v := Uvarint(rest, 0);
      if v.Err? then Err(v.error) else Ok((Field(number, wire, v.value.0, []), v.value.1))
    else if wire == WIRE_BYTES then
      var n := Uvarint(rest, 0);
      if n.Err? then Err(n.error)
      else if n.value.0 > |n.value.1| then Err(Truncated)
      else Ok((Field(number, wire, 0, n.value.1[..n.value.0]), n.value.1[n.value.0..]))
    else if wire == WIRE_FIXED64 then
      if |rest| < 8 then Err(Truncated) else Ok((Field(number, wire, LittleEndian(rest[..8]), []), rest[8..]))
    else if wire == WIRE_FIXED32 then
      if |rest| < 4 then Err(Truncated) else Ok((Field(number, wire, LittleEndian(rest[..4]), []), rest[4..]))
    else Err(WireType)
  }

  /** The field at the front of b and what is left. */
  function Next(b: Bytes): Result<(Field, Bytes)> {
    var tag := Uvarint(b, 0);
    if tag.Err? then Err(tag.error)
    else if tag.value.0 / 8 <= 0 then Err(FieldNumber)
    else Body(tag.value.0 / 8, tag.value.0 % 8, tag.value.1)
  }

  method ReadNext(b: Bytes) returns (r: Result<(Field, Bytes)>)
    ensures r == Next(b)
  {
    hide Uvarint, LittleEndian;
    var tag := ReadUvarint(b);
    if tag.Err? {
      return Err(tag.error);
    }
    var number, wire, rest := tag.value.0 / 8, tag.value.0 % 8, tag.value.1;
    if number <= 0 {
      return Err(FieldNumber);
    }
    if wire == WIRE_VARINT || wire == WIRE_BYTES {
      var n := ReadUvarint(rest);
      if n.Err? {
        return Err(n.error);
      }
      if wire == WIRE_VARINT {
        return Ok((Field(number, wire, n.value.0, []), n.value.1));
      }
      if n.value.0 > |n.value.1| {
        return Err(Truncated);
      }
      return Ok((Field(number, wire, 0, n.value.1[..n.value.0]), n.value.1[n.value.0..]));
    }
    if wire == WIRE_FIXED64 || wire == WIRE_FIXED32 {
      var width := if wire == WIRE_FIXED64 then 8 else 4;
      if |rest| < width {
        return Err(Truncated);
      }
      var v := ReadFixed(rest, width);
      return Ok((Field(number, wire, v, []), rest[width..]));
    }
    r := Err(WireType);
  }

  /** A field number survives its tag exactly when it is positive and below 2^61. */
  lemma TagIsExact(field: int, wire: nat)
    requires wire < 8 && IsInt64(field)
    ensures IsUint64(Tag(field, wire)) && Tag(field, wire) % 8 == wire
    ensures Tag(field, wire) / 8 == field && field > 0 <==> 0 < field < 0x2000_0000_0000_0000
  {
    var t := field * 8 % TWO_64;
    assert t % 8 == 0 by {
      assert TWO_64 == 8 * 0x2000_0000_0000_0000;
      assert t == field * 8 - field * 8 / TWO_64 * TWO_64;
      assert t == 8 * (field - field * 8 / TWO_64 * 0x2000_0000_0000_0000);
    }
  }

  predicate FieldFits(field: int) {
    0 < field < 0x2000_0000_0000_0000
  }

  lemma NextReadsTag(field: int, wire: nat, rest: Bytes)
    requires FieldFits(field) && wire < 8
    ensures Next(EncodeTag(field, wire) + rest) == Body(field, wire, rest)
  {
    TagIsExact(field, wire);
    hide Tag, Body;
    UvarintRoundTrip(Tag(field, wire), rest);
  }

  /** Next inverts every append, and hands back the suffix. */
  lemma NextInvertsVarint(field: int, v: nat, suffix: Bytes)
    requires FieldFits(field) && IsUint64(v)
    ensures Next(AppendVarint([], field, v) + suffix) == Ok((Field(field, WIRE_VARINT, v, []), suffix))
  {
    NextReadsTag(field, WIRE_VARINT, EncodeUvarint(v) + suffix);
    UvarintRoundTrip(v, suffix);
    hide Uvarint, EncodeUvarint, EncodeTag, Next;
    assert AppendVarint([], field, v) + suffix == EncodeTag(field, WIRE_VARINT) + (EncodeUvarint(v) + suffix);
  }

  lemma NextInvertsBool(field: int, v: bool, suffix: Bytes)
    requires FieldFits(field)
    ensures var r := Next(AppendBool([], field, v) + suffix);
      r.Ok? && (r.value.0.varint != 0) == v && r.value.1 == suffix
  {
    hide Next, AppendVarint;
    NextInvertsVarint(field, if v then 1 else 0, suffix);
  }

  lemma NextInvertsBytes(field: int, s: Bytes, suffix: Bytes)
    requires FieldFits(field) && |s| <= MAX_INT64
    ensures Next(AppendBytes([], field, s) + suffix) == Ok((Field(field, WIRE_BYTES, 0, s), suffix))
  {
    hide Uvarint, EncodeUvarint, EncodeTag, Next, LittleEndian;
    NextReadsTag(field, WIRE_BYTES, EncodeUvarint(|s|) + (s + suffix));
    UvarintRoundTrip(|s|, s + suffix);
    assert AppendBytes([], field, s) + suffix == EncodeTag(field, WIRE_BYTES) + (EncodeUvarint(|s|) + (s + suffix));
    assert (s + suffix)[..|s|] == s && (s + suffix)[|s|..] == suffix;
  }

  /** On arbitrary bytes Next fails or strictly shortens its input, to a suffix of it,
      and what it read fits in 64 bits. */
  lemma NextShortens(b: Bytes)
    ensures var r := Next(b);
      r.Ok? ==>
        && |r.value.1| < |b| && b[|b| - |r.value.1|..] == r.value.1
        && r.value.0.number > 0 && IsUint64(r.value.0.varint) && |r.value.0.bytes| < |b|
  {
    hide Uvarint, LittleEndian, Room, Body;
    UvarintConsumes(b, 0);
    var tag := Uvarint(b, 0);
    if tag.Ok? {
      BodyShortens(tag.value.0 / 8, tag.value.0 % 8, tag.value.1);
    }
  }

  lemma BodyShortens(number: int, wire: int, rest: Bytes)
    ensures var r := Body(number, wire, rest);
      r.Ok? ==>
        && |r.value.1| <= |rest| && rest[|rest| - |r.value.1|..] == r.value.1
        && r.value.0.number == number && IsUint64(r.value.0.varint) && |r.value.0.bytes| <= |rest|
  {
    hide Uvarint, LittleEndian, Room;
    UvarintConsumes(rest, 0);
    RoomForAll();
    if wire == WIRE_FIXED64 && |rest| >= 8 {
      FixedFits(rest[..8]);
    }
    if wire == WIRE_FIXED32 && |rest| >= 4 {
      FixedFits(rest[..4]);
    }
  }

  lemma RoomForAll()
    ensures Room(0) == TWO_64
  {
  }

  lemma FixedFits(b: Bytes)
    requires |b| == 8 || |b| == 4
    ensures IsUint64(LittleEndian(b))
  {
    LittleEndianFits(b, |b|, Pow256(|b|));
    hide LittleEndian;
    assert Pow256(4) == 0x1_0000_0000;
    assert Pow256(8) == TWO_64;
  }

  // ---- Bytes after a message ----

  lemma {:induction false} UvarintExtends(b: Bytes, s: Bytes, i: nat)
    requires Uvarint(b, i).Ok?
    ensures Uvarint(b + s, i) == Ok((Uvarint(b, i).value.0, Uvarint(b, i).value.1 + s))
  {
    assert (b + s)[1..] == b[1..] + s;
    if b[0] >= 0x80 {
      UvarintExtends(b[1..], s, i + 1);
    }
  }

  /** A field reads the same whatever follows the message it is in. */
  lemma NextExtends(b: Bytes, s: Bytes)
    requires Next(b).Ok?
    ensures Next(b + s) == Ok((Next(b).value.0, Next(b).value.1 + s))
  {
    UvarintExtends(b, s, 0);
    var tag := Uvarint(b, 0).value;
    hide Uvarint, Body;
    BodyExtends(tag.0 / 8, tag.0 % 8, tag.1, s);
  }

  lemma BodyExtends(number: int, wire: int, rest: Bytes, s: Bytes)
    requires Body(number, wire, rest).Ok?
    ensures Body(number, wire, rest + s) == Ok((Body(number, wire, rest).value.0, Body(number, wire, rest).value.1 + s))
  {
    hide Uvarint, LittleEndian;
    if wire == WIRE_VARINT || wire == WIRE_BYTES {
      UvarintExtends(rest, s, 0);
      var (n, more) := Uvarint(rest, 0).value;
      if wire == WIRE_BYTES {
        assert (more + s)[..n] == more[..n] && (more + s)[n..] == more[n..] + s;
      }
    } else {
      var width := if wire == WIRE_FIXED64 then 8 else 4;
      assert (rest + s)[..width] == rest[..width] && (rest + s)[width..] == rest[width..] + s;
    }
  }

  // ---- String maps ----

  type Strings = map<Bytes, Bytes>

  function Get(m: Strings, k: Bytes): Bytes {
    if k in m then m[k] else []
  }

  function EncodeEntry(k: Bytes, v: Bytes): Bytes {
    AppendBytes(AppendBytes([], 1, k), 2, v)
  }

  function EncodeStringMap(field: int, keys: seq<Bytes>, m: Strings): Bytes {
    if keys == [] then []
    else AppendBytes([], field, EncodeEntry(keys[0], Get(m, keys[0]))) + EncodeStringMap(field, keys[1..], m)
  }

  /** StringMap's loop from an entry's remaining fields on. */
  function EntryOf(entry: Bytes, k: Bytes, v: Bytes): Result<(Bytes, Bytes)>
    decreases |entry|
  {
    if entry == [] then Ok((k, v))
    else
      var r := Next(entry);
      if r.Err? then Err(r.error)
      else
        NextShortens(entry);
        var f := r.value.0;
        if f.number == 1 && f.wire == WIRE_BYTES then EntryOf(r.value.1, f.bytes, v)
        else if f.number == 2 && f.wire == WIRE_BYTES then EntryOf(r.value.1, k, f.bytes)
        else EntryOf(r.value.1, k, v)
  }

  method StringMap(m: Strings, entry: Bytes) returns (r: Result<Strings>)
    ensures r == if EntryOf(entry, [], []).Err? then Err(EntryOf(entry, [], []).error)
      else Ok(m[EntryOf(entry, [], []).value.0 := EntryOf(entry, [], []).value.1])
  {
    var k: Bytes, v: Bytes, left := [], [], entry;
    while left != []
      invariant EntryOf(left, k, v) == EntryOf(entry, [], [])
      decreases |left|
    {
      hide Next;
      var n := ReadNext(left);
      if n.Err? {
        return Err(n.error);
      }
      NextShortens(left);
      var f := n.value.0;
      if f.number == 1 && f.wire == WIRE_BYTES {
        k := f.bytes;
      } else if f.number == 2 && f.wire == WIRE_BYTES {
        v := f.bytes;
      }
      left := n.value.1;
    }
    r := Ok(m[k := v]);
  }

  lemma EntryRoundTrip(k: Bytes, v: Bytes)
    requires |k| <= MAX_INT64 && |v| <= MAX_INT64
    ensures EntryOf(EncodeEntry(k, v), [], []) == Ok((k, v))
  {
    hide Next, EntryOf;
    var second := AppendBytes([], 2, v);
    AppendGoesAfter(AppendBytes([], 1, k), 2, v);
    assert second + [] == second;
    hide AppendBytes;
    NextInvertsBytes(1, k, second);
    NextInvertsBytes(2, v, []);
    EncodedIsNotEmpty(1, k);
    EncodedIsNotEmpty(2, v);
    EntrySteps(EncodeEntry(k, v), [], []);
    EntrySteps(second, k, []);
    EntryEnds(k, v);
  }

  lemma EntrySteps(entry: Bytes, k: Bytes, v: Bytes)
    requires entry != [] && Next(entry).Ok? && Next(entry).value.0.wire == WIRE_BYTES
    ensures var (f, rest) := Next(entry).value;
      EntryOf(entry, k, v) == EntryOf(rest, if f.number == 1 then f.bytes else k, if f.number == 2 then f.bytes else v)
  {
    hide Next;
  }

  lemma EntryEnds(k: Bytes, v: Bytes)
    ensures EntryOf([], k, v) == Ok((k, v))
  {
  }

  lemma AppendGoesAfter(b: Bytes, field: int, s: Bytes)
    ensures AppendBytes(b, field, s) == b + AppendBytes([], field, s)
  {
    hide EncodeTag, EncodeUvarint;
  }

  lemma EncodedIsNotEmpty(field: int, s: Bytes)
    ensures AppendBytes([], field, s) != []
  {
    assert EncodeTag(field, WIRE_BYTES) != [];
  }

  /** The map fields of a message, one entry at a time, other fields skipped. */
  function ReadStringMap(b: Bytes, field: int, m: Strings): Result<Strings>
    decreases |b|
  {
    if b == [] then Ok(m)
    else
      var r := Next(b);
      if r.Err? then Err(r.error)
      else
        NextShortens(b);
        if r.value.0.number != field then ReadStringMap(r.value.1, field, m)
        else
          var e := EntryOf(r.value.0.bytes, [], []);
          if e.Err? then Err(e.error) else ReadStringMap(r.value.1, field, m[e.value.0 := e.value.1])
  }

  ghost predicate EntriesFit(keys: seq<Bytes>, m: Strings) {
    forall k :: k in keys ==> |k| <= MAX_INT64 && |Get(m, k)| <= MAX_INT64 && |EncodeEntry(k, Get(m, k))| <= MAX_INT64
  }

  ghost function Restricted(keys: seq<Bytes>, m: Strings): Strings {
    map k | k in keys :: Get(m, k)
  }

  /** A string map decodes to exactly the entries written, in whatever order and
      however often each key was listed, and whatever follows. */
  lemma {:induction false} StringMapRoundTrip(field: int, keys: seq<Bytes>, m: Strings, suffix: Bytes, got: Strings)
    requires FieldFits(field) && EntriesFit(keys, m)
    ensures ReadStringMap(EncodeStringMap(field, keys, m) + suffix, field, got) ==
      ReadStringMap(suffix, field, got + Restricted(keys, m))
    decreases |keys|
  {
    hide Next, AppendBytes, EntryOf, EncodeEntry, ReadStringMap;
    if keys == [] {
      assert [] + suffix == suffix && got + Restricted(keys, m) == got;
    } else {
      var k, v := keys[0], Get(m, keys[0]);
      var rest := EncodeStringMap(field, keys[1..], m) + suffix;
      assert k in keys;
      EntryRoundTrip(k, v);
      NextInvertsBytes(field, EncodeEntry(k, v), rest);
      EncodedIsNotEmpty(field, EncodeEntry(k, v));
      assert EncodeStringMap(field, keys, m) + suffix == AppendBytes([], field, EncodeEntry(k, v)) + rest;
      StringMapRoundTrip(field, keys[1..], m, suffix, got[k := v]);
      RestrictedOneMore(keys, m, got);
      MapSteps(AppendBytes([], field, EncodeEntry(k, v)) + rest, field, got);
    }
  }

  lemma RestrictedOneMore(keys: seq<Bytes>, m: Strings, got: Strings)
    requires keys != []
    ensures got[keys[0] := Get(m, keys[0])] + Restricted(keys[1..], m) == got + Restricted(keys, m)
  {
    assert keys == [keys[0]] + keys[1..];
  }

  lemma MapSteps(b: Bytes, field: int, m: Strings)
    requires b != [] && Next(b).Ok? && Next(b).value.0.number == field && EntryOf(Next(b).value.0.bytes, [], []).Ok?
    ensures var (f, rest) := Next(b).value;
      var (k, v) := EntryOf(f.bytes, [], []).value;
      ReadStringMap(b, field, m) == ReadStringMap(rest, field, m[k := v])
  {
    hide Next, EntryOf;
  }
}
