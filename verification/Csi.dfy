/** Volume capabilities on the wire: nested messages, read field by field. */
module Csi {
  import opened Common
  import opened ProtoWire

  datatype Mount = Mount(fsType: Bytes, flags: seq<Bytes>)

  datatype Capability = Capability(mount: Option<Mount>, block: bool, accessMode: int)

  const EMPTY := Capability(None, false, 0)

  // ---- Encoding ----

  function EncodeFlags(flags: seq<Bytes>): Bytes {
    if flags == [] then [] else AppendBytes([], 2, flags[0]) + EncodeFlags(flags[1..])
  }

  function EncodeMount(m: Mount): Bytes {
    (if m.fsType == [] then [] else AppendBytes([], 1, m.fsType)) + EncodeFlags(m.flags)
  }

  function EncodeMode(mode: int): Bytes {
    AppendVarint([], 1, mode % TWO_64)
  }

  function Encode(c: Capability): Bytes {
    (if c.block then AppendBytes([], 1, []) else [])
    + (if c.mount.None? then [] else AppendBytes([], 2, EncodeMount(c.mount.value)))
    + AppendBytes([], 3, EncodeMode(c.accessMode))
  }

  method Write(c: Capability) returns (out: Bytes)
    ensures out == Encode(c)
  {
    hide AppendBytes, AppendVarint;
    out := [];
    if c.block {
      out := AppendBytes(out, 1, []);
    }
    if c.mount.Some? {
      var m: Bytes := [];
      if c.mount.value.fsType != [] {
        m := AppendBytes(m, 1, c.mount.value.fsType);
      }
      var flags, i := c.mount.value.flags, 0;
      ghost var all := EncodeMount(c.mount.value);
      assert flags[0..] == flags;
      while i < |flags|
        invariant 0 <= i <= |flags| && m + EncodeFlags(flags[i..]) == all
      {
        assert flags[i..][1..] == flags[i + 1..];
        AppendGoesAfter(m, 2, flags[i]);
        m := AppendBytes(m, 2, flags[i]);
        i := i + 1;
      }
      assert flags[i..] == [] && m + [] == m == all;
      AppendGoesAfter(out, 2, m);
      out := AppendBytes(out, 2, m);
    }
    assert [] + out == out && out + [] == out;
    var mode := AppendVarint([], 1, c.accessMode % TWO_64);
    AppendGoesAfter(out, 3, mode);
    out := AppendBytes(out, 3, mode);
  }

  // ---- Decoding ----

  function DecodeMount(b: Bytes, m: Mount): Result<Mount>
    decreases |b|
  {
    if b == [] then Ok(m)
    else
      var r := Next(b);
      if r.Err? then Err(r.error)
      else
        NextShortens(b);
        DecodeMount(r.value.1, MountWith(m, r.value.0))
  }

  function MountWith(m: Mount, f: Field): Mount {
    if f.number == 1 then m.(fsType := f.bytes)
    else if f.number == 2 then m.(flags := m.flags + [f.bytes])
    else m
  }

  function DecodeMode(b: Bytes, mode: int): Result<int>
    decreases |b|
  {
    if b == [] then Ok(mode)
    else
      var r := Next(b);
      if r.Err? then Err(r.error)
      else
        NextShortens(b);
        DecodeMode(r.value.1, if r.value.0.number == 1 then Wrap64(r.value.0.varint) else mode)
  }

  function CapabilityWith(c: Capability, f: Field): Result<Capability> {
    if f.number == 1 then Ok(c.(block := true))
    else if f.number == 2 then
      var m := DecodeMount(f.bytes, Mount([], []));
      if m.Err? then Err(m.error) else Ok(c.(mount := Some(m.value)))
    else if f.number == 3 then
      var mode := DecodeMode(f.bytes, c.accessMode);
      if mode.Err? then Err(mode.error) else Ok(c.(accessMode := mode.value))
    else Ok(c)
  }

  /** Decoding on from the fields already read into c. */
  function Decode(b: Bytes, c: Capability): Result<Capability>
    decreases |b|
  {
    if b == [] then Ok(c)
    else
      var r := Next(b);
      if r.Err? then Err(r.error)
      else
        NextShortens(b);
        var d := CapabilityWith(c, r.value.0);
        if d.Err? then d else Decode(r.value.1, d.value)
  }

  method ReadMount(b: Bytes) returns (r: Result<Mount>)
    ensures r == DecodeMount(b, Mount([], []))
  {
    hide Next;
    var m, inner := Mount([], []), b;
    while inner != []
      invariant DecodeMount(inner, m) == DecodeMount(b, Mount([], []))
      decreases |inner|
    {
      var g := ReadNext(inner);
      if g.Err? {
        return Err(g.error);
      }
      NextShortens(inner);
      if g.value.0.number == 1 {
        m := m.(fsType := g.value.0.bytes);
      } else if g.value.0.number == 2 {
        m := m.(flags := m.flags + [g.value.0.bytes]);
      }
      inner := g.value.1;
    }
    r := Ok(m);
  }

  method ReadMode(b: Bytes, was: int) returns (r: Result<int>)
    ensures r == DecodeMode(b, was)
  {
    hide Next, Wrap64;
    var mode, inner := was, b;
    while inner != []
      invariant DecodeMode(inner, mode) == DecodeMode(b, was)
      decreases |inner|
    {
      var g := ReadNext(inner);
      if g.Err? {
        return Err(g.error);
      }
      NextShortens(inner);
      if g.value.0.number == 1 {
        mode := Wrap64(g.value.0.varint);
      }
      inner := g.value.1;
    }
    r := Ok(mode);
  }

  method Read(b: Bytes) returns (r: Result<Capability>)
    ensures r == Decode(b, EMPTY)
  {
    hide Next, DecodeMount, DecodeMode;
    var c, left := EMPTY, b;
    while left != []
      invariant Decode(left, c) == Decode(b, EMPTY)
      decreases |left|
    {
      var n := ReadNext(left);
      if n.Err? {
        return Err(n.error);
      }
      NextShortens(left);
      var f := n.value.0;
      if f.number == 1 {
        c := c.(block := true);
      } else if f.number == 2 {
        var m := ReadMount(f.bytes);
        if m.Err? {
          return Err(m.error);
        }
        c := c.(mount := Some(m.value));
      } else if f.number == 3 {
        var mode := ReadMode(f.bytes, c.accessMode);
        if mode.Err? {
          return Err(mode.error);
        }
        c := c.(accessMode := mode.value);
      }
      left := n.value.1;
    }
    r := Ok(c);
  }

  // ---- Round trip ----

  /** Every length the encoding writes is one a Go slice can have. */
  ghost predicate Fits(c: Capability) {
    IsInt64(c.accessMode) && (c.mount.Some? ==> MountFits(c.mount.value))
  }

  ghost predicate MountFits(m: Mount) {
    |m.fsType| <= MAX_INT64 && |EncodeMount(m)| <= MAX_INT64 && forall f :: f in m.flags ==> |f| <= MAX_INT64
  }

  lemma MountSteps(field: int, s: Bytes, rest: Bytes, m: Mount)
    requires FieldFits(field) && |s| <= MAX_INT64
    ensures DecodeMount(AppendBytes([], field, s) + rest, m) ==
      DecodeMount(rest, MountWith(m, Field(field, WIRE_BYTES, 0, s)))
  {
    NextInvertsBytes(field, s, rest);
    EncodedIsNotEmpty(field, s);
    hide Next, AppendBytes;
  }

  lemma {:induction false} FlagsInvert(flags: seq<Bytes>, m: Mount)
    requires forall f :: f in flags ==> |f| <= MAX_INT64
    ensures DecodeMount(EncodeFlags(flags), m) == Ok(m.(flags := m.flags + flags))
    decreases |flags|
  {
    hide Next, AppendBytes, DecodeMount;
    if flags == [] {
      MountEnds(m);
      assert m.flags + [] == m.flags;
    } else {
      assert flags[0] in flags;
      MountSteps(2, flags[0], EncodeFlags(flags[1..]), m);
      FlagsInvert(flags[1..], m.(flags := m.flags + [flags[0]]));
      assert m.flags + [flags[0]] + flags[1..] == m.flags + flags;
    }
  }

  lemma MountEnds(m: Mount)
    ensures DecodeMount([], m) == Ok(m)
  {
  }

  lemma MountRoundTrip(m: Mount)
    requires MountFits(m)
    ensures DecodeMount(EncodeMount(m), Mount([], [])) == Ok(m)
  {
    hide Next, AppendBytes, DecodeMount, EncodeFlags;
    FlagsInvert(m.flags, Mount(m.fsType, []));
    assert [] + m.flags == m.flags;
    if m.fsType == [] {
      assert [] + EncodeFlags(m.flags) == EncodeFlags(m.flags);
    } else {
      MountSteps(1, m.fsType, EncodeFlags(m.flags), Mount([], []));
    }
  }

  lemma ModeRoundTrip(mode: int, was: int)
    requires IsInt64(mode)
    ensures DecodeMode(EncodeMode(mode), was) == Ok(mode) && |EncodeMode(mode)| <= 20
  {
    var v := mode % TWO_64;
    NextInvertsVarint(1, v, []);
    EncodingIsShort(v, 0);
    TagIsExact(1, WIRE_VARINT);
    EncodingIsShort(Tag(1, WIRE_VARINT), 0);
    hide Next, EncodeUvarint, Tag;
    assert EncodeMode(mode) + [] == EncodeMode(mode) != [];
    assert Wrap64(v) == mode;
  }

  lemma Steps(field: int, s: Bytes, rest: Bytes, c: Capability)
    requires FieldFits(field) && |s| <= MAX_INT64
    ensures var d := CapabilityWith(c, Field(field, WIRE_BYTES, 0, s));
      Decode(AppendBytes([], field, s) + rest, c) == if d.Err? then d else Decode(rest, d.value)
  {
    NextInvertsBytes(field, s, rest);
    EncodedIsNotEmpty(field, s);
    hide Next, AppendBytes, CapabilityWith;
  }

  /** A whole capability decodes to what was encoded. */
  lemma RoundTrip(c: Capability)
    requires Fits(c)
    ensures Decode(Encode(c), EMPTY) == Ok(c)
  {
    hide Next, AppendBytes, DecodeMount, DecodeMode, EncodeMount, EncodeMode, Decode;
    var mode := AppendBytes([], 3, EncodeMode(c.accessMode));
    var mount := if c.mount.None? then [] else AppendBytes([], 2, EncodeMount(c.mount.value));
    var one, two := EMPTY.(block := c.block), EMPTY.(block := c.block, mount := c.mount);
    ModeRoundTrip(c.accessMode, 0);
    Steps(3, EncodeMode(c.accessMode), [], two);
    assert mode + [] == mode;
    Ends(c);
    if c.mount.Some? {
      MountRoundTrip(c.mount.value);
      Steps(2, EncodeMount(c.mount.value), mode, one);
    } else {
      assert mount + mode == mode;
    }
    if c.block {
      Steps(1, [], mount + mode, EMPTY);
      assert Encode(c) == AppendBytes([], 1, []) + (mount + mode);
    } else {
      assert Encode(c) == mount + mode;
    }
  }

  lemma Ends(c: Capability)
    ensures Decode([], c) == Ok(c)
  {
  }

  /** Messages concatenate: decoding one after another is decoding both, whatever
      bytes they are. So fields nobody knows may stand anywhere. */
  lemma {:induction false} DecodingConcatenates(a: Bytes, b: Bytes, c: Capability)
    requires Decode(a, c).Ok?
    ensures Decode(a + b, c) == Decode(b, Decode(a, c).value)
    decreases |a|
  {
    hide Next, CapabilityWith;
    if a == [] {
      assert a + b == b;
    } else {
      NextExtends(a, b);
      NextShortens(a);
      DecodingConcatenates(Next(a).value.1, b, CapabilityWith(c, Next(a).value.0).value);
    }
  }

  /** Nothing but whole fields, of any wire type, that this package does not know. */
  ghost predicate Unknown(b: Bytes)
    decreases |b|
  {
    b == [] || (Next(b).Ok? && Next(b).value.0.number > 3 && (NextShortens(b); Unknown(Next(b).value.1)))
  }

  lemma {:induction false} UnknownChangesNothing(b: Bytes, c: Capability)
    requires Unknown(b)
    ensures Decode(b, c) == Ok(c)
    decreases |b|
  {
    hide Next;
    if b != [] {
      NextShortens(b);
      UnknownChangesNothing(Next(b).value.1, c);
    }
  }

  /** Unknown fields before and after a capability change nothing. */
  lemma UnknownIsSkipped(before: Bytes, after: Bytes, c: Capability)
    requires Unknown(before) && Unknown(after) && Fits(c)
    ensures Decode(before + Encode(c) + after, EMPTY) == Ok(c)
  {
    hide Unknown, Decode, Encode;
    RoundTrip(c);
    UnknownChangesNothing(before, EMPTY);
    UnknownChangesNothing(after, c);
    DecodingConcatenates(before, Encode(c), EMPTY);
    DecodingConcatenates(before + Encode(c), after, EMPTY);
  }

  /** Fields of every wire type are such: varints, strings and messages, and the two
      fixed widths, which this package never writes. */
  lemma EveryWireTypeIsSkipped(field: int, v: nat, s: Bytes, eight: Bytes, four: Bytes, rest: Bytes)
    requires 3 < field && FieldFits(field) && IsUint64(v) && |s| <= MAX_INT64 && |eight| == 8 && |four| == 4
    requires Unknown(rest)
    ensures Unknown(AppendVarint([], field, v) + rest)
    ensures Unknown(AppendBytes([], field, s) + rest)
    ensures Unknown(EncodeTag(field, WIRE_FIXED64) + eight + rest)
    ensures Unknown(EncodeTag(field, WIRE_FIXED32) + four + rest)
  {
    NextInvertsVarint(field, v, rest);
    NextInvertsBytes(field, s, rest);
    FixedIsRead(field, eight, four, rest);
    hide Next, AppendVarint, AppendBytes, EncodeTag;
  }

  lemma FixedIsRead(field: int, eight: Bytes, four: Bytes, rest: Bytes)
    requires FieldFits(field) && |eight| == 8 && |four| == 4
    ensures Next(EncodeTag(field, WIRE_FIXED64) + eight + rest) ==
      Ok((Field(field, WIRE_FIXED64, LittleEndian(eight), []), rest))
    ensures Next(EncodeTag(field, WIRE_FIXED32) + four + rest) ==
      Ok((Field(field, WIRE_FIXED32, LittleEndian(four), []), rest))
  {
    NextReadsTag(field, WIRE_FIXED64, eight + rest);
    NextReadsTag(field, WIRE_FIXED32, four + rest);
    hide Next, EncodeTag, LittleEndian;
    assert EncodeTag(field, WIRE_FIXED64) + eight + rest == EncodeTag(field, WIRE_FIXED64) + (eight + rest);
    assert EncodeTag(field, WIRE_FIXED32) + four + rest == EncodeTag(field, WIRE_FIXED32) + (four + rest);
    assert (eight + rest)[..8] == eight && (eight + rest)[8..] == rest && (four + rest)[..4] == four &&
      (four + rest)[4..] == rest;
  }
}
