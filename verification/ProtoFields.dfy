/**
  * Fields on the wire: the one-field parser shared by all decoders, the field sequence of a byte
  * string, and the serialiser of a decoded field.
  */
module ProtoFields {
  import opened WireFormat

  datatype WireType = VarIntType | Fixed64Type | LengthDelimitedType | Fixed32Type {
    function Code(): (c: nat)
      ensures c < 8
    {
      match this
      case VarIntType => 0
      case Fixed64Type => 1
      case LengthDelimitedType => 2
      case Fixed32Type => 5
    }
  }

  /**
    * A decoded field. For a length-delimited field `payload` holds the bytes that the decoder's
    * data pointer and size denote and `value` is 0; otherwise `payload` is empty.
    * The all-zero field, with id 0, is the invalid one.
    */
  datatype Field = Field(id: nat, wire: WireType, value: u64, payload: seq<byte>) {
    predicate Valid() { id != 0 }

    /** What the decoders can hand out and the encoder accepts. */
    predicate WellFormed() {
      && 1 <= id <= 0xFFFF
      && (wire.LengthDelimitedType? ==> value == 0 && |payload| <= 0x0FFF_FFFF)
      && (!wire.LengthDelimitedType? ==> payload == [])
      && (wire.Fixed32Type? ==> value < U32)
    }

    /** Whatever the id, and however long the payload. */
    predicate HasBody() {
      && (wire.LengthDelimitedType? ==> value == 0 && |payload| < U64)
      && (!wire.LengthDelimitedType? ==> payload == [])
      && (wire.Fixed32Type? ==> value < U32)
    }
  }

  const INVALID_FIELD := Field(0, VarIntType, 0, [])

  function Tag(id: nat, wire: WireType): (t: nat) {
    (id * 8 + wire.Code()) % U32
  }

  // ---------- Parsing ----------

  datatype ParsedBody = NoBody | Body(size: nat, wire: WireType, value: u64, payload: seq<byte>)

  /** The part of a field after its preamble, for the wire type in the preamble's low three bits. */
  function ParseBody(code: nat, s: seq<byte>): (r: ParsedBody)
    requires s != []
    ensures r.Body? ==> 1 <= r.size <= |s|
  {
    if code == 0 then
      match ParseVarInt(s)
      case NoVarInt => NoBody
      case VarIntOf(v, n) => Body(n, VarIntType, v, [])
    else if code == 2 then
      match ParseVarInt(s)
      case NoVarInt => NoBody
      case VarIntOf(len, n) =>
        if len > |s| - n then NoBody else Body(n + len, LengthDelimitedType, 0, s[n..n + len])
    else if code == 1 then
      if 8 > |s| then NoBody
      else FixedValueBound(s[..8]); Pow256Values(); Body(8, Fixed64Type, FixedValue(s[..8]), [])
    else if code == 5 then
      if 4 > |s| then NoBody
      else FixedValueBound(s[..4]); Pow256Values(); Body(4, Fixed32Type, FixedValue(s[..4]), [])
    else NoBody
  }

  datatype Parsed = Abort | Skip(next: nat) | Ok(next: nat, field: Field)

  /** One field at the start of `s`; `next` counts the bytes it took. */
  function ParseOneField(s: seq<byte>): (r: Parsed)
    ensures !r.Abort? ==> 2 <= r.next <= |s|
    ensures r.Ok? ==> r.field.WellFormed()
  {
    if s == [] then Abort
    else
      var preamble := if s[0] < 0x80 then VarIntOf(s[0], 1) else ParseVarInt(s);
      if preamble.NoVarInt? then Abort
      else
        var id, pos := preamble.value / 8 % U32, preamble.size;
        if id == 0 || pos >= |s| then Abort
        else
          match ParseBody(preamble.value % 8, s[pos..])
          case NoBody => Abort
          case Body(n, wire, value, payload) =>
            if id > 0xFFFF then Skip(pos + n)
            else if |payload| > MAX_MESSAGE_LENGTH then Skip(pos + n)
            else
              assert wire.Fixed32Type? ==> value < U32 by { BodyShape(preamble.value % 8, s[pos..]); }
              Ok(pos + n, Field(id, wire, value, payload))
  }

  lemma {:induction false} BodyShape(code: nat, s: seq<byte>)
    requires s != []
    ensures var b := ParseBody(code, s); b.Body? ==>
              && (b.wire.LengthDelimitedType? ==> b.value == 0)
              && (!b.wire.LengthDelimitedType? ==> b.payload == [])
              && (b.wire.Fixed32Type? ==> b.value < U32)
  {
    if |s| >= 4 {
      FixedValueBound(s[..4]);
      Pow256Values();
    }
  }

  /** The fast path for one-byte preambles agrees with the general varint parser. */
  lemma {:induction false} PreambleFastPath(s: seq<byte>)
    requires s != [] && s[0] < 0x80
    ensures ParseVarInt(s) == VarIntOf(s[0], 1)
  {
    assert s[..1] == [s[0]];
    assert s[..1][1..] == [];
    assert Horner(s[..1]) == s[0] % 128 + 128 * Horner(s[..1][1..]);
  }

  // ---------- The field sequence of a byte string ----------

  /** All fields a reader gets from `s` until it stops, oversized ones and ids above 0xFFFF skipped. */
  function Decode(s: seq<byte>): (fs: seq<Field>)
    ensures forall f <- fs :: f.WellFormed()
    decreases |s|
  {
    match ParseOneField(s)
    case Abort => []
    case Skip(n) => Decode(s[n..])
    case Ok(n, f) => [f] + Decode(s[n..])
  }

  /** How many bytes a reader has consumed when it stops. */
  function Consumed(s: seq<byte>): (n: nat)
    ensures n <= |s|
    decreases |s|
  {
    match ParseOneField(s)
    case Abort => 0
    case Skip(n) => n + Consumed(s[n..])
    case Ok(n, _) => n + Consumed(s[n..])
  }

  lemma {:induction false} ParseBodyPrefix(code: nat, a: seq<byte>, b: seq<byte>)
    requires a != [] && ParseBody(code, a).Body?
    ensures ParseBody(code, a + b) == ParseBody(code, a)
  {
    if code == 0 || code == 2 {
      ParseVarIntPrefix(a, b);
      var p := ParseVarInt(a);
      if code == 2 {
        assert (a + b)[p.size..p.size + p.value] == a[p.size..p.size + p.value];
      }
    } else {
      assert |a| >= 4 ==> (a + b)[..4] == a[..4];
      assert |a| >= 8 ==> (a + b)[..8] == a[..8];
    }
  }

  /** A field that is complete in `a` is parsed the same way when more bytes follow. */
  lemma {:induction false} ParseOneFieldPrefix(a: seq<byte>, b: seq<byte>)
    requires !ParseOneField(a).Abort?
    ensures ParseOneField(a + b) == ParseOneField(a)
  {
    if a[0] >= 0x80 {
      ParseVarIntPrefix(a, b);
    }
    var p := if a[0] < 0x80 then VarIntOf(a[0], 1) else ParseVarInt(a);
    assert (a + b)[p.size..] == a[p.size..] + b;
    ParseBodyPrefix(p.value % 8, a[p.size..], b);
  }

  /**
    * Decoding is a homomorphism: when the reader consumes all of `a`, joining `b` to it adds
    * exactly the fields of `b`, and the reader stops at the same place in `b`.
    */
  lemma {:induction false} DecodeConcat(a: seq<byte>, b: seq<byte>)
    requires Consumed(a) == |a|
    ensures Decode(a + b) == Decode(a) + Decode(b)
    ensures Consumed(a + b) == |a| + Consumed(b)
    decreases |a|
  {
    hide ParseOneField;
    if a == [] {
      assert a + b == b;
    } else {
      var p := ParseOneField(a);
      ParseOneFieldPrefix(a, b);
      assert (a + b)[p.next..] == a[p.next..] + b;
      DecodeConcat(a[p.next..], b);
    }
  }

  // ---------- Serialising a field ----------

  function BodyBytes(f: Field): (s: seq<byte>)
    ensures f.WellFormed() ==> |s| >= 1
  {
    match f.wire
    case VarIntType => VarInt(f.value)
    case Fixed32Type => Fixed(f.value % U32, 4)
    case Fixed64Type => Fixed(f.value, 8)
    case LengthDelimitedType => VarInt(|f.payload|) + f.payload
  }

  function Serialize(f: Field): (s: seq<byte>)
    ensures |s| >= 1
  {
    VarInt(Tag(f.id, f.wire)) + BodyBytes(f)
  }

  lemma {:induction false} ParseBodyBytes(f: Field, rest: seq<byte>)
    requires f.WellFormed() || f.HasBody()
    ensures ParseBody(f.wire.Code(), BodyBytes(f) + rest) == Body(|BodyBytes(f)|, f.wire, f.value, f.payload)
  {
    hide VarInt, ParseVarInt, Fixed, FixedValue, Pow256;
    var s := BodyBytes(f) + rest;
    match f.wire
    case VarIntType =>
      VarIntRoundTrip(f.value, rest);
    case Fixed32Type =>
      Pow256Values();
      FixedRoundTrip(f.value, 4);
      assert s[..4] == Fixed(f.value, 4);
    case Fixed64Type =>
      Pow256Values();
      FixedRoundTrip(f.value, 8);
      assert s[..8] == Fixed(f.value, 8);
    case LengthDelimitedType =>
      var n := |f.payload|;
      assert s == VarInt(n) + (f.payload + rest);
      VarIntRoundTrip(n, f.payload + rest);
      var k := |VarInt(n)|;
      assert s[k..k + n] == f.payload;
  }

  /** What a tag followed by a parsable body decodes to. Nested messages use it with a padded length. */
  lemma {:induction false} ParseTagged(id: nat, wire: WireType, s: seq<byte>)
    requires 1 <= id <= 0xFFFF && s != []
    requires var b := ParseBody(wire.Code(), s); b.Body? && |b.payload| <= MAX_MESSAGE_LENGTH
    ensures var b, t := ParseBody(wire.Code(), s), VarInt(Tag(id, wire));
            ParseOneField(t + s) == Ok(|t| + b.size, Field(id, b.wire, b.value, b.payload))
  {
    hide VarInt, ParseVarInt, ParseBody;
    var tag := Tag(id, wire);
    var t := VarInt(tag);
    assert tag == id * 8 + wire.Code();
    VarIntRoundTrip(tag, s);
    if (t + s)[0] < 0x80 {
      PreambleFastPath(t + s);
    }
    assert (t + s)[|t|..] == s;
  }

  /**
    * A complete field whose id is above 0xFFFF or whose payload is too long is passed over, and reading
    * goes on behind it. An id has 32 bits, whatever the preamble.
    */
  lemma {:induction false} SkippedLeavesNothing(preamble: u64, f: Field, b: seq<byte>)
    requires preamble % 8 == f.wire.Code() && f.HasBody()
    requires preamble / 8 % U32 > 0xFFFF || (preamble / 8 % U32 != 0 && |f.payload| > 0x0FFF_FFFF)
    ensures var a := VarInt(preamble) + BodyBytes(f);
            Decode(a + b) == Decode(b) && Consumed(a + b) == |a| + Consumed(b)
  {
    hide VarInt, ParseVarInt, ParseBody, BodyBytes;
    var t, body := VarInt(preamble), BodyBytes(f);
    ParseBodyBytes(f, b);
    VarIntRoundTrip(preamble, body + b);
    var s := t + body + b;
    assert s == t + (body + b);
    if s[0] < 0x80 {
      PreambleFastPath(s);
    }
    assert s[|t|..] == body + b;
    assert body + b != [] by { BodyIsThere(f); }
    assert ParseOneField(s) == Skip(|t| + |body|);
    assert s[|t| + |body|..] == b;
  }

  lemma {:induction false} BodyIsThere(f: Field)
    ensures BodyBytes(f) != []
  {
  }

  /** Serialising a decoded field and parsing it again gives the same field, whatever follows. */
  lemma {:induction false} SerializeRoundTrip(f: Field, rest: seq<byte>)
    requires f.WellFormed()
    ensures ParseOneField(Serialize(f) + rest) == Ok(|Serialize(f)|, f)
  {
    hide VarInt, ParseOneField, ParseBody;
    ParseBodyBytes(f, rest);
    ParseTagged(f.id, f.wire, BodyBytes(f) + rest);
    assert Serialize(f) + rest == VarInt(Tag(f.id, f.wire)) + (BodyBytes(f) + rest);
  }

  /** The wire format of the protocol-buffer encoding: the field number above three bits for the kind of body. */
  lemma {:induction false} WireIsStandard(f: Field)
    requires f.WellFormed()
    ensures var kind := match f.wire case VarIntType => 0 case Fixed64Type => 1 case LengthDelimitedType => 2
                        case Fixed32Type => 5;
            VarInt(8 * f.id + kind) <= Serialize(f)
    ensures var body := Serialize(f)[|VarInt(Tag(f.id, f.wire))|..];
            match f.wire
            case VarIntType => body == VarInt(f.value)
            case Fixed64Type => body == Fixed(f.value, 8)
            case Fixed32Type => body == Fixed(f.value, 4)
            case LengthDelimitedType => body == VarInt(|f.payload|) + f.payload
  {
    hide VarInt, Fixed;
    var t := VarInt(Tag(f.id, f.wire));
    assert (t + BodyBytes(f))[|t|..] == BodyBytes(f);
    assert t <= Serialize(f);
  }

  /** The 15 bytes reserved beside the payload are always enough; a preamble takes at most 3 of them. */
  lemma {:induction false} SerializedSize(f: Field)
    requires f.WellFormed()
    ensures |VarInt(Tag(f.id, f.wire))| <= 3
    ensures |Serialize(f)| <= MAX_SIMPLE_FIELD_ENCODED_SIZE + |f.payload|
  {
    VarIntBounds(Tag(f.id, f.wire));
    VarIntBounds(f.value);
    VarIntBounds(|f.payload|);
  }

  function SerializeAll(fs: seq<Field>): seq<byte> {
    if fs == [] then [] else Serialize(fs[0]) + SerializeAll(fs[1..])
  }

  /** Re-serialising what was decoded and decoding it again changes nothing: one pass canonicalises any input. */
  lemma {:induction false} ReserializeStable(fs: seq<Field>)
    requires forall f <- fs :: f.WellFormed()
    ensures Decode(SerializeAll(fs)) == fs && Consumed(SerializeAll(fs)) == |SerializeAll(fs)|
  {
    if fs != [] {
      var rest := SerializeAll(fs[1..]);
      SerializeRoundTrip(fs[0], rest);
      assert (Serialize(fs[0]) + rest)[|Serialize(fs[0])|..] == rest;
      ReserializeStable(fs[1..]);
    }
  }

  lemma {:induction false} ReserializeDecoded(s: seq<byte>)
    ensures Decode(SerializeAll(Decode(s))) == Decode(s)
  {
    ReserializeStable(Decode(s));
  }

  /** The serialiser: grow the destination by the worst case, write through a moving pointer, cut back. */
  method SerializeAndAppendTo(f: Field, dst: seq<byte>) returns (out: seq<byte>)
    requires f.WellFormed()
    ensures out == dst + Serialize(f)
  {
    hide VarInt;
    SerializedSize(f);
    var buf := new byte[|dst| + MAX_SIMPLE_FIELD_ENCODED_SIZE + |f.payload|]
      (i requires 0 <= i => if i < |dst| then dst[i] else 0);
    VarIntBounds(Tag(f.id, f.wire));
    var mid := WriteVarInt(Tag(f.id, f.wire), buf, |dst|);
    ghost var tag := buf[|dst|..mid];
    var wptr := WriteBody(f, buf, mid);
    out := buf[..wptr];
    assert buf[|dst|..mid] == tag;
    assert out == buf[..|dst|] + buf[|dst|..mid] + buf[mid..wptr];
    assert buf[..|dst|] == dst;
  }

  method WriteBody(f: Field, buf: array<byte>, at: nat) returns (next: nat)
    requires f.WellFormed() && at + |BodyBytes(f)| <= buf.Length
    modifies buf
    ensures next == at + |BodyBytes(f)| && buf[at..next] == BodyBytes(f)
    ensures forall i :: 0 <= i < at || next <= i < buf.Length ==> buf[i] == old(buf[i])
  {
    hide VarInt, Fixed;
    match f.wire {
      case VarIntType =>
        next := WriteVarInt(f.value, buf, at);
      case Fixed32Type =>
        next := CopyBytes(Fixed(f.value, 4), buf, at);
      case Fixed64Type =>
        next := CopyBytes(Fixed(f.value, 8), buf, at);
      case LengthDelimitedType =>
        var mid := WriteVarInt(|f.payload|, buf, at);
        ghost var length := buf[at..mid];
        next := CopyBytes(f.payload, buf, mid);
        assert buf[at..mid] == length;
        assert buf[at..next] == length + buf[mid..next];
    }
  }

  /** memcpy into a buffer. */
  method CopyBytes(src: seq<byte>, buf: array<byte>, at: nat) returns (next: nat)
    requires at + |src| <= buf.Length
    modifies buf
    ensures next == at + |src| && buf[at..next] == src
    ensures forall i :: 0 <= i < at || next <= i < buf.Length ==> buf[i] == old(buf[i])
  {
    forall i | 0 <= i < |src| {
      buf[at + i] := src[i];
    }
    next := at + |src|;
  }
}
