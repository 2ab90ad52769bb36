/**
  * What a message writer is asked to write: a tree of fields. Its encoding, and the proof that the
  * reader gets the tree back, level by level.
  */
module MessageTree {
  import opened WireFormat
  import opened ProtoFields

  /** A field written in one call, a nested message, or pre-encoded bytes appended as they are. */
  datatype Item =
    | Leaf(field: Field)
    | Nested(id: nat, items: seq<Item>)
    | Raw(bytes: seq<byte>)

  function TagBytes(id: nat): seq<byte> {
    VarInt(Tag(id, LengthDelimitedType))
  }

  /** A nested message carries its length in four redundant bytes. */
  function EncodeItem(i: Item): (s: seq<byte>)
    decreases i
  {
    match i
    case Leaf(f) => Serialize(f)
    case Nested(id, items) =>
      var body := Encode(items);
      TagBytes(id) + RedundantVarInt(|body| % U32) + body
    case Raw(bytes) => bytes
  }

  function Encode(items: seq<Item>): (s: seq<byte>)
    decreases items
  {
    if items == [] then [] else EncodeItem(items[0]) + Encode(items[1..])
  }

  ghost predicate GoodItem(i: Item)
    decreases i
  {
    match i
    case Leaf(f) => f.WellFormed()
    case Nested(id, items) => 1 <= id <= 0xFFFF && |Encode(items)| < MAX_MESSAGE_LENGTH && GoodItems(items)
    case Raw(bytes) => Consumed(bytes) == |bytes|
  }

  ghost predicate GoodItems(items: seq<Item>)
    decreases items
  {
    forall i :: 0 <= i < |items| ==> GoodItem(items[i])
  }

  lemma {:induction false} EncodeConcat(a: seq<Item>, b: seq<Item>)
    ensures Encode(a + b) == Encode(a) + Encode(b)
  {
    if a == [] {
      assert a + b == b;
    } else {
      assert (a + b)[1..] == a[1..] + b;
      EncodeConcat(a[1..], b);
    }
  }

  lemma {:induction false} EncodeSnoc(items: seq<Item>, i: Item)
    ensures Encode(items + [i]) == Encode(items) + EncodeItem(i)
  {
    EncodeConcat(items, [i]);
    assert [i][1..] == [];
  }

  // ---------- What a reader must see ----------

  /** The fields of one level: a nested message shows as a length-delimited field holding its encoding. */
  function FieldsOfItem(i: Item): seq<Field> {
    match i
    case Leaf(f) => [f]
    case Nested(id, items) => [Field(id, LengthDelimitedType, 0, Encode(items))]
    case Raw(bytes) => Decode(bytes)
  }

  function FieldsOf(items: seq<Item>): seq<Field> {
    if items == [] then [] else FieldsOfItem(items[0]) + FieldsOf(items[1..])
  }

  lemma {:induction false} DecodeOne(s: seq<byte>)
    ensures ParseOneField(s).Ok? && ParseOneField(s).next == |s| ==>
              Decode(s) == [ParseOneField(s).field] && Consumed(s) == |s|
  {
  }

  lemma {:induction false} DecodeLeaf(f: Field)
    requires f.WellFormed()
    ensures Decode(Serialize(f)) == [f] && Consumed(Serialize(f)) == |Serialize(f)|
  {
    hide ParseOneField, Serialize, Decode, Consumed;
    SerializeRoundTrip(f, []);
    assert Serialize(f) + [] == Serialize(f);
    DecodeOne(Serialize(f));
  }

  /** The four-byte length parses like any other varint, so the reader sees an ordinary field. */
  lemma {:induction false} DecodeNested(id: nat, body: seq<byte>)
    requires 1 <= id <= 0xFFFF && |body| < MAX_MESSAGE_LENGTH
    ensures var s := TagBytes(id) + RedundantVarInt(|body|) + body;
            Decode(s) == [Field(id, LengthDelimitedType, 0, body)] && Consumed(s) == |s|
  {
    hide ParseOneField, ParseVarInt, VarInt, Decode, Consumed;
    var n := |body|;
    var r := RedundantVarInt(n);
    RedundantVarIntRoundTrip(n, body);
    assert (r + body)[4..4 + n] == body;
    ParseTagged(id, LengthDelimitedType, r + body);
    assert TagBytes(id) + r + body == TagBytes(id) + (r + body);
    DecodeOne(TagBytes(id) + r + body);
  }

  lemma {:induction false} DecodeItem(i: Item)
    requires GoodItem(i)
    ensures Decode(EncodeItem(i)) == FieldsOfItem(i) && Consumed(EncodeItem(i)) == |EncodeItem(i)|
  {
    hide ParseOneField, Serialize, Decode, Consumed, RedundantVarInt, VarInt, Encode;
    match i
    case Leaf(f) => DecodeLeaf(f);
    case Nested(id, items) => DecodeNested(id, Encode(items));
    case Raw(bytes) =>
  }

  /** One level: the reader gets exactly the fields appended, in order, and consumes every byte. */
  lemma {:induction false} DecodeEncode(items: seq<Item>)
    requires GoodItems(items)
    ensures Decode(Encode(items)) == FieldsOf(items) && Consumed(Encode(items)) == |Encode(items)|
  {
    hide ParseOneField, EncodeItem, Decode, Consumed;
    if items == [] {
      DecodeNothing();
    } else {
      assert GoodItem(items[0]);
      DecodeItem(items[0]);
      DecodeEncode(items[1..]);
      DecodeConcat(EncodeItem(items[0]), Encode(items[1..]));
    }
  }

  lemma {:induction false} DecodeNothing()
    ensures Decode([]) == [] && Consumed([]) == 0
  {
  }

  /** The whole tree: the bytes decode to the fields of the level, and each nested payload to its own subtree. */
  ghost predicate ReadsBack(items: seq<Item>, bytes: seq<byte>)
    decreases items
  {
    && Decode(bytes) == FieldsOf(items)
    && Consumed(bytes) == |bytes|
    && forall i :: 0 <= i < |items| && items[i].Nested? ==> ReadsBack(items[i].items, Encode(items[i].items))
  }

  lemma {:induction false} TreeRoundTrip(items: seq<Item>)
    requires GoodItems(items)
    ensures ReadsBack(items, Encode(items))
    decreases items
  {
    hide ParseOneField, Decode, Consumed, FieldsOf, Encode;
    DecodeEncode(items);
    forall i | 0 <= i < |items| && items[i].Nested? ensures ReadsBack(items[i].items, Encode(items[i].items)) {
      assert GoodItem(items[i]);
      TreeRoundTrip(items[i].items);
    }
  }
}
