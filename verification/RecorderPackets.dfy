/**
  * The packets the per-thread recorder writes: their fields, their bytes and their size.
  */
module RecorderPackets {
  import opened WireFormat
  import opened ProtoFields
  import opened MessageTree

  type Thread = nat

  datatype Packet =
    | SequenceStart
    | DefineCategory(iid: u32, text: seq<byte>)
    | DefineEventName(iid: u32, text: seq<byte>)
    | DefineThreadTrack(thread: u32)
    | DefineCounterTrack(uuid: u64, thread: u32, text: seq<byte>)
    | SliceBegin(ts: u64, track: u32, category: u32, name: u32)
    | SliceEnd(ts: u64, track: u32, category: u32, name: u32)
    | CounterValue(ts: u64, uuid: u64, value: i64)

  // ---------- Texts ----------

  function Decimal(n: nat): (s: seq<byte>) {
    if n < 10 then [48 + n] else Decimal(n / 10) + [48 + n % 10]
  }

  lemma {:induction false} DecimalLength(n: nat, k: nat, bound: nat)
    requires k >= 1 && n < bound && bound <= if k == 1 then 10 else 10 * Pow10(k - 1)
    ensures |Decimal(n)| <= k
    decreases k
  {
    if n >= 10 {
      if k > 2 {
        DecimalLength(n / 10, k - 1, Pow10(k - 1));
      } else if k == 2 {
        assert Pow10(1) == 10 * Pow10(0);
      }
    }
  }

  function Pow10(n: nat): nat {
    if n == 0 then 1 else 10 * Pow10(n - 1)
  }

  lemma {:induction false} ThreadDigits(thread: u32)
    ensures |Decimal(thread)| <= 10
  {
    assert Pow10(9) == 1_000_000_000 by {
      assert Pow10(3) == 1000;
      assert Pow10(6) == 1000 * Pow10(3);
      assert Pow10(9) == 1000 * Pow10(6);
    }
    DecimalLength(thread, 10, U32);
  }

  /** "emu-" and the thread id. */
  function ThreadTrackName(thread: u32): seq<byte> {
    [101, 109, 117, 45] + Decimal(thread)
  }

  /** "emu-", the thread id, "-count-" and the counter's name. */
  function CounterTrackName(thread: u32, text: seq<byte>): seq<byte> {
    ThreadTrackName(thread) + [45, 99, 111, 117, 110, 116, 45] + text
  }

  /** "gfxstream". */
  const CATEGORY_TEXT: seq<byte> := [103, 102, 120, 115, 116, 114, 101, 97, 109]

  function Ascii(s: string): seq<byte> {
    seq(|s|, i requires 0 <= i < |s| => s[i] as int % 256)
  }

  /** The texts the recorder makes up, letter by letter. */
  lemma {:induction false} TextsSpelled(thread: u32, text: seq<byte>)
    ensures CATEGORY_TEXT == Ascii("gfxstream")
    ensures ThreadTrackName(thread) == Ascii("emu-") + Decimal(thread)
    ensures CounterTrackName(thread, text) == Ascii("emu-") + Decimal(thread) + Ascii("-count-") + text
  {
    assert "gfxstream" == ['g', 'f', 'x', 's', 't', 'r', 'e', 'a', 'm'];
  }

  // ---------- Fields ----------

  function VarLeaf(id: nat, v: u64): Item {
    Leaf(Field(id, VarIntType, v, []))
  }

  function TextLeaf(id: nat, text: seq<byte>): Item {
    Leaf(Field(id, LengthDelimitedType, 0, text))
  }

  /** trusted_packet_sequence_id = 1 and sequence_flags. */
  function Header(flags: u64): seq<Item> {
    [VarLeaf(10, 1), VarLeaf(13, flags)]
  }

  /** The fields of a packet in the order they are set. */
  function Items(p: Packet): seq<Item> {
    match p
    case SequenceStart => Header(1)
    case DefineCategory(iid, text) => Header(2) + [Nested(12, [Nested(1, [VarLeaf(1, iid), TextLeaf(2, text)])])]
    case DefineEventName(iid, text) => Header(2) + [Nested(12, [Nested(2, [VarLeaf(1, iid), TextLeaf(2, text)])])]
    case DefineThreadTrack(t) => Header(2) + [Nested(60, [VarLeaf(1, t), TextLeaf(2, ThreadTrackName(t))])]
    case DefineCounterTrack(u, t, text) =>
      [Nested(60, [VarLeaf(1, u), TextLeaf(2, CounterTrackName(t, text)), Nested(8, [])])]
    case SliceBegin(ts, track, c, n) =>
      Header(2) + [VarLeaf(8, ts), Nested(11, [VarLeaf(11, track), VarLeaf(3, c), VarLeaf(10, n), VarLeaf(9, 1)])]
    case SliceEnd(ts, track, c, n) =>
      Header(2) + [VarLeaf(8, ts), Nested(11, [VarLeaf(3, c), VarLeaf(11, track), VarLeaf(10, n), VarLeaf(9, 2)])]
    case CounterValue(ts, u, v) =>
      Header(2) + [VarLeaf(8, ts), Nested(11, [VarLeaf(11, u), VarLeaf(9, 4), VarLeaf(30, ToUnsigned(v, U64))])]
  }

  /** A packet in the file: field 1 of the trace, its length in four bytes, its fields. */
  function PacketBytes(p: Packet): (s: seq<byte>) {
    EncodeItem(Nested(1, Items(p)))
  }

  // ---------- Sizes ----------

  const MAX_EVENT_NAME := 180
  const MAX_COUNTER_NAME := 157
  const PACKET_ROOM := 203
  const NEEDED_SPACE := 4 + 4 + 200

  /**
    * Event and category names of at most 180 bytes, counter names of at most 157; everything else has a
    * machine-word size.
    */
  predicate ShortNames(p: Packet) {
    match p
    case DefineCategory(_, text) => |text| <= MAX_EVENT_NAME
    case DefineEventName(_, text) => |text| <= MAX_EVENT_NAME
    case DefineCounterTrack(_, _, text) => |text| <= MAX_COUNTER_NAME
    case _ => true
  }

  /** An upper bound on encoded sizes that is a plain sum. */
  function ItemSize(i: Item): nat {
    match i
    case Leaf(f) => TagSize(f.id) + (if f.wire.LengthDelimitedType? then 2 + |f.payload| else ValueSize(f.value))
    case Nested(id, items) => TagSize(id) + 4 + ItemsSize(items)
    case Raw(b) => |b|
  }

  function ItemsSize(items: seq<Item>): nat {
    if items == [] then 0 else ItemSize(items[0]) + ItemsSize(items[1..])
  }

  function TagSize(id: nat): nat { if id < 16 then 1 else 2 }

  function ValueSize(v: nat): nat { if v < 0x80 then 1 else if v < U32 then 5 else 10 }

  /** The shapes the recorder uses: varints, texts below 2^14 bytes, ids below 2^11. */
  ghost predicate Small(i: Item) {
    match i
    case Leaf(f) => 1 <= f.id < 2048 && f.WellFormed() && |f.payload| < 0x4000 &&
        (f.wire.VarIntType? || f.wire.LengthDelimitedType?)
    case Nested(id, items) => 1 <= id < 2048 && forall k :: 0 <= k < |items| ==> Small(items[k])
    case Raw(_) => false
  }

  lemma {:induction false} EncodedItemSize(i: Item)
    requires Small(i)
    ensures |EncodeItem(i)| <= ItemSize(i)
    decreases i
  {
    hide VarInt, RedundantVarInt;
    match i
    case Leaf(f) =>
      VarIntBounds(Tag(f.id, f.wire));
      VarIntBounds(f.value);
      VarIntBounds(|f.payload|);
    case Nested(id, items) =>
      VarIntBounds(Tag(id, LengthDelimitedType));
      EncodedSize(items);
  }

  lemma {:induction false} EncodedSize(items: seq<Item>)
    requires forall k :: 0 <= k < |items| ==> Small(items[k])
    ensures |Encode(items)| <= ItemsSize(items)
    decreases items
  {
    if items != [] {
      EncodedItemSize(items[0]);
      EncodedSize(items[1..]);
    }
  }

  lemma {:induction false} ItemsSizeCons(i: Item, rest: seq<Item>)
    ensures ItemsSize([i] + rest) == ItemSize(i) + ItemsSize(rest)
  {
    assert ([i] + rest)[1..] == rest;
  }

  lemma {:induction false} SizeOne(a: Item)
    ensures ItemsSize([a]) == ItemSize(a)
  {
    ItemsSizeCons(a, []);
    assert [a] + [] == [a];
  }

  lemma {:induction false} SizeTwo(a: Item, b: Item)
    ensures ItemsSize([a, b]) == ItemSize(a) + ItemSize(b)
  {
    ItemsSizeCons(a, [b]);
    SizeOne(b);
    assert [a] + [b] == [a, b];
  }

  lemma {:induction false} SizeThree(a: Item, b: Item, c: Item)
    ensures ItemsSize([a, b, c]) == ItemSize(a) + ItemSize(b) + ItemSize(c)
  {
    ItemsSizeCons(a, [b, c]);
    SizeTwo(b, c);
    assert [a] + [b, c] == [a, b, c];
  }

  lemma {:induction false} SizeFour(a: Item, b: Item, c: Item, d: Item)
    ensures ItemsSize([a, b, c, d]) == ItemSize(a) + ItemSize(b) + ItemSize(c) + ItemSize(d)
  {
    ItemsSizeCons(a, [b, c, d]);
    SizeThree(b, c, d);
    assert [a] + [b, c, d] == [a, b, c, d];
  }

  /** Every packet fits in the room left after its preamble and length, so it is never split. */
  lemma {:induction false} PacketFits(p: Packet)
    requires ShortNames(p)
    ensures |Encode(Items(p))| <= PACKET_ROOM && GoodItem(Nested(1, Items(p)))
    ensures |PacketBytes(p)| <= NEEDED_SPACE && |PacketBytes(p)| == 5 + |Encode(Items(p))|
  {
    hide VarInt, RedundantVarInt, Encode, ItemsSize;
    ItemsAreSmall(p);
    PacketSizeBound(p);
    EncodedSize(Items(p));
    VarIntBounds(Tag(1, LengthDelimitedType));
    SmallItemsAreGood(Items(p));
  }

  lemma {:induction false} PacketSizeBound(p: Packet)
    requires ShortNames(p)
    ensures ItemsSize(Items(p)) <= PACKET_ROOM
  {
    hide ItemsSize, Decimal;
    var h1, h2 := VarLeaf(10, 1), VarLeaf(13, 2);
    match p
    case SequenceStart =>
      SizeTwo(VarLeaf(10, 1), VarLeaf(13, 1));
    case DefineCategory(iid, text) =>
      var inner := Nested(1, [VarLeaf(1, iid), TextLeaf(2, text)]);
      SizeTwo(VarLeaf(1, iid), TextLeaf(2, text));
      SizeOne(inner);
      SizeThree(h1, h2, Nested(12, [inner]));
      assert Items(p) == [h1, h2, Nested(12, [inner])];
    case DefineEventName(iid, text) =>
      var inner := Nested(2, [VarLeaf(1, iid), TextLeaf(2, text)]);
      SizeTwo(VarLeaf(1, iid), TextLeaf(2, text));
      SizeOne(inner);
      SizeThree(h1, h2, Nested(12, [inner]));
      assert Items(p) == [h1, h2, Nested(12, [inner])];
    case DefineThreadTrack(t) =>
      ThreadDigits(t);
      SizeTwo(VarLeaf(1, t), TextLeaf(2, ThreadTrackName(t)));
      SizeThree(h1, h2, Nested(60, [VarLeaf(1, t), TextLeaf(2, ThreadTrackName(t))]));
      assert Items(p) == [h1, h2, Nested(60, [VarLeaf(1, t), TextLeaf(2, ThreadTrackName(t))])];
    case DefineCounterTrack(u, t, text) =>
      ThreadDigits(t);
      var name := TextLeaf(2, CounterTrackName(t, text));
      assert ItemsSize([]) == 0 by { NoItems(); }
      SizeThree(VarLeaf(1, u), name, Nested(8, []));
      SizeOne(Nested(60, [VarLeaf(1, u), name, Nested(8, [])]));
    case _ => EventSizeBound(p);
  }

  lemma {:induction false} EventSizeBound(p: Packet)
    requires p.SliceBegin? || p.SliceEnd? || p.CounterValue?
    ensures ItemsSize(Items(p)) <= PACKET_ROOM
  {
    hide ItemsSize;
    var h1, h2 := VarLeaf(10, 1), VarLeaf(13, 2);
    match p
    case SliceBegin(ts, track, c, n) =>
      var event := [VarLeaf(11, track), VarLeaf(3, c), VarLeaf(10, n), VarLeaf(9, 1)];
      SizeFour(VarLeaf(11, track), VarLeaf(3, c), VarLeaf(10, n), VarLeaf(9, 1));
      SizeFour(h1, h2, VarLeaf(8, ts), Nested(11, event));
      assert Items(p) == [h1, h2, VarLeaf(8, ts), Nested(11, event)];
    case SliceEnd(ts, track, c, n) =>
      var event := [VarLeaf(3, c), VarLeaf(11, track), VarLeaf(10, n), VarLeaf(9, 2)];
      SizeFour(VarLeaf(3, c), VarLeaf(11, track), VarLeaf(10, n), VarLeaf(9, 2));
      SizeFour(h1, h2, VarLeaf(8, ts), Nested(11, event));
      assert Items(p) == [h1, h2, VarLeaf(8, ts), Nested(11, event)];
    case CounterValue(ts, u, v) =>
      var event := [VarLeaf(11, u), VarLeaf(9, 4), VarLeaf(30, ToUnsigned(v, U64))];
      SizeThree(VarLeaf(11, u), VarLeaf(9, 4), VarLeaf(30, ToUnsigned(v, U64)));
      SizeFour(h1, h2, VarLeaf(8, ts), Nested(11, event));
      assert Items(p) == [h1, h2, VarLeaf(8, ts), Nested(11, event)];
  }

  lemma {:induction false} NoItems()
    ensures ItemsSize([]) == 0
  {
  }

  lemma {:induction false} ItemsAreSmall(p: Packet)
    requires ShortNames(p)
    ensures forall k :: 0 <= k < |Items(p)| ==> Small(Items(p)[k])
  {
    hide Decimal;
    match p
    case SequenceStart =>
    case DefineCategory(iid, text) =>
      assert Small(Nested(1, [VarLeaf(1, iid), TextLeaf(2, text)]));
    case DefineEventName(iid, text) =>
      assert Small(Nested(2, [VarLeaf(1, iid), TextLeaf(2, text)]));
    case DefineThreadTrack(t) =>
      ThreadDigits(t);
    case DefineCounterTrack(u, t, text) =>
      ThreadDigits(t);
      assert Small(Nested(8, []));
    case SliceBegin(ts, track, c, n) =>
      assert Small(VarLeaf(8, ts));
    case SliceEnd(ts, track, c, n) =>
      assert Small(VarLeaf(8, ts));
    case CounterValue(ts, u, v) =>
      assert Small(VarLeaf(8, ts));
  }

  lemma {:induction false} SmallItemsAreGood(items: seq<Item>)
    requires (forall k :: 0 <= k < |items| ==> Small(items[k])) && ItemsSize(items) < MAX_MESSAGE_LENGTH
    ensures GoodItems(items)
    decreases items
  {
    hide Encode, EncodeItem;
    forall k | 0 <= k < |items| ensures GoodItem(items[k]) {
      PartSize(items, k);
      match items[k]
      case Leaf(f) =>
      case Nested(id, inner) =>
        EncodedSize(inner);
        SmallItemsAreGood(inner);
    }
  }

  lemma {:induction false} PartSize(items: seq<Item>, k: nat)
    requires k < |items|
    ensures ItemSize(items[k]) <= ItemsSize(items)
    decreases k
  {
    if k > 0 {
      PartSize(items[1..], k - 1);
    }
  }

  // ---------- The longest names ----------

  lemma {:induction false} EncodedPair(a: Item, b: Item)
    ensures |Encode([a])| == |EncodeItem(a)|
    ensures |Encode([a, b])| == |EncodeItem(a)| + |EncodeItem(b)|
  {
    EncodeSnoc([], a);
    EncodeSnoc([a], b);
    assert [] + [a] == [a] && [a] + [b] == [a, b];
  }

  lemma {:induction false} EncodedTriple(a: Item, b: Item, c: Item)
    ensures |Encode([a, b, c])| == |EncodeItem(a)| + |EncodeItem(b)| + |EncodeItem(c)|
  {
    hide EncodeItem, Encode;
    EncodedPair(a, b);
    EncodeSnoc([a, b], c);
    assert [a, b] + [c] == [a, b, c];
  }

  lemma {:induction false} EncodedParts(id: nat, v: u64, text: seq<byte>, items: seq<Item>)
    requires 1 <= id < 2048
    ensures |EncodeItem(VarLeaf(id, v))| == TagSize(id) + |VarInt(v)|
    ensures |EncodeItem(TextLeaf(id, text))| == TagSize(id) + |VarInt(|text|)| + |text|
    ensures |EncodeItem(Nested(id, items))| == TagSize(id) + 4 + |Encode(items)|
  {
    hide VarInt, RedundantVarInt, Encode;
    TagBytesSize(id, VarIntType);
    TagBytesSize(id, LengthDelimitedType);
  }

  lemma {:induction false} TagBytesSize(id: nat, wire: WireType)
    requires 1 <= id < 2048
    ensures |VarInt(Tag(id, wire))| == TagSize(id)
  {
    VarIntBounds(Tag(id, wire));
    VarIntSize(Tag(id, wire), 1);
  }

  /** The exact size of an interned name, and of a counter track. */
  lemma {:induction false} DefinitionSize(p: Packet)
    ensures p.DefineCategory? || p.DefineEventName? ==>
              |Encode(Items(p))| == 16 + |VarInt(p.iid)| + |VarInt(|p.text|)| + |p.text|
    ensures p.DefineCounterTrack? ==>
              var name := CounterTrackName(p.thread, p.text);
              |Encode(Items(p))| == 13 + |VarInt(p.uuid)| + |VarInt(|name|)| + |name|
  {
    hide VarInt, Encode, EncodeItem, Decimal;
    if p.DefineCategory? || p.DefineEventName? {
      var entry := [VarLeaf(1, p.iid), TextLeaf(2, p.text)];
      var space := if p.DefineCategory? then 1 else 2;
      var data := [Nested(space, entry)];
      VarIntBounds(1);
      VarIntBounds(2);
      EncodedParts(10, 1, [], []);
      EncodedParts(13, 2, [], []);
      EncodedParts(1, p.iid, [], []);
      EncodedParts(2, 0, p.text, []);
      EncodedParts(space, 0, [], entry);
      EncodedParts(12, 0, [], data);
      EncodedPair(VarLeaf(1, p.iid), TextLeaf(2, p.text));
      EncodedPair(Nested(space, entry), VarLeaf(1, 0));
      EncodedTriple(VarLeaf(10, 1), VarLeaf(13, 2), Nested(12, data));
      assert Items(p) == [VarLeaf(10, 1), VarLeaf(13, 2), Nested(12, data)];
    } else if p.DefineCounterTrack? {
      var name := CounterTrackName(p.thread, p.text);
      var entry := [VarLeaf(1, p.uuid), TextLeaf(2, name), Nested(8, [])];
      EncodedParts(1, p.uuid, [], []);
      EncodedParts(2, 0, name, []);
      EncodedParts(8, 0, [], []);
      EncodedParts(60, 0, [], entry);
      EncodedPair(Nested(60, entry), VarLeaf(1, 0));
      EncodedTriple(VarLeaf(1, p.uuid), TextLeaf(2, name), Nested(8, []));
      assert |Encode([])| == 0 by { EncodedNothing(); }
    }
  }

  lemma {:induction false} EncodedNothing()
    ensures Encode([]) == []
  {
  }

  /**
    * The bounds are the largest: a name one byte longer may leave no room for its packet. Only the
    * largest ids need all of it.
    */
  lemma {:induction false} LongerNamesMayNotFit(text: seq<byte>)
    ensures |text| == MAX_EVENT_NAME + 1 ==> |Encode(Items(DefineEventName(U32 - 1, text)))| == PACKET_ROOM + 1
    ensures |text| == MAX_COUNTER_NAME + 1 ==>
              |Encode(Items(DefineCounterTrack(U64 - 1, U32 - 1, text)))| == PACKET_ROOM + 1
  {
    hide VarInt, Encode, Items;
    var event, counter := DefineEventName(U32 - 1, text), DefineCounterTrack(U64 - 1, U32 - 1, text);
    DefinitionSize(event);
    DefinitionSize(counter);
    VarIntBounds(U32 - 1);
    VarIntBounds(U64 - 1);
    VarIntSize(U32 - 1, 4);
    VarIntSize(U64 - 1, 9);
    Pow128Values();
    TenDigits();
    var name := CounterTrackName(U32 - 1, text);
    VarIntBounds(|text|);
    VarIntBounds(|name|);
    VarIntSize(|text|, 1);
    VarIntSize(|name|, 1);
    assert Pow128(1) == 128 by { OnePower(); }
  }

  lemma {:induction false} OnePower()
    ensures Pow128(1) == 128
  {
  }

  lemma {:induction false} OneMoreDigit(n: nat, digit: nat)
    requires 1 <= n && digit < 10
    ensures |Decimal(10 * n + digit)| == |Decimal(n)| + 1
  {
    assert (10 * n + digit) / 10 == n;
  }

  lemma {:induction false} TenDigits()
    ensures |Decimal(U32 - 1)| == 10
  {
    OneMoreDigit(429496729, 5);
    OneMoreDigit(42949672, 9);
    OneMoreDigit(4294967, 2);
    OneMoreDigit(429496, 7);
    OneMoreDigit(42949, 6);
    OneMoreDigit(4294, 9);
    OneMoreDigit(429, 4);
    OneMoreDigit(42, 9);
    OneMoreDigit(4, 2);
    assert |Decimal(4)| == 1;
    hide Decimal;
  }

  // ---------- Streams of packets ----------

  function StreamBytes(ps: seq<Packet>): seq<byte> {
    if ps == [] then [] else StreamBytes(ps[..|ps| - 1]) + PacketBytes(ps[|ps| - 1])
  }

  function PacketFields(ps: seq<Packet>): seq<Field> {
    if ps == [] then []
    else PacketFields(ps[..|ps| - 1]) + [Field(1, LengthDelimitedType, 0, Encode(Items(ps[|ps| - 1])))]
  }

  /**
    * A reader of a buffer sees one field 1 for each packet, whole and in order, and each payload reads
    * back as the packet.
    */
  lemma {:induction false} StreamReadsBack(ps: seq<Packet>)
    requires forall p <- ps :: ShortNames(p)
    ensures Decode(StreamBytes(ps)) == PacketFields(ps) && Consumed(StreamBytes(ps)) == |StreamBytes(ps)|
    ensures forall p <- ps :: ReadsBack(Items(p), Encode(Items(p)))
  {
    hide Decode, Consumed, Encode, EncodeItem, Items, ReadsBack, ShortNames, GoodItem;
    if ps == [] {
      DecodeNothing();
    } else {
      var n := |ps| - 1;
      StreamReadsBack(ps[..n]);
      PacketReadsBack(ps[n]);
      DecodeConcat(StreamBytes(ps[..n]), PacketBytes(ps[n]));
      assert ps == ps[..n] + [ps[n]];
    }
  }

  lemma {:induction false} PacketReadsBack(p: Packet)
    requires ShortNames(p)
    ensures Decode(PacketBytes(p)) == [Field(1, LengthDelimitedType, 0, Encode(Items(p)))]
    ensures Consumed(PacketBytes(p)) == |PacketBytes(p)|
    ensures ReadsBack(Items(p), Encode(Items(p)))
  {
    hide Decode, Consumed, Encode, EncodeItem, Items, ReadsBack, ShortNames, ParseOneField;
    PacketFits(p);
    DecodeItem(Nested(1, Items(p)));
    TreeRoundTrip(Items(p));
  }
}
