/**
  * The recorder sets the fields of a packet one by one on a message whose size field is the packet's
  * header. On the message writer these calls build exactly the packet.
  */
module RecorderSetters {
  import opened WireFormat
  import opened ProtoFields
  import opened MessageTree
  import opened OpenMessages
  import opened MessageWriter
  import opened WriterRuns
  import opened RecorderPackets

  /** Fields first, then at most one nested message, and the same inside it. */
  ghost predicate NestsLast(items: seq<Item>)
    decreases items
  {
    items == [] ||
    match items[0]
    case Leaf(f) => f.WellFormed() && |f.payload| < MAX_MESSAGE_LENGTH && NestsLast(items[1..])
    case Nested(id, inner) => 1 <= id <= 0xFFFF && items[1..] == [] && NestsLast(inner)
    case Raw(_) => false
  }

  /** Setting the fields in order, on the message at depth d and then on the one nested in it. */
  function Setters(d: nat, items: seq<Item>): seq<Call>
    decreases items
  {
    if items == [] then []
    else match items[0]
      case Leaf(f) => [AppendCall(d, f)] + Setters(d, items[1..])
      case Nested(id, inner) => [BeginCall(d, id)] + Setters(d + 1, inner)
      case Raw(_) => []
  }

  /** The open messages when they have been set on message `o`. */
  function After(o: Open, items: seq<Item>): (r: seq<Open>)
    ensures r != []
    decreases items
  {
    if items == [] then [o]
    else match items[0]
      case Leaf(f) => After(o.(items := o.items + [items[0]]), items[1..])
      case Nested(id, inner) => [o] + After(Open(id, [], false), inner)
      case Raw(_) => [o]
  }

  lemma {:induction false} AppendOnTop(below: seq<Open>, o: Open, f: Field)
    requires !o.done && f.WellFormed() && |f.payload| < MAX_MESSAGE_LENGTH
    ensures Legal(below + [o], AppendCall(|below|, f))
    ensures Perform(below + [o], AppendCall(|below|, f)) == below + [o.(items := o.items + [Leaf(f)])]
  {
    CloseNothing(below + [o], |below|);
    hide CloseAbove, Finished, Since;
  }

  lemma {:induction false} BeginOnTop(below: seq<Open>, o: Open, id: nat)
    requires !o.done && 1 <= id <= 0xFFFF
    ensures Legal(below + [o], BeginCall(|below|, id))
    ensures Perform(below + [o], BeginCall(|below|, id)) == below + [o] + [Open(id, [], false)]
  {
    CloseNothing(below + [o], |below|);
    hide CloseAbove, Finished, Since;
  }

  lemma {:induction false} RunSetters(below: seq<Open>, o: Open, items: seq<Item>)
    requires !o.done && NestsLast(items)
    ensures LegalRun(below + [o], Setters(|below|, items))
    ensures Run(below + [o], Setters(|below|, items)) == below + After(o, items)
    decreases items
  {
    var fs, d := below + [o], |below|;
    hide Perform, Legal;
    if items != [] {
      var calls := Setters(d, items);
      match items[0]
      case Leaf(f) =>
        var o' := o.(items := o.items + [items[0]]);
        assert calls[0] == AppendCall(d, f) && calls[1..] == Setters(d, items[1..]);
        AppendOnTop(below, o, f);
        RunSetters(below, o', items[1..]);
      case Nested(id, inner) =>
        assert calls[0] == BeginCall(d, id) && calls[1..] == Setters(d + 1, inner);
        BeginOnTop(below, o, id);
        RunSetters(fs, Open(id, [], false), inner);
        assert fs + After(Open(id, [], false), inner) == below + After(o, items);
    }
  }

  /** Finishing the message leaves it with the items it had and those that were set. */
  lemma {:induction false} FinishSetters(below: seq<Open>, o: Open, items: seq<Item>)
    requires !o.done && NestsLast(items)
    ensures Finished(below + After(o, items), |below|) == below + [Open(o.id, o.items + items, true)]
    decreases items
  {
    hide Length, Encode;
    var i := |below|;
    if items == [] {
      CloseNothing(below + [o], i);
      assert o.items + [] == o.items;
    } else {
      match items[0]
      case Leaf(f) =>
        FinishSetters(below, o.(items := o.items + [items[0]]), items[1..]);
        assert o.items + [items[0]] + items[1..] == o.items + items;
      case Nested(id, inner) =>
        var child := Open(id, [], false);
        var fs := below + After(o, items);
        assert fs == (below + [o]) + After(child, inner);
        FinishSetters(below + [o], child, inner);
        assert [] + inner == inner;
        assert items == [items[0]];
        FinishNested(below, o, id, inner, fs);
    }
  }

  lemma {:induction false} FinishNested(below: seq<Open>, o: Open, id: nat, inner: seq<Item>, fs: seq<Open>)
    requires !o.done && |fs| >= |below| + 2 && fs[|below|] == o
    requires Finished(fs, |below| + 1) == below + [o] + [Open(id, inner, true)]
    ensures Finished(fs, |below|) == below + [Open(o.id, o.items + [Nested(id, inner)], true)]
  {
    var i, r := |below|, Finished(fs, |below| + 1);
    assert CloseAbove(fs, i) == Collapse(r[..i + 2]);
    hide Finished, CloseAbove;
    assert r[..i + 2] == r && r[..|r| - 1] == below + [o] && r[|r| - 1] == Open(id, inner, true);
    assert Collapse(r) == below + [o.(items := o.items + [Nested(id, inner)])];
  }

  lemma {:induction false} LengthOne(below: seq<Open>, o: Open)
    ensures Length(below + [o]) == Length(below) + |TagOf(o)| + SlotSize(o) + |Encode(o.items)|
  {
    assert (below + [o])[..|below|] == below;
  }

  /** Nothing is written but the encoding of what was set. */
  lemma {:induction false} SettersLength(below: seq<Open>, o: Open, items: seq<Item>)
    requires NestsLast(items)
    ensures Length(below + After(o, items)) == Length(below + [o]) + |Encode(items)|
    decreases items
  {
    hide Length, TagOf, VarInt, Serialize;
    if items != [] {
      match items[0]
      case Leaf(f) =>
        var o' := o.(items := o.items + [items[0]]);
        SettersLength(below, o', items[1..]);
        LengthOne(below, o);
        LengthOne(below, o');
        EncodeSnoc(o.items, items[0]);
        SameTag(o, o');
      case Nested(id, inner) =>
        var child := Open(id, [], false);
        SettersLength(below + [o], child, inner);
        assert below + After(o, items) == (below + [o]) + After(child, inner);
        LengthOne(below + [o], child);
        NestedLength(id, inner);
        assert items == [items[0]];
        EncodedPair(items[0], items[0]);
    }
  }

  lemma {:induction false} SameTag(o: Open, p: Open)
    requires o.id == p.id
    ensures TagOf(o) == TagOf(p) && SlotSize(o) == SlotSize(p)
  {
  }

  lemma {:induction false} NestedLength(id: nat, inner: seq<Item>)
    requires id != 0
    ensures |EncodeItem(Nested(id, inner))| ==
        |TagOf(Open(id, [], false))| + SlotSize(Open(id, [], false)) + |Encode(inner)|
    ensures |Encode(Open(id, [], false).items)| == 0
  {
    hide VarInt, RedundantVarInt;
  }

  lemma {:induction false} SinceIsPart(fs: seq<Open>, k: nat)
    requires k < |fs|
    ensures Since(fs, k) <= Length(fs)
  {
    hide Length;
  }

  // ---------- Packets ----------

  /** The packet begins as field 1 with an empty size field, and its fields are set in order. */
  function PacketCalls(p: Packet): seq<Call> {
    Setters(0, [Nested(1, Items(p))])
  }

  lemma {:induction false} LeavesNest(leaves: seq<Item>, last: seq<Item>)
    requires forall i <- leaves :: i.Leaf? && i.field.WellFormed() && |i.field.payload| < MAX_MESSAGE_LENGTH
    requires last == [] || (|last| == 1 && last[0].Nested? && 1 <= last[0].id <= 0xFFFF && NestsLast(last[0].items))
    ensures NestsLast(leaves + last)
  {
    if leaves == [] {
      assert leaves + last == last;
    } else {
      assert (leaves + last)[0] == leaves[0] && (leaves + last)[1..] == leaves[1..] + last;
      LeavesNest(leaves[1..], last);
    }
  }

  lemma {:induction false} PacketsNestLast(p: Packet)
    requires ShortNames(p)
    ensures NestsLast(Items(p))
  {
    hide Decimal, NestsLast;
    assert NestsLast([]) by { NothingNests(); }
    match p
    case SequenceStart =>
      LeavesNest(Header(1), []);
      assert Header(1) + [] == Header(1);
    case DefineCategory(iid, text) => EntryNests(1, VarLeaf(1, iid), TextLeaf(2, text));
    case DefineEventName(iid, text) => EntryNests(2, VarLeaf(1, iid), TextLeaf(2, text));
    case DefineThreadTrack(t) =>
      ThreadDigits(t);
      var entry := [VarLeaf(1, t), TextLeaf(2, ThreadTrackName(t))];
      LeavesNest(entry, []);
      assert entry + [] == entry;
      LeavesNest(Header(2), [Nested(60, entry)]);
    case DefineCounterTrack(u, t, text) =>
      ThreadDigits(t);
      var entry := [VarLeaf(1, u), TextLeaf(2, CounterTrackName(t, text))];
      LeavesNest(entry, [Nested(8, [])]);
      assert entry + [Nested(8, [])] == [VarLeaf(1, u), TextLeaf(2, CounterTrackName(t, text)), Nested(8, [])];
      LeavesNest([], [Nested(60, entry + [Nested(8, [])])]);
      assert [] + [Nested(60, entry + [Nested(8, [])])] == [Nested(60, entry + [Nested(8, [])])];
    case _ => EventNests(p);
  }

  lemma {:induction false} NothingNests()
    ensures NestsLast([])
  {
  }

  lemma {:induction false} EntryNests(space: nat, a: Item, b: Item)
    requires 1 <= space <= 2
    requires forall i <- [a, b] :: i.Leaf? && i.field.WellFormed() && |i.field.payload| < MAX_MESSAGE_LENGTH
    ensures NestsLast(Header(2) + [Nested(12, [Nested(space, [a, b])])])
  {
    hide NestsLast;
    LeavesNest([a, b], []);
    assert [a, b] + [] == [a, b];
    var data := [Nested(space, [a, b])];
    LeavesNest([], data);
    assert [] + data == data;
    LeavesNest(Header(2), [Nested(12, data)]);
  }

  lemma {:induction false} EventNests(p: Packet)
    requires p.SliceBegin? || p.SliceEnd? || p.CounterValue?
    ensures NestsLast(Items(p))
  {
    hide NestsLast;
    match p
    case SliceBegin(ts, track, c, n) =>
      EventPacketNests(ts, [VarLeaf(11, track), VarLeaf(3, c), VarLeaf(10, n), VarLeaf(9, 1)]);
    case SliceEnd(ts, track, c, n) =>
      EventPacketNests(ts, [VarLeaf(3, c), VarLeaf(11, track), VarLeaf(10, n), VarLeaf(9, 2)]);
    case CounterValue(ts, u, v) =>
      EventPacketNests(ts, [VarLeaf(11, u), VarLeaf(9, 4), VarLeaf(30, ToUnsigned(v, U64))]);
  }

  lemma {:induction false} EventPacketNests(ts: u64, event: seq<Item>)
    requires forall i <- event :: i.Leaf? && i.field.WellFormed() && |i.field.payload| < MAX_MESSAGE_LENGTH
    ensures NestsLast(Header(2) + [VarLeaf(8, ts), Nested(11, event)])
  {
    hide NestsLast;
    LeavesNest(event, []);
    assert event + [] == event;
    LeavesNest(Header(2) + [VarLeaf(8, ts)], [Nested(11, event)]);
    assert Header(2) + [VarLeaf(8, ts)] + [Nested(11, event)] == Header(2) + [VarLeaf(8, ts), Nested(11, event)];
  }

  /** The setter calls are legal on a fresh writer and build the packet, byte for byte. */
  lemma {:induction false} SettersBuildThePacket(p: Packet)
    requires ShortNames(p)
    ensures LegalRun(START, PacketCalls(p)) && Closable(Run(START, PacketCalls(p)), 0)
    ensures Built(PacketCalls(p)) == [Nested(1, Items(p))] && Encode(Built(PacketCalls(p))) == PacketBytes(p)
  {
    hide Items, Encode, EncodeItem, Length, ShortNames, Finished, Since;
    PacketFits(p);
    PacketsNestLast(p);
    var root, items := Open(0, [], false), [Nested(1, Items(p))];
    assert [] + [root] == START && [] + After(root, items) == After(root, items) && [] + items == items;
    RunSetters([], root, items);
    FinishSetters([], root, items);
    SettersLength([], root, items);
    LengthOne([], root);
    EmptyLength();
    EncodedPair(items[0], items[0]);
    EncodeSnoc([], items[0]);
    EncodedNothing();
    assert [] + [items[0]] == items && [] + EncodeItem(items[0]) == EncodeItem(items[0]);
    var fs := After(root, items);
    assert Length(fs) <= NEEDED_SPACE;
    forall k | 1 <= k < |fs| ensures Since(fs, k) < MAX_MESSAGE_LENGTH {
      SinceIsPart(fs, k);
    }
  }

  lemma {:induction false} EmptyLength()
    ensures Length([]) == 0 && |TagOf(Open(0, [], false))| + SlotSize(Open(0, [], false)) + |Encode([])| == 0
  {
  }

  /**
    * A packet written by its setters on real message objects has the bytes of the packet. A range with
    * room for any packet is never left for another one before the packet ends.
    */
  method WriteWithSetters(p: Packet, initialSliceSize: nat, maximumSliceSize: nat)
    returns (bytes: seq<byte>, slices: nat)
    requires ShortNames(p) && MESSAGE_LENGTH_FIELD_SIZE <= initialSliceSize <= maximumSliceSize
    ensures bytes == PacketBytes(p)
    ensures NEEDED_SPACE <= initialSliceSize ==> slices == 1
  {
    hide PacketBytes, Encode, Closable, Built, ShortNames;
    SettersBuildThePacket(p);
    PacketFits(p);
    bytes, slices := Replay(PacketCalls(p), initialSliceSize, maximumSliceSize);
  }
}
