/**
  * The abstract state of a message writer: the stack of open messages with what was appended to each,
  * where their bytes lie in the log, and what the writer's calls do to the stack.
  */
module OpenMessages {
  import opened WireFormat
  import opened MessageTree
  import opened ScatteredStream

  /** An open message: the root has id 0. `done` means finalized but still held by its parent. */
  datatype Open = Open(id: nat, items: seq<Item>, done: bool)

  function TagOf(o: Open): seq<byte> {
    if o.id == 0 then [] else TagBytes(o.id)
  }

  function SlotSize(o: Open): nat {
    if o.id == 0 then 0 else MESSAGE_LENGTH_FIELD_SIZE
  }

  /** The log: each message's preamble, its length slot (holding anything until backfilled) and its items. */
  function Layout(fs: seq<Open>, slots: seq<seq<byte>>): (s: seq<byte>)
    requires |fs| == |slots|
  {
    if fs == [] then []
    else
      var n := |fs| - 1;
      Layout(fs[..n], slots[..n]) + (TagOf(fs[n]) + slots[n] + Encode(fs[n].items))
  }

  function Length(fs: seq<Open>): nat {
    if fs == [] then 0
    else
      var n := |fs| - 1;
      Length(fs[..n]) + (|TagOf(fs[n])| + SlotSize(fs[n]) + |Encode(fs[n].items)|)
  }

  /** Position in the log of the length slot of message `i`. */
  function SlotPos(fs: seq<Open>, i: nat): nat
    requires i < |fs|
  {
    Length(fs[..i]) + |TagOf(fs[i])|
  }

  /** Logical bytes written since the length slot of message `i`. */
  function Since(fs: seq<Open>, i: nat): int
    requires i < |fs|
  {
    Length(fs) - SlotPos(fs, i) - SlotSize(fs[i])
  }

  /** Bytes counted by message `i` itself: its items, and the preamble and slot of an open child. */
  function OwnSize(fs: seq<Open>, i: nat): nat
    requires i < |fs|
  {
    |Encode(fs[i].items)| + if i + 1 < |fs| then |TagOf(fs[i + 1])| + SlotSize(fs[i + 1]) else 0
  }

  function SumOwnSizes(fs: seq<Open>, i: nat): nat
    decreases |fs| - i
  {
    if i >= |fs| then 0 else OwnSize(fs, i) + SumOwnSizes(fs, i + 1)
  }

  /** Size accounting: the bytes since a message's slot are its own size plus those of its open descendants. */
  lemma {:induction false} SizeAccounting(fs: seq<Open>, i: nat)
    requires i < |fs|
    ensures Since(fs, i) == SumOwnSizes(fs, i)
    decreases |fs| - i
  {
    assert fs[..i + 1][..i] == fs[..i];
    if i + 1 < |fs| {
      SizeAccounting(fs, i + 1);
    } else {
      assert fs[..i + 1] == fs;
      assert SumOwnSizes(fs, i + 1) == 0;
    }
  }

  ghost predicate GoodSlots(fs: seq<Open>, slots: seq<seq<byte>>)
    ensures GoodSlots(fs, slots) ==> |fs| == |slots|
  {
    && |fs| == |slots|
    && forall i :: 0 <= i < |fs| ==>
         && |slots[i]| == SlotSize(fs[i])
         && (fs[i].done && fs[i].id != 0 ==> slots[i] == RedundantVarInt(|Encode(fs[i].items)| % U32))
  }

  /** The root is at the bottom, only the top message can be finalized already, and all sizes fit. */
  ghost predicate GoodStack(fs: seq<Open>)
    ensures GoodStack(fs) ==> fs != []
  {
    && fs != []
    && fs[0].id == 0
    && forall i :: 0 <= i < |fs| ==>
         && GoodItems(fs[i].items)
         && (i > 0 ==> 1 <= fs[i].id <= 0xFFFF)
         && (fs[i].done ==> i == |fs| - 1 && (i > 0 ==> |Encode(fs[i].items)| < MAX_MESSAGE_LENGTH))
  }

  lemma {:induction false} GoodAppend(fs: seq<Open>, item: Item)
    requires GoodStack(fs) && !fs[|fs| - 1].done && GoodItem(item)
    ensures GoodStack(AppendTop(fs, item))
  {
    hide Encode, GoodItem;
    var n := |fs| - 1;
    var items := fs[n].items + [item];
    assert GoodItems(items) by {
      assert GoodItems(fs[n].items);
    }
    assert AppendTop(fs, item)[n] == fs[n].(items := items);
  }

  lemma {:induction false} GoodPush(fs: seq<Open>, id: nat)
    requires GoodStack(fs) && !fs[|fs| - 1].done && 1 <= id <= 0xFFFF
    ensures GoodStack(fs + [Open(id, [], false)])
  {
    hide Encode, GoodItem;
  }

  lemma {:induction false} LayoutLength(fs: seq<Open>, slots: seq<seq<byte>>)
    requires |fs| == |slots| && forall i :: 0 <= i < |fs| ==> |slots[i]| == SlotSize(fs[i])
    ensures |Layout(fs, slots)| == Length(fs)
  {
    if fs != [] {
      LayoutLength(fs[..|fs| - 1], slots[..|fs| - 1]);
    }
  }

  // ---------- What the calls do ----------

  /** Appending a field to the top message. */
  function AppendTop(fs: seq<Open>, item: Item): seq<Open>
    requires fs != []
  {
    var n := |fs| - 1;
    fs[n := fs[n].(items := fs[n].items + [item])]
  }

  /** The top message becomes an item of its parent. */
  function Collapse(fs: seq<Open>): (r: seq<Open>)
    requires |fs| >= 2
    ensures |r| == |fs| - 1
  {
    AppendTop(fs[..|fs| - 1], Nested(fs[|fs| - 1].id, fs[|fs| - 1].items))
  }

  /** Message `i` is finalized: its open children are closed first; doing it again changes nothing. */
  function Finished(fs: seq<Open>, i: nat): (r: seq<Open>)
    requires i < |fs|
    ensures |r| > i && (fs[i].done || |r| == i + 1)
    decreases |fs| - i, 1
  {
    if fs[i].done then fs else Sealed(CloseAbove(fs, i))
  }

  /** Everything nested in message `i` is closed. */
  function CloseAbove(fs: seq<Open>, i: nat): (r: seq<Open>)
    requires i < |fs|
    ensures |r| == i + 1
    decreases |fs| - i, 0
  {
    if |fs| == i + 1 then fs else Collapse(Finished(fs, i + 1)[..i + 2])
  }

  /** No message at or above `i` is too long to be closed now. */
  ghost predicate Closable(fs: seq<Open>, i: nat) {
    forall k :: 1 <= k < |fs| && i <= k ==> fs[k].done || Since(fs, k) < MAX_MESSAGE_LENGTH
  }

  lemma {:induction false} LengthSplit(fs: seq<Open>)
    requires fs != []
    ensures var n := |fs| - 1;
            Length(fs) == Length(fs[..n]) + |TagOf(fs[n])| + SlotSize(fs[n]) + |Encode(fs[n].items)|
  {
  }

  lemma {:induction false} LayoutSplit(fs: seq<Open>, slots: seq<seq<byte>>)
    requires fs != [] && |fs| == |slots|
    ensures var n := |fs| - 1;
            Layout(fs, slots) == Layout(fs[..n], slots[..n]) + (TagOf(fs[n]) + slots[n] + Encode(fs[n].items))
  {
  }

  lemma {:induction false} AppendTopFacts(fs: seq<Open>, slots: seq<seq<byte>>, item: Item)
    requires GoodStack(fs) && GoodSlots(fs, slots) && !fs[|fs| - 1].done && GoodItem(item)
    ensures GoodStack(AppendTop(fs, item)) && GoodSlots(AppendTop(fs, item), slots)
    ensures Layout(AppendTop(fs, item), slots) == Layout(fs, slots) + EncodeItem(item)
    ensures Length(AppendTop(fs, item)) == Length(fs) + |EncodeItem(item)|
  {
    hide Encode, EncodeItem, Layout, Length, GoodItem, GoodStack;
    GoodAppend(fs, item);
    var n := |fs| - 1;
    var fs' := AppendTop(fs, item);
    assert fs'[..n] == fs[..n];
    EncodeSnoc(fs[n].items, item);
    LayoutSplit(fs, slots);
    LayoutSplit(fs', slots);
    LengthSplit(fs);
    LengthSplit(fs');
  }

  /** Ending a nested message leaves the log as it is: its preamble, slot and bytes become one item. */
  lemma {:induction false} CollapseFacts(fs: seq<Open>, slots: seq<seq<byte>>)
    requires GoodStack(fs) && GoodSlots(fs, slots) && |fs| >= 2 && fs[|fs| - 1].done
    ensures GoodStack(Collapse(fs)) && GoodSlots(Collapse(fs), slots[..|fs| - 1])
    ensures Layout(Collapse(fs), slots[..|fs| - 1]) == Layout(fs, slots)
    ensures |EncodeItem(Nested(fs[|fs| - 1].id, fs[|fs| - 1].items))|
         == |TagOf(fs[|fs| - 1])| + MESSAGE_LENGTH_FIELD_SIZE + |Encode(fs[|fs| - 1].items)|
  {
    hide Encode, Layout, Length, RedundantVarInt, VarInt;
    var n := |fs| - 1;
    var top := fs[n];
    var item := Nested(top.id, top.items);
    assert GoodItem(item);
    assert EncodeItem(item) == TagOf(top) + slots[n] + Encode(top.items);
    AppendTopFacts(fs[..n], slots[..n], item);
    LayoutSplit(fs, slots);
  }

  lemma {:induction false} CollapseLength(fs: seq<Open>)
    requires GoodStack(fs) && |fs| >= 2 && |Encode(fs[|fs| - 1].items)| < MAX_MESSAGE_LENGTH
    ensures GoodStack(Collapse(fs)) && Length(Collapse(fs)) == Length(fs)
    ensures !Collapse(fs)[|fs| - 2].done && Collapse(fs)[|fs| - 2].id == fs[|fs| - 2].id
    ensures Collapse(fs)[..|fs| - 2] == fs[..|fs| - 2]
  {
    hide Encode, Length, RedundantVarInt, VarInt;
    var n := |fs| - 1;
    var top, parent := fs[n], fs[n - 1];
    var item := Nested(top.id, top.items);
    assert |EncodeItem(item)| == |TagOf(top)| + SlotSize(top) + |Encode(top.items)|;
    EncodeSnoc(parent.items, item);
    LengthSplit(fs);
    LengthSplit(fs[..n]);
    LengthSplit(Collapse(fs));
    assert fs[..n][..n - 1] == fs[..n - 1] && Collapse(fs)[..n - 1] == fs[..n - 1];
    assert GoodItem(item);
  }

  /** Closing keeps the messages below and the total length, and fits when every closed message fits. */
  lemma {:induction false} FinishedFacts(fs: seq<Open>, i: nat)
    requires GoodStack(fs) && i < |fs| && Closable(fs, i)
    ensures var r := Finished(fs, i);
            GoodStack(r) && |r| == i + 1 && r[i].done && Length(r) == Length(fs)
            && r[..i] == fs[..i] && r[i].id == fs[i].id
            && (i > 0 ==> |Encode(r[i].items)| < MAX_MESSAGE_LENGTH)
    decreases |fs| - i, 1
  {
    hide Encode, Length;
    if fs[i].done {
    } else {
      CloseAboveFacts(fs, i);
      var c := CloseAbove(fs, i);
      var r := Finished(fs, i);
      LengthSplit(c);
      LengthSplit(r);
      assert c[..i] == r[..i] == fs[..i];
    }
  }

  lemma {:induction false} CloseAboveFacts(fs: seq<Open>, i: nat)
    requires GoodStack(fs) && i < |fs| && Closable(fs, i + 1) && !fs[i].done
    ensures var r := CloseAbove(fs, i);
            GoodStack(r) && !r[i].done && Length(r) == Length(fs)
            && r[..i] == fs[..i] && r[i].id == fs[i].id
            && |Encode(r[i].items)| == Since(fs, i)
    decreases |fs| - i, 0
  {
    hide Encode, Length, TagBytes, GoodItem, Collapse;
    var r := CloseAbove(fs, i);
    if |fs| == i + 1 {
    } else {
      FinishedFacts(fs, i + 1);
      var f := Finished(fs, i + 1);
      assert f[..i + 2] == f;
      CollapseLength(f);
      assert f[..i + 1] == fs[..i + 1] && f[i] == fs[..i + 1][i];
      assert r[..i] == f[..i] == f[..i + 1][..i];
      assert fs[..i + 1][..i] == fs[..i];
    }
    LengthSplit(r);
  }

  function Sealed(fs: seq<Open>): seq<Open>
    requires fs != []
  {
    fs[|fs| - 1 := fs[|fs| - 1].(done := true)]
  }

  function SealedSlots(fs: seq<Open>, slots: seq<seq<byte>>): seq<seq<byte>>
    requires fs != [] && |fs| == |slots|
  {
    var n := |fs| - 1;
    if n == 0 then slots else slots[n := RedundantVarInt(|Encode(fs[n].items)| % U32)]
  }

  /** Sealing the top message patches the log at its slot, or leaves the log alone for the root. */
  lemma {:induction false} SealFacts(fs: seq<Open>, slots: seq<seq<byte>>)
    requires GoodStack(fs) && GoodSlots(fs, slots)
    requires |fs| >= 2 ==> |Encode(fs[|fs| - 1].items)| < MAX_MESSAGE_LENGTH
    ensures GoodStack(Sealed(fs)) && GoodSlots(Sealed(fs), SealedSlots(fs, slots))
    ensures |fs| == 1 ==> Layout(Sealed(fs), SealedSlots(fs, slots)) == Layout(fs, slots)
    ensures |fs| >= 2 ==>
              var n := |fs| - 1;
              && SlotPos(fs, n) + MESSAGE_LENGTH_FIELD_SIZE <= |Layout(fs, slots)|
              && Layout(Sealed(fs), SealedSlots(fs, slots))
                 == Patch(Layout(fs, slots), SlotPos(fs, n), RedundantVarInt(|Encode(fs[n].items)| % U32))
  {
    hide Encode, Layout, Length, RedundantVarInt, TagBytes;
    var n := |fs| - 1;
    var fs', slots' := Sealed(fs), SealedSlots(fs, slots);
    assert fs'[..n] == fs[..n] && slots'[..n] == slots[..n];
    LayoutSplit(fs, slots);
    LayoutSplit(fs', slots');
    LayoutLength(fs[..n], slots[..n]);
    if n > 0 {
      var head := Layout(fs[..n], slots[..n]) + TagOf(fs[n]);
      assert Layout(fs, slots) == head + slots[n] + Encode(fs[n].items);
      assert Layout(fs', slots') == head + slots'[n] + Encode(fs[n].items);
    }
  }

  /** With only the root open, the log is the encoding of its items. */
  lemma {:induction false} RootLayout(fs: seq<Open>, slots: seq<seq<byte>>)
    requires GoodStack(fs) && GoodSlots(fs, slots) && |fs| == 1
    ensures Layout(fs, slots) == Encode(fs[0].items)
  {
    assert Layout(fs[..0], slots[..0]) == [];
  }

  lemma {:induction false} LayoutLengthGood(fs: seq<Open>, slots: seq<seq<byte>>)
    requires GoodSlots(fs, slots)
    ensures |Layout(fs, slots)| == Length(fs)
  {
    LayoutLength(fs, slots);
  }

  /** A new message on top, whatever its slot holds. */
  lemma {:induction false} BeginFacts(fs: seq<Open>, slots: seq<seq<byte>>, id: nat, slot: seq<byte>)
    requires GoodStack(fs) && GoodSlots(fs, slots) && !fs[|fs| - 1].done
    requires 1 <= id <= 0xFFFF && |slot| == MESSAGE_LENGTH_FIELD_SIZE
    ensures var fs', slots' := fs + [Open(id, [], false)], slots + [slot];
            GoodStack(fs') && GoodSlots(fs', slots') && Layout(fs', slots') == Layout(fs, slots) + TagBytes(id) + slot
  {
    hide TagBytes, Layout;
    var fs', slots' := fs + [Open(id, [], false)], slots + [slot];
    assert fs'[..|fs|] == fs && slots'[..|fs|] == slots;
    LayoutSplit(fs', slots');
  }
}
