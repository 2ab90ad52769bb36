/**
  * The append-only message writer over heap memory: the root message, the arena of nested messages
  * and the chunked stream they all write to. Calls may be made on any open message; they close
  * whatever is nested in it. The writer refines the stack of open messages.
  */
module MessageWriter {
  import opened WireFormat
  import opened ProtoFields
  import opened MessageTree
  import opened ScatteredStream
  import opened Arena
  import opened OpenMessages

  // ---------- The state of the message objects, as values ----------

  datatype MessageState = MessageState(
    size: u32, sizeField: array?<byte>, sizeOffset: nat, sizeSlice: nat, nested: Message?, finalized: bool)

  ghost function StateOf(m: Message): MessageState
    reads m
  {
    MessageState(m.size, m.sizeField, m.sizeOffset, m.sizeSlice, m.nested, m.finalized)
  }

  ghost function StatesOf(chain: seq<Message>): (r: seq<MessageState>)
    reads chain
    ensures |r| == |chain| && forall i :: 0 <= i < |r| ==> r[i] == StateOf(chain[i])
  {
    seq(|chain|, i requires 0 <= i < |chain| reads chain => StateOf(chain[i]))
  }

  /** Message `i` of the chain agrees with the stack: its link, size, slot and seal. */
  ghost predicate LinkedAt(st: MessageState, next: Message?, fs: seq<Open>, es: seq<Extent>, i: nat)
    requires i < |fs|
  {
    && st.nested == next
    && st.size == OwnSize(fs, i) % U32
    && st.finalized == fs[i].done
    && (i == 0 || fs[i].done <==> st.sizeField == null)
    && (st.sizeField != null ==>
          SlotAt(es, st.sizeField, st.sizeOffset, st.sizeSlice, MESSAGE_LENGTH_FIELD_SIZE, SlotPos(fs, i)))
  }

  ghost function Next(chain: seq<Message>, i: nat): Message? {
    if i + 1 < |chain| then chain[i + 1] else null
  }

  /** The nested pointers form exactly the chain, and every message agrees with the stack. */
  ghost predicate Linked(sts: seq<MessageState>, chain: seq<Message>, fs: seq<Open>, es: seq<Extent>)
    ensures Linked(sts, chain, fs, es) ==> |sts| == |chain| == |fs|
  {
    && |sts| == |chain| == |fs|
    && forall i :: 0 <= i < |fs| ==> LinkedAt(sts[i], Next(chain, i), fs, es, i)
  }

  lemma {:induction false} SlotsStable(
    st: MessageState, next: Message?, fs: seq<Open>, es: seq<Extent>, es': seq<Extent>, i: nat)
    requires i < |fs| && LinkedAt(st, next, fs, es, i) && Extends(es, es')
    ensures LinkedAt(st, next, fs, es', i)
  {
    hide Length;
    if st.sizeField != null {
      SlotIsStable(es, es', st.sizeField, st.sizeOffset, st.sizeSlice, MESSAGE_LENGTH_FIELD_SIZE, SlotPos(fs, i));
    }
  }

  lemma {:induction false} ModAdd32(a: nat, b: nat)
    ensures (a % U32 + b) % U32 == (a + b) % U32
  {
  }

  /** Appending to the top message. */
  lemma {:induction false} LinkAppend(
    sts: seq<MessageState>, chain: seq<Message>, fs: seq<Open>, es: seq<Extent>, es': seq<Extent>, item: Item)
    requires Linked(sts, chain, fs, es) && fs != [] && Extends(es, es')
    ensures var n := |fs| - 1;
            Linked(sts[n := sts[n].(size := (sts[n].size + |EncodeItem(item)|) % U32)], chain, AppendTop(fs, item), es')
  {
    hide Encode, EncodeItem, Length, SlotAt, Extends;
    var n := |fs| - 1;
    var fs' := AppendTop(fs, item);
    var sts' := sts[n := sts[n].(size := (sts[n].size + |EncodeItem(item)|) % U32)];
    EncodeSnoc(fs[n].items, item);
    ModAdd32(OwnSize(fs, n), |EncodeItem(item)|);
    forall i | 0 <= i < |fs'| ensures LinkedAt(sts'[i], Next(chain, i), fs', es', i) {
      SlotsStable(sts[i], Next(chain, i), fs, es, es', i);
      assert fs'[..i] == fs[..i];
    }
  }

  /** A new message on top: its parent counts the preamble and the slot. */
  lemma {:induction false} LinkBegin(sts: seq<MessageState>, chain: seq<Message>, fs: seq<Open>, es: seq<Extent>,
      es': seq<Extent>,
                  id: nat, m: Message, buf: array<byte>, off: nat, k: nat)
    requires Linked(sts, chain, fs, es) && GoodStack(fs) && !fs[|fs| - 1].done && Extends(es, es')
    requires id != 0
    requires SlotAt(es', buf, off, k, MESSAGE_LENGTH_FIELD_SIZE, Length(fs) + |TagBytes(id)|)
    ensures var n := |fs| - 1;
            var add := |TagBytes(id)| + MESSAGE_LENGTH_FIELD_SIZE;
            var parent := sts[n].(size := (sts[n].size + add) % U32, nested := m);
            Linked(sts[n := parent] + [MessageState(0, buf, off, k, null, false)],
                   chain + [m], fs + [Open(id, [], false)], es')
  {
    hide Length, SlotAt, Extends, TagBytes;
    var n := |fs| - 1;
    var fs', chain' := fs + [Open(id, [], false)], chain + [m];
    var add := |TagBytes(id)| + MESSAGE_LENGTH_FIELD_SIZE;
    var parent := sts[n].(size := (sts[n].size + add) % U32, nested := m);
    var sts' := sts[n := parent] + [MessageState(0, buf, off, k, null, false)];
    ModAdd32(OwnSize(fs, n), add);
    forall i | 0 <= i < |fs'| ensures LinkedAt(sts'[i], Next(chain', i), fs', es', i) {
      assert fs'[..i] == fs[..i];
      if i <= n {
        SlotsStable(sts[i], Next(chain, i), fs, es, es', i);
      } else {
        assert fs[..i] == fs;
      }
    }
  }

  /** The top message is sealed. */
  lemma {:induction false} LinkSeal(sts: seq<MessageState>, chain: seq<Message>, fs: seq<Open>, es: seq<Extent>)
    requires Linked(sts, chain, fs, es) && GoodStack(fs)
    ensures var n := |fs| - 1;
            Linked(sts[n := sts[n].(sizeField := null, finalized := true)], chain, Sealed(fs), es)
  {
    hide Length, SlotAt, Encode, TagBytes;
    var n := |fs| - 1;
    var fs' := Sealed(fs);
    var sts' := sts[n := sts[n].(sizeField := null, finalized := true)];
    forall i | 0 <= i < |fs'| ensures LinkedAt(sts'[i], Next(chain, i), fs', es, i) {
      assert LinkedAt(sts[i], Next(chain, i), fs, es, i);
      assert fs'[..i] == fs[..i];
    }
  }

  lemma {:induction false} CloseNothing(fs: seq<Open>, i: nat)
    requires |fs| == i + 1
    ensures CloseAbove(fs, i) == fs
  {
  }

  /** The sealed top message is dropped and its size added to its parent's. */
  lemma {:induction false} LinkCollapse(sts: seq<MessageState>, chain: seq<Message>, fs: seq<Open>, es: seq<Extent>)
    requires Linked(sts, chain, fs, es) && GoodStack(fs) && |fs| >= 2
    ensures var n := |fs| - 1;
            var parent := sts[n - 1].(size := (sts[n - 1].size + sts[n].size) % U32, nested := null);
            Linked(sts[..n][n - 1 := parent], chain[..n], Collapse(fs), es)
  {
    hide Length, SlotAt, Encode, TagBytes;
    var n := |fs| - 1;
    var fs' := Collapse(fs);
    var parent := sts[n - 1].(size := (sts[n - 1].size + sts[n].size) % U32, nested := null);
    var sts', chain' := sts[..n][n - 1 := parent], chain[..n];
    assert LinkedAt(sts[n], Next(chain, n), fs, es, n);
    CollapseOwnSize(fs);
    SumMod32(OwnSize(fs, n - 1), OwnSize(fs, n));
    forall i | 0 <= i < |fs'| ensures LinkedAt(sts'[i], Next(chain', i), fs', es, i) {
      assert LinkedAt(sts[i], Next(chain, i), fs, es, i);
      assert fs'[..i] == fs[..i];
    }
  }

  lemma {:induction false} CollapseOwnSize(fs: seq<Open>)
    requires GoodStack(fs) && |fs| >= 2
    ensures var n := |fs| - 1; OwnSize(Collapse(fs), n - 1) == OwnSize(fs, n - 1) + OwnSize(fs, n)
  {
    hide Encode, RedundantVarInt, VarInt;
    var n := |fs| - 1;
    var top := fs[n];
    var item := Nested(top.id, top.items);
    EncodeSnoc(fs[n - 1].items, item);
    assert |EncodeItem(item)| == |TagOf(top)| + SlotSize(top) + |Encode(top.items)|;
  }

  lemma {:induction false} SumMod32(a: nat, b: nat)
    ensures (a % U32 + b % U32) % U32 == (a + b) % U32
  {
  }

  /** The whole correspondence between the objects, the byte log and the stack of open messages. */
  ghost predicate Represents(chain: seq<Message>, sts: seq<MessageState>, es: seq<Extent>, log: seq<byte>,
                             fs: seq<Open>, slots: seq<seq<byte>>)
    ensures Represents(chain, sts, es, log, fs, slots) ==> fs != [] && |chain| == |sts| == |fs| == |slots|
  {
    && GoodStack(fs) && GoodSlots(fs, slots)
    && Linked(sts, chain, fs, es)
    && log == Layout(fs, slots)
  }

  lemma {:induction false} StepAppend(chain: seq<Message>, sts: seq<MessageState>, es: seq<Extent>, log: seq<byte>,
                                      fs: seq<Open>, slots: seq<seq<byte>>, es': seq<Extent>, item: Item)
    requires Represents(chain, sts, es, log, fs, slots) && Extends(es, es')
    requires !fs[|fs| - 1].done && GoodItem(item)
    ensures var n := |fs| - 1;
            Represents(chain, sts[n := sts[n].(size := (sts[n].size + |EncodeItem(item)|) % U32)], es',
                       log + EncodeItem(item), AppendTop(fs, item), slots)
  {
    hide Encode, EncodeItem, Layout, Length, GoodItem, Linked, GoodStack, GoodSlots, AppendTop;
    AppendTopFacts(fs, slots, item);
    LinkAppend(sts, chain, fs, es, es', item);
  }

  lemma {:induction false} StepBegin(chain: seq<Message>, sts: seq<MessageState>, es: seq<Extent>, log: seq<byte>,
                                     fs: seq<Open>, slots: seq<seq<byte>>, es': seq<Extent>,
                                     id: nat, m: Message, buf: array<byte>, off: nat, k: nat, slot: seq<byte>)
    requires Represents(chain, sts, es, log, fs, slots) && Extends(es, es')
    requires !fs[|fs| - 1].done && 1 <= id <= 0xFFFF && |slot| == MESSAGE_LENGTH_FIELD_SIZE
    requires SlotAt(es', buf, off, k, MESSAGE_LENGTH_FIELD_SIZE, |log| + |TagBytes(id)|)
    ensures var n := |fs| - 1;
            var add := |TagBytes(id)| + MESSAGE_LENGTH_FIELD_SIZE;
            var parent := sts[n].(size := (sts[n].size + add) % U32, nested := m);
            Represents(chain + [m], sts[n := parent] + [MessageState(0, buf, off, k, null, false)], es',
                       log + TagBytes(id) + slot, fs + [Open(id, [], false)], slots + [slot])
  {
    hide Encode, Layout, Length, GoodItem, Linked, GoodStack, GoodSlots, TagBytes;
    LayoutLengthGood(fs, slots);
    BeginFacts(fs, slots, id, slot);
    LinkBegin(sts, chain, fs, es, es', id, m, buf, off, k);
  }

  ghost function SealedLog(log: seq<byte>, fs: seq<Open>): seq<byte>
    requires fs != []
  {
    var n := |fs| - 1;
    if n == 0 || SlotPos(fs, n) + MESSAGE_LENGTH_FIELD_SIZE > |log| then log
    else Patch(log, SlotPos(fs, n), RedundantVarInt(|Encode(fs[n].items)| % U32))
  }

  lemma {:induction false} StepSeal(chain: seq<Message>, sts: seq<MessageState>, es: seq<Extent>, log: seq<byte>,
                                    fs: seq<Open>, slots: seq<seq<byte>>)
    requires Represents(chain, sts, es, log, fs, slots) && !fs[|fs| - 1].done
    requires |fs| >= 2 ==> |Encode(fs[|fs| - 1].items)| < MAX_MESSAGE_LENGTH
    ensures var n := |fs| - 1;
            Represents(chain, sts[n := sts[n].(sizeField := null, finalized := true)], es, SealedLog(log, fs),
                       Sealed(fs), SealedSlots(fs, slots))
  {
    hide Encode, Layout, Length, GoodItem, Linked, GoodSlots, RedundantVarInt, TagBytes;
    SealFacts(fs, slots);
    LinkSeal(sts, chain, fs, es);
  }

  lemma {:induction false} StepCollapse(chain: seq<Message>, sts: seq<MessageState>, es: seq<Extent>, log: seq<byte>,
                                        fs: seq<Open>, slots: seq<seq<byte>>)
    requires Represents(chain, sts, es, log, fs, slots) && |fs| >= 2 && fs[|fs| - 1].done
    ensures var n := |fs| - 1;
            var parent := sts[n - 1].(size := (sts[n - 1].size + sts[n].size) % U32, nested := null);
            Represents(chain[..n], sts[..n][n - 1 := parent], es, log, Collapse(fs), slots[..n])
  {
    hide Encode, Layout, Length, GoodItem, Linked, GoodSlots, Collapse;
    LinkCollapse(sts, chain, fs, es);
    CollapseFacts(fs, slots);
  }

  function SumSizes(sts: seq<MessageState>, i: nat): nat
    decreases |sts| - i
  {
    if i >= |sts| then 0 else sts[i].size + SumSizes(sts, i + 1)
  }

  lemma {:induction false} Carry32(a: nat, b: nat, c: nat)
    requires c % U32 == b % U32 && (b < U32 ==> c == b)
    ensures (a % U32 + c) % U32 == (a + b) % U32
    ensures a + b < U32 ==> a % U32 + c == a + b
  {
    SumMod32(a, b);
    SumMod32(a % U32, c);
  }

  /** The 32-bit sizes of the messages add up to what they count, until that reaches 2^32. */
  lemma {:induction false} SumsAgree(
    sts: seq<MessageState>, chain: seq<Message>, fs: seq<Open>, es: seq<Extent>, i: nat)
    requires Linked(sts, chain, fs, es)
    ensures SumSizes(sts, i) % U32 == SumOwnSizes(fs, i) % U32
    ensures SumOwnSizes(fs, i) < U32 ==> SumSizes(sts, i) == SumOwnSizes(fs, i)
    decreases |fs| - i
  {
    hide OwnSize, SlotAt, SlotPos;
    if i < |fs| {
      assert LinkedAt(sts[i], Next(chain, i), fs, es, i);
      SumsAgree(sts, chain, fs, es, i + 1);
      Carry32(OwnSize(fs, i), SumOwnSizes(fs, i + 1), SumSizes(sts, i + 1));
    }
  }

  lemma {:induction false} RootHasNoSlot(fs: seq<Open>)
    requires GoodStack(fs)
    ensures SlotPos(fs, 0) + SlotSize(fs[0]) == 0
  {
  }

  /** What a message's fields say about its place in the stack. */
  lemma {:induction false} ReadState(chain: seq<Message>, sts: seq<MessageState>, es: seq<Extent>, log: seq<byte>,
                                     fs: seq<Open>, slots: seq<seq<byte>>, i: nat)
    requires Represents(chain, sts, es, log, fs, slots) && i < |fs|
    ensures GoodStack(fs)
    ensures sts[i].nested == Next(chain, i) && sts[i].finalized == fs[i].done
    ensures i == |fs| - 1 ==> sts[i].size == |Encode(fs[i].items)| % U32
    ensures i == 0 || fs[i].done <==> sts[i].sizeField == null
    ensures sts[i].sizeField != null ==>
              && SlotAt(es, sts[i].sizeField, sts[i].sizeOffset, sts[i].sizeSlice, MESSAGE_LENGTH_FIELD_SIZE,
                  SlotPos(fs, i))
              && (i == |fs| - 1 ==> SlotPos(fs, i) + MESSAGE_LENGTH_FIELD_SIZE <= |log|)
  {
    hide Encode, Layout, SlotAt, TagBytes, Length;
    assert LinkedAt(sts[i], Next(chain, i), fs, es, i);
    LayoutLengthGood(fs, slots);
    if i == |fs| - 1 {
      LengthSplit(fs);
    }
  }

  // ---------- The writer ----------

  /** What is written of a piece: its length is cut to 32 bits. */
  function Kept(part: seq<byte>): seq<byte> {
    part[..|part| % U32]
  }

  function KeptOfAll(parts: seq<seq<byte>>): seq<seq<byte>> {
    seq(|parts|, i requires 0 <= i < |parts| => Kept(parts[i]))
  }

  /** All of it, exactly below 2^32 bytes. */
  lemma {:induction false} KeptIsAll(part: seq<byte>)
    ensures Kept(part) == part <==> |part| < U32
    ensures Kept(part) <= part && |Kept(part)| < U32 && (|part| - |Kept(part)|) % U32 == 0
  {
    if |part| >= U32 {
      assert |Kept(part)| < U32;
    }
  }

  lemma {:induction false} SmallPiecesAreKept(parts: seq<seq<byte>>)
    requires |Flatten(parts)| < U32
    ensures KeptOfAll(parts) == parts
  {
    hide Flatten;
    forall i | 0 <= i < |parts| ensures Kept(parts[i]) == parts[i] {
      FlattenPrefix(parts, i);
      KeptIsAll(parts[i]);
    }
  }

  /** Streams the pieces of a field one after the other, adding each to the message's size. */
  method WriteToStream(writer: ScatteredStreamWriter, m: Message, parts: seq<seq<byte>>)
    requires writer.Valid()
    modifies writer, writer.delegate, writer.delegate.memory, m`size
    ensures writer.Valid() && fresh(writer.delegate.memory - old(writer.delegate.memory))
    ensures writer.Log() == old(writer.Log()) + Flatten(KeptOfAll(parts))
    ensures Extends(old(writer.Extents()), writer.Extents()) && writer.retired == old(writer.retired)
    ensures m.size == (old(m.size) + |Flatten(KeptOfAll(parts))|) % U32
  {
    hide Flatten, Extends, UsedTotal, RangesOf, ExtentsOf, ScatteredStreamWriter.Log;
    hide ScatteredStreamWriter.Extents;
    ghost var log, extents, size := writer.Log(), writer.Extents(), m.size;
    assert Flatten([]) == [] by { FlattenEmpty(); }
    ghost var kept := KeptOfAll(parts);
    assert kept[..0] == [] && log + [] == log;
    ExtendsReflexive(extents);
    for i := 0 to |parts|
      invariant writer.Valid() && fresh(writer.delegate.memory - old(writer.delegate.memory))
      invariant writer.Log() == log + Flatten(kept[..i])
      invariant Extends(extents, writer.Extents()) && writer.retired == old(writer.retired)
      invariant m.size == (size + |Flatten(kept[..i])|) % U32
    {
      ghost var step := writer.Extents();
      var length: u32 := |parts[i]| % U32;
      writer.WriteBytes(parts[i][..length]);
      ExtendsTransitive(extents, step, writer.Extents());
      ModAdd32(size + |Flatten(kept[..i])|, length);
      m.size := (m.size + length) % U32;
      FlattenSnoc(kept[..i], kept[i]);
      assert kept[..i + 1] == kept[..i] + [kept[i]];
      assert log + (Flatten(kept[..i]) + kept[i]) == (log + Flatten(kept[..i])) + kept[i];
    }
    assert kept[..|parts|] == kept;
  }

  /** What finalizing does to a message whose children have ended: fill its slot, if it has one, and seal it. */
  method SealMessage(writer: ScatteredStreamWriter, m: Message, ghost pos: nat)
    requires writer.Valid()
    requires m.sizeField != null ==>
               SlotAt(writer.Extents(), m.sizeField, m.sizeOffset, m.sizeSlice, MESSAGE_LENGTH_FIELD_SIZE, pos)
    modifies writer, writer.delegate, writer.delegate.memory, m`sizeField, m`finalized
    ensures writer.Valid() && writer.delegate.memory == old(writer.delegate.memory)
    ensures writer.retired == old(writer.retired)
    ensures writer.Extents() == old(writer.Extents())
    ensures m.sizeField == null && m.finalized
    ensures old(m.sizeField) == null ==> writer.Log() == old(writer.Log())
    ensures old(m.sizeField) != null ==>
              && pos + MESSAGE_LENGTH_FIELD_SIZE <= |old(writer.Log())|
              && writer.Log() == Patch(old(writer.Log()), pos, RedundantVarInt(m.size))
  {
    hide Encode, Layout, Length, UsedTotal, RangesOf, ExtentsOf, SlotAt, RedundantVarInt;
    hide ScatteredStreamWriter.Valid, ScatteredHeapBuffer.Valid, ScatteredStreamWriter.Log;
    hide ScatteredStreamWriter.Extents;
    if m.sizeField != null {
      writer.Backfill(m.sizeField, m.sizeOffset, m.sizeSlice, pos, m.size);
      m.sizeField := null;
    }
    m.finalized := true;
  }

  /** What ending a nested message does to its parent once the child is sealed. */
  method ReleaseChild(arena: MessageArena, m: Message, childSize: u32)
    requires arena.Valid() && arena.Live() != [] && m.nested == arena.Live()[|arena.Live()| - 1]
    modifies arena`blocks, m`size, m`nested
    ensures arena.Valid() && arena.Live() == old(arena.Live())[..|old(arena.Live())| - 1]
    ensures m.size == (old(m.size) + childSize) % U32 && m.nested == null
  {
    m.size := (m.size + childSize) % U32;
    arena.DeleteLastMessage(m.nested);
    m.nested := null;
  }

  /** The preamble of a nested message and its reserved length slot, both counted by the parent. */
  method WritePreamble(writer: ScatteredStreamWriter, m: Message, id: nat)
    returns (buf: array<byte>, off: nat, ghost k: nat)
    requires writer.Valid() && id <= 0xFFFF
    modifies writer, writer.delegate, writer.delegate.memory, m`size
    ensures writer.Valid() && fresh(writer.delegate.memory - old(writer.delegate.memory))
    ensures Extends(old(writer.Extents()), writer.Extents()) && writer.retired == old(writer.retired)
    ensures old(writer.Log()) + TagBytes(id) <= writer.Log()
    ensures |writer.Log()| == |old(writer.Log())| + |TagBytes(id)| + MESSAGE_LENGTH_FIELD_SIZE
    ensures SlotAt(writer.Extents(), buf, off, k, MESSAGE_LENGTH_FIELD_SIZE, |old(writer.Log())| + |TagBytes(id)|)
    ensures m.size == (old(m.size) + |TagBytes(id)| + MESSAGE_LENGTH_FIELD_SIZE) % U32
  {
    hide UsedTotal, RangesOf, ExtentsOf, SlotAt, Extends, Flatten, TagBytes;
    hide ScatteredStreamWriter.Valid, ScatteredHeapBuffer.Valid, ScatteredStreamWriter.Log;
    hide ScatteredStreamWriter.Extents;
    ghost var e0, s0 := writer.Extents(), m.size;
    assert Flatten([TagBytes(id)]) == TagBytes(id) by { FlattenOne(TagBytes(id)); }
    TagIsShort(id);
    SmallPiecesAreKept([TagBytes(id)]);
    WriteToStream(writer, m, [TagBytes(id)]);
    ghost var e1 := writer.Extents();
    buf, off, k := writer.ReserveBytes(MESSAGE_LENGTH_FIELD_SIZE);
    ExtendsTransitive(e0, e1, writer.Extents());
    ModAdd32(s0 + |TagBytes(id)|, MESSAGE_LENGTH_FIELD_SIZE);
    m.size := (m.size + MESSAGE_LENGTH_FIELD_SIZE) % U32;
  }

  lemma {:induction false} TagIsShort(id: nat)
    requires id <= 0xFFFF
    ensures |TagBytes(id)| <= 5
  {
    VarIntBounds(Tag(id, LengthDelimitedType));
  }

  /** A fresh message from the arena, linked to its parent and to its slot. */
  method LinkChild(arena: MessageArena, m: Message, buf: array<byte>, off: nat, ghost k: nat) returns (child: Message)
    requires arena.Valid() && (m in arena.Live() || m !in arena.cells)
    modifies arena, arena.cells, m`nested
    ensures arena.Valid() && arena.Live() == old(arena.Live()) + [child]
    ensures old(arena.cells) <= arena.cells && fresh(arena.cells - old(arena.cells))
    ensures child != m && child !in old(arena.Live()) && child in arena.cells
    ensures StateOf(child) == MessageState(0, buf, off, k, null, false)
    ensures StateOf(m) == old(StateOf(m)).(nested := child)
    ensures forall x :: x in old(arena.cells) && x != child && x != m ==> StateOf(x) == old(StateOf(x))
  {
    hide Cells, NoDuplicates, MessageArena.Live, MessageArena.Valid;
    child := arena.NewMessage();
    assert child != m;
    child.Reset();
    child.sizeField, child.sizeOffset, child.sizeSlice := buf, off, k;
    m.nested := child;
  }

  method TotalSize(ranges: seq<seq<byte>>) returns (size: nat)
    ensures size == |Flatten(ranges)|
  {
    size := 0;
    for i := 0 to |ranges|
      invariant size == |Flatten(ranges[..i])|
    {
      size := size + |ranges[i]|;
      FlattenSnoc(ranges[..i], ranges[i]);
      assert ranges[..i + 1] == ranges[..i] + [ranges[i]];
    }
    assert ranges[..|ranges|] == ranges;
  }

  lemma {:induction false} FlattenCons(s: seq<byte>, rs: seq<seq<byte>>)
    ensures Flatten([s] + rs) == s + Flatten(rs)
  {
    if rs == [] {
      assert [s] + rs == [s];
      FlattenOne(s);
    } else {
      var n := |rs| - 1;
      FlattenCons(s, rs[..n]);
      assert ([s] + rs)[..n + 1] == [s] + rs[..n];
      assert s + (Flatten(rs[..n]) + rs[n]) == (s + Flatten(rs[..n])) + rs[n];
    }
  }

  lemma {:induction false} BytesParts(f: Field, ranges: seq<seq<byte>>)
    requires f.wire.LengthDelimitedType? && f.payload == Flatten(ranges)
    ensures Flatten([VarInt(Tag(f.id, LengthDelimitedType)) + VarInt(|f.payload|)] + ranges) == Serialize(f)
    ensures |ranges| == 1 ==>
              Flatten([VarInt(Tag(f.id, LengthDelimitedType)) + VarInt(|f.payload|), ranges[0]]) == Serialize(f)
  {
    hide VarInt, Flatten;
    var t, l := VarInt(Tag(f.id, LengthDelimitedType)), VarInt(|f.payload|);
    FlattenCons(t + l, ranges);
    assert (t + l) + f.payload == t + (l + f.payload);
    if |ranges| == 1 {
      assert [t + l, ranges[0]] == [t + l] + ranges;
    }
  }

  lemma {:induction false} FlattenOne(s: seq<byte>)
    ensures Flatten([s]) == s
  {
    assert [s][..0] == [];
  }

  lemma {:induction false} Initially(m: Message, st: MessageState)
    requires st.size == 0 && st.sizeField == null && st.nested == null && !st.finalized
    ensures Represents([m], [st], [], [], [Open(0, [], false)], [[]])
  {
    var slots: seq<seq<byte>> := [[]];
    assert [Open(0, [], false)][..0] == [] && slots[..0] == [];
  }

  /** The field a signed value is written as: its zigzag number, as an unsigned varint. */
  function SignedField(id: nat, value: int, word: int): (f: Field)
    requires Word(word) && -word / 2 <= value < word / 2
    ensures f.value == ZigZagEncode(value, word) && f.value < word && ZigZagDecode(f.value, word) == value
  {
    ZigZagInverse(value, 0, word);
    Field(id, VarIntType, ZigZagEncode(value, word), [])
  }

  class HeapBuffered {
    const writer: ScatteredStreamWriter
    const arena: MessageArena
    const root: Message
    /** The stack of open messages, and what their length slots hold. */
    ghost var stack: seq<Open>
    ghost var slots: seq<seq<byte>>

    ghost function Chain(): seq<Message>
      requires arena.Valid()
      reads this, arena
    {
      [root] + arena.Live()
    }

    ghost predicate Valid()
      reads this, root, arena, arena.cells, writer, writer.delegate, writer.delegate.memory
    {
      && writer.Valid() && arena.Valid()
      && root !in arena.cells
      && Represents(Chain(), StatesOf(Chain()), writer.Extents(), writer.Log(), stack, slots)
    }

    ghost function Top(): Message
      requires arena.Valid()
      reads this, arena
    {
      Chain()[|Chain()| - 1]
    }

    /** The chain of open messages is the root and the arena's live stack, without repetition. */
    lemma {:induction false} ChainIsDistinct(k: nat)
      requires arena.Valid() && root !in arena.cells && k < |Chain()|
      ensures NoDuplicates(Chain()) && forall i :: 0 <= i < |Chain()| ==>
          Chain()[i] == root || Chain()[i] in arena.cells
      ensures Chain()[k] in arena.Live() || Chain()[k] !in arena.cells
      ensures forall i :: 0 <= i < |Chain()| && i != k ==> Chain()[i] != Chain()[k]
    {
      arena.LiveIsPrefix();
      NoDuplicatesConcat([root], arena.Live());
    }

    /** Following the nested pointers from the root visits exactly the arena's live messages, in order, and stops. */
    lemma {:induction false} PointersFormTheChain(i: nat)
      requires Valid() && i < |Chain()|
      ensures Chain()[0] == root && Chain()[1..] == arena.Live()
      ensures Chain()[i].nested == if i + 1 < |Chain()| then Chain()[i + 1] else null
    {
      hide MessageArena.Valid, MessageArena.Live, ScatteredStreamWriter.Valid, ScatteredStreamWriter.Log;
      hide ScatteredStreamWriter.Extents;
      ReadState(Chain(), StatesOf(Chain()), writer.Extents(), writer.Log(), stack, slots, i);
    }

    /**
      * Size accounting in every reachable state: the bytes of the log after the length slot of message
      * `i` are its `size` plus the sizes of its open descendants, modulo 2^32, and exactly so below
      * 2^32. The slot is where the message's own fields say it is.
      */
    lemma {:induction false} SizesAddUp(i: nat)
      requires Valid() && i < |stack|
      ensures |Chain()| == |stack|
      ensures var m, slotEnd := Chain()[i], SlotPos(stack, i) + SlotSize(stack[i]);
              && slotEnd <= |writer.Log()|
              && (m.sizeField != null ==>
                    SlotAt(writer.Extents(), m.sizeField, m.sizeOffset, m.sizeSlice, MESSAGE_LENGTH_FIELD_SIZE,
                        SlotPos(stack, i)))
              && (i == 0 ==> slotEnd == 0)
              && (|writer.Log()| - slotEnd) % U32 == SumSizes(StatesOf(Chain()), i) % U32
              && (|writer.Log()| - slotEnd < U32 ==> |writer.Log()| - slotEnd == SumSizes(StatesOf(Chain()), i))
    {
      hide Encode, Length, SlotPos, Layout, SlotAt, MessageArena.Valid, MessageArena.Live;
      hide ScatteredStreamWriter.Valid, ScatteredStreamWriter.Log, ScatteredStreamWriter.Extents;
      hide OwnSize, LinkedAt;
      hide GoodSlots;
      ReadState(Chain(), StatesOf(Chain()), writer.Extents(), writer.Log(), stack, slots, i);
      SizeAccounting(stack, i);
      SumsAgree(StatesOf(Chain()), Chain(), stack, writer.Extents(), i);
      LayoutLengthGood(stack, slots);
      if i == 0 {
        RootHasNoSlot(stack);
      }
    }

    constructor (initialSliceSize: nat, maximumSliceSize: nat)
      requires MESSAGE_LENGTH_FIELD_SIZE <= initialSliceSize <= maximumSliceSize
      ensures Valid() && fresh(this) && fresh(root) && fresh(arena) && fresh(arena.cells)
      ensures fresh(writer) && fresh(writer.delegate) && fresh(writer.delegate.memory) && stack == [Open(0, [], false)]
      ensures writer.retired == 0 && writer.delegate.initialSliceSize == initialSliceSize
    {
      hide Represents, Extends, UsedTotal, RangesOf, ExtentsOf, Cells, NoDuplicates, MessageArena.Valid;
      hide MessageArena.Live;
      hide ScatteredStreamWriter.Valid, ScatteredHeapBuffer.Valid, ScatteredStreamWriter.Log;
      hide ScatteredStreamWriter.Extents;
      var m := new Message();
      m.Reset();
      var a := new MessageArena();
      var shb := new ScatteredHeapBuffer(initialSliceSize, maximumSliceSize);
      var w := new ScatteredStreamWriter(shb);
      writer, arena, root := w, a, m;
      stack, slots := [Open(0, [], false)], [[]];
      new;
      assert Valid() by {
        Initially(root, StateOf(root));
        assert Chain() == [root] && StatesOf(Chain()) == [StateOf(root)];
      }
    }

    /** Starts over with an empty root message; the memory stays with the buffer. */
    method Reset()
      requires Valid()
      modifies this, root, arena, writer, writer.delegate
      ensures Valid() && stack == [Open(0, [], false)] && writer.Log() == []
      ensures arena.cells == old(arena.cells) && writer.delegate.memory == old(writer.delegate.memory)
      ensures writer.retired == old(writer.retired) + |old(writer.Log())|
    {
      hide Represents, Extends, UsedTotal, RangesOf, ExtentsOf, Cells, NoDuplicates, MessageArena.Valid;
      hide MessageArena.Live;
      hide ScatteredStreamWriter.Valid, ScatteredHeapBuffer.Valid, ScatteredStreamWriter.Log;
      hide ScatteredStreamWriter.Extents;
      writer.Reset();
      root.Reset();
      arena.Reset();
      stack, slots := [Open(0, [], false)], [[]];
      assert Valid() by {
        Initially(root, StateOf(root));
        assert Chain() == [root] && StatesOf(Chain()) == [StateOf(root)];
      }
    }

    /** Writes the pieces of one field to the top message. */
    method WriteItem(m: Message, ghost item: Item, parts: seq<seq<byte>>)
      requires Valid() && m == Top() && !stack[|stack| - 1].done
      requires GoodItem(item) && Flatten(KeptOfAll(parts)) == EncodeItem(item)
      modifies this, root, arena, arena.cells, writer, writer.delegate, writer.delegate.memory
      ensures Valid() && fresh(arena.cells - old(arena.cells))
      ensures fresh(writer.delegate.memory - old(writer.delegate.memory))
      ensures Chain() == old(Chain()) && stack == AppendTop(old(stack), item)
      ensures writer.retired == old(writer.retired)
    {
      hide Represents, EncodeItem, Flatten, GoodItem, UsedTotal, RangesOf, ExtentsOf, Extends;
      hide NoDuplicates, AppendTop;
      hide Cells, MessageArena.Valid, MessageArena.Live;
      hide ScatteredStreamWriter.Valid, ScatteredHeapBuffer.Valid, ScatteredStreamWriter.Log;
      hide ScatteredStreamWriter.Extents;
      ghost var chain, sts, es, log, n := Chain(), StatesOf(Chain()), writer.Extents(), writer.Log(), |stack| - 1;
      ChainIsDistinct(n);
      WriteToStream(writer, m, parts);
      StepAppend(chain, sts, es, log, stack, slots, writer.Extents(), item);
      assert StatesOf(chain) == sts[n := sts[n].(size := (sts[n].size + |EncodeItem(item)|) % U32)];
      stack := AppendTop(stack, item);
    }

    // ---------- Ending messages ----------

    /** Seals the top message; a nested one gets its length written into its slot. */
    method Seal(m: Message)
      requires Valid() && m == Top() && !stack[|stack| - 1].done
      requires |stack| >= 2 ==> |Encode(stack[|stack| - 1].items)| < MAX_MESSAGE_LENGTH
      modifies this, root, arena, arena.cells, writer, writer.delegate, writer.delegate.memory
      ensures Valid() && arena.cells == old(arena.cells) && writer.delegate.memory == old(writer.delegate.memory)
      ensures Chain() == old(Chain())
      ensures stack == Sealed(old(stack))
      ensures writer.retired == old(writer.retired)
    {
      hide Represents, Encode, Length, UsedTotal, RangesOf, ExtentsOf, Extends, SlotAt, RedundantVarInt;
      hide NoDuplicates;
      hide Sealed, SealedSlots, GoodStack, Cells, MessageArena.Valid, MessageArena.Live, Patch, SlotPos, Next, StatesOf;
      hide ScatteredStreamWriter.Valid, ScatteredHeapBuffer.Valid, ScatteredStreamWriter.Log;
      hide ScatteredStreamWriter.Extents;
      ghost var chain, sts, es, log, n := Chain(), StatesOf(Chain()), writer.Extents(), writer.Log(), |stack| - 1;
      ChainIsDistinct(n);
      ReadState(chain, sts, es, log, stack, slots, n);
      StepSeal(chain, sts, es, log, stack, slots);
      SealMessage(writer, m, SlotPos(stack, n));
      assert writer.Log() == SealedLog(log, stack);
      assert StatesOf(chain) == sts[n := sts[n].(sizeField := null, finalized := true)];
      stack, slots := Sealed(stack), SealedSlots(stack, slots);
    }

    /** Closes the message nested in `m`, and everything nested deeper. */
    method EndNestedMessage(m: Message, ghost i: nat)
      requires Valid() && i + 1 < |stack| && m == Chain()[i] && Closable(stack, i + 1)
      modifies this, root, arena, arena.cells, writer, writer.delegate, writer.delegate.memory
      ensures Valid() && arena.cells == old(arena.cells) && writer.delegate.memory == old(writer.delegate.memory)
      ensures stack == CloseAbove(old(stack), i) && Chain() == old(Chain())[..i + 1]
      ensures writer.retired == old(writer.retired)
      decreases |stack| - i, 0
    {
      hide Represents, Encode, Length, UsedTotal, RangesOf, ExtentsOf, Extends, SlotAt, NoDuplicates;
      hide Finished, GoodStack, Closable, Collapse, Cells, MessageArena.Valid, MessageArena.Live;
      hide ScatteredStreamWriter.Valid, ScatteredHeapBuffer.Valid, ScatteredStreamWriter.Log;
      hide ScatteredStreamWriter.Extents;
      ReadState(Chain(), StatesOf(Chain()), writer.Extents(), writer.Log(), stack, slots, i);
      FinishedFacts(stack, i + 1);
      ghost var done := Finished(stack, i + 1);
      var child := m.nested;
      var childSize := Finalize(child, i + 1);
      assert done[..i + 2] == done;
      DropTop(m, childSize);
    }

    /** Adds the ended child's size to its parent, the second message from the top, and frees the child. */
    method DropTop(m: Message, childSize: u32)
      requires Valid() && |stack| >= 2 && stack[|stack| - 1].done
      requires m == Chain()[|Chain()| - 2] && childSize == Top().size
      modifies this, root, arena, arena.cells, writer, writer.delegate, writer.delegate.memory
      ensures Valid() && arena.cells == old(arena.cells) && writer.delegate.memory == old(writer.delegate.memory)
      ensures stack == Collapse(old(stack)) && Chain() == old(Chain())[..|old(Chain())| - 1]
      ensures writer.retired == old(writer.retired)
    {
      hide Represents, Encode, Length, UsedTotal, RangesOf, ExtentsOf, Extends, SlotAt, NoDuplicates, SlotPos;
      hide Collapse, GoodStack, Cells, MessageArena.Valid, MessageArena.Live;
      hide ScatteredStreamWriter.Valid, ScatteredHeapBuffer.Valid, ScatteredStreamWriter.Log;
      hide ScatteredStreamWriter.Extents;
      ghost var chain, sts, es, log, n := Chain(), StatesOf(Chain()), writer.Extents(), writer.Log(), |stack| - 1;
      ChainIsDistinct(n - 1);
      ReadState(chain, sts, es, log, stack, slots, n - 1);
      StepCollapse(chain, sts, es, log, stack, slots);
      ReleaseChild(arena, m, childSize);
      assert Chain() == chain[..n];
      assert StatesOf(Chain()) ==
          sts[..n][n - 1 := sts[n - 1].(size := (sts[n - 1].size + sts[n].size) % U32, nested := null)];
      stack, slots := Collapse(stack), slots[..n];
    }

    /** Seals a message after closing what is nested in it. Calling it again changes nothing. */
    method Finalize(m: Message, ghost i: nat) returns (size: u32)
      requires Valid() && i < |stack| && m == Chain()[i] && Closable(stack, i)
      modifies this, root, arena, arena.cells, writer, writer.delegate, writer.delegate.memory
      ensures Valid() && arena.cells == old(arena.cells) && writer.delegate.memory == old(writer.delegate.memory)
      ensures stack == Finished(old(stack), i) && Chain() == old(Chain())[..i + 1] && stack[i].done
      ensures old(stack[i].done) ==>
                && stack == old(stack) && slots == old(slots) && writer.Log() == old(writer.Log())
                && Chain() == old(Chain()) && StatesOf(Chain()) == old(StatesOf(Chain()))
      ensures size == m.size
      ensures writer.retired == old(writer.retired)
      decreases |stack| - i, 1
    {
      hide SlotPos, GoodSlots, GoodItems, Linked;
      hide Represents, Encode, Length, UsedTotal, RangesOf, ExtentsOf, Extends, SlotAt, NoDuplicates;
      hide CloseAbove, Cells, MessageArena.Valid, MessageArena.Live;
      hide ScatteredStreamWriter.Valid, ScatteredHeapBuffer.Valid, ScatteredStreamWriter.Log;
      hide ScatteredStreamWriter.Extents;
      ReadState(Chain(), StatesOf(Chain()), writer.Extents(), writer.Log(), stack, slots, i);
      if m.finalized {
        assert Chain()[..i + 1] == Chain();
        return m.size;
      }
      CloseAboveFacts(stack, i);
      FinishedFacts(stack, i);
      if m.nested != null {
        EndNestedMessage(m, i);
      } else {
        CloseNothing(stack, i);
        assert Chain()[..i + 1] == Chain();
      }
      Seal(m);
      size := m.size;
    }

    // ---------- Beginning messages and appending ----------

    /** Closes whatever is nested in `m`, so that `m` is on top. Every append starts with this. */
    method CloseNested(m: Message, ghost i: nat)
      requires Valid() && i < |stack| && m == Chain()[i] && !stack[i].done && Closable(stack, i + 1)
      modifies this, root, arena, arena.cells, writer, writer.delegate, writer.delegate.memory
      ensures Valid() && arena.cells == old(arena.cells) && writer.delegate.memory == old(writer.delegate.memory)
      ensures Chain() == old(Chain())[..i + 1] && stack == CloseAbove(old(stack), i) && !stack[i].done
      ensures writer.retired == old(writer.retired)
    {
      hide Represents, Encode, Length, UsedTotal, RangesOf, ExtentsOf, Extends, SlotAt, NoDuplicates;
      hide CloseAbove, Closable, GoodStack, Cells, MessageArena.Valid, MessageArena.Live;
      hide ScatteredStreamWriter.Valid, ScatteredHeapBuffer.Valid, ScatteredStreamWriter.Log;
      hide ScatteredStreamWriter.Extents;
      ReadState(Chain(), StatesOf(Chain()), writer.Extents(), writer.Log(), stack, slots, i);
      CloseAboveFacts(stack, i);
      if m.nested != null {
        EndNestedMessage(m, i);
      } else {
        CloseNothing(stack, i);
        assert Chain()[..i + 1] == Chain();
      }
    }

    /** Opens a message nested in `m`, closing what was nested there before. */
    method BeginNestedMessage(m: Message, ghost i: nat, id: nat) returns (child: Message)
      requires Valid() && i < |stack| && m == Chain()[i] && !stack[i].done && Closable(stack, i + 1)
      requires 1 <= id <= 0xFFFF
      modifies this, root, arena, arena.cells, writer, writer.delegate, writer.delegate.memory
      ensures Valid() && fresh(arena.cells - old(arena.cells))
      ensures fresh(writer.delegate.memory - old(writer.delegate.memory))
      ensures Chain() == old(Chain())[..i + 1] + [child]
      ensures stack == CloseAbove(old(stack), i) + [Open(id, [], false)]
      ensures writer.retired == old(writer.retired)
    {
      hide Represents, NoDuplicates, MessageArena.Valid, MessageArena.Live, ScatteredStreamWriter.Valid;
      hide ScatteredHeapBuffer.Valid, ScatteredStreamWriter.Log, ScatteredStreamWriter.Extents;
      hide StatesOf, Closable, CloseAbove, GoodStack;
      CloseNested(m, i);
      ghost var slot;
      child, slot := AttachChild(m, id);
      stack, slots := stack + [Open(id, [], false)], slots + [slot];
    }

    /** Writes the preamble of a nested message and links it below the top one. */
    method AttachChild(m: Message, id: nat) returns (child: Message, ghost slot: seq<byte>)
      requires Valid() && m == Top() && !stack[|stack| - 1].done && 1 <= id <= 0xFFFF
      modifies arena, root, arena.cells, writer, writer.delegate, writer.delegate.memory
      ensures writer.Valid() && arena.Valid() && root !in arena.cells
      ensures fresh(arena.cells - old(arena.cells)) && fresh(writer.delegate.memory - old(writer.delegate.memory))
      ensures writer.retired == old(writer.retired)
      ensures Chain() == old(Chain()) + [child]
      ensures Represents(Chain(), StatesOf(Chain()), writer.Extents(), writer.Log(),
                         stack + [Open(id, [], false)], slots + [slot])
    {
      hide Represents, Extends, SlotAt, TagBytes, NoDuplicates, MessageArena.Valid, MessageArena.Live;
      hide ScatteredStreamWriter.Valid, ScatteredHeapBuffer.Valid, ScatteredStreamWriter.Log;
      hide ScatteredStreamWriter.Extents;
      ghost var chain, sts, es, log, n := Chain(), StatesOf(Chain()), writer.Extents(), writer.Log(), |stack| - 1;
      ChainIsDistinct(n);
      var buf, off;
      ghost var k;
      buf, off, k := WritePreamble(writer, m, id);
      slot := writer.Log()[|log| + |TagBytes(id)|..];
      assert writer.Log() == log + TagBytes(id) + slot;
      ghost var size := (sts[n].size + |TagBytes(id)| + MESSAGE_LENGTH_FIELD_SIZE) % U32;
      assert StatesOf(chain) == sts[n := sts[n].(size := size)];
      child := LinkToTop(m, buf, off, k);
      StepBegin(chain, sts, es, log, stack, slots, writer.Extents(), id, child, buf, off, k, slot);
      assert sts[n := sts[n].(size := size)][n := sts[n].(size := size, nested := child)] ==
          sts[n := sts[n].(size := size, nested := child)];
    }

    method LinkToTop(m: Message, buf: array<byte>, off: nat, ghost k: nat) returns (child: Message)
      requires arena.Valid() && root !in arena.cells && m == Top()
      modifies arena, arena.cells, m`nested
      ensures arena.Valid() && root !in arena.cells
      ensures old(arena.cells) <= arena.cells && fresh(arena.cells - old(arena.cells))
      ensures Chain() == old(Chain()) + [child]
      ensures var sts, n := old(StatesOf(Chain())), |old(Chain())| - 1;
              StatesOf(Chain()) == sts[n := sts[n].(nested := child)] + [MessageState(0, buf, off, k, null, false)]
    {
      hide Cells, NoDuplicates, MessageArena.Valid, MessageArena.Live;
      ghost var chain, sts, n := Chain(), StatesOf(Chain()), |Chain()| - 1;
      ChainIsDistinct(n);
      child := LinkChild(arena, m, buf, off, k);
      assert Chain() == chain + [child];
      assert forall i :: 0 <= i < n ==> StateOf(chain[i]) == sts[i];
    }

    /** The common shape of all appends: close what is nested in `m`, then write the field. */
    method Append(m: Message, ghost i: nat, ghost item: Item, parts: seq<seq<byte>>)
      requires Valid() && i < |stack| && m == Chain()[i] && !stack[i].done && Closable(stack, i + 1)
      requires GoodItem(item) && Flatten(KeptOfAll(parts)) == EncodeItem(item)
      modifies this, root, arena, arena.cells, writer, writer.delegate, writer.delegate.memory
      ensures Valid() && fresh(arena.cells - old(arena.cells))
      ensures fresh(writer.delegate.memory - old(writer.delegate.memory))
      ensures Chain() == old(Chain())[..i + 1] && stack == AppendTop(CloseAbove(old(stack), i), item)
      ensures writer.retired == old(writer.retired)
    {
      hide Represents, NoDuplicates, EncodeItem, Flatten, GoodItem, CloseAbove, AppendTop, MessageArena.Valid;
      hide MessageArena.Live;
      hide ScatteredStreamWriter.Valid, ScatteredHeapBuffer.Valid, ScatteredStreamWriter.Log;
      hide ScatteredStreamWriter.Extents;
      CloseNested(m, i);
      WriteItem(m, item, parts);
    }

    /** uint64, uint32, int64, int32, bool, enum: signed values are sign-extended to 64 bits first. */
    method AppendVarInt(m: Message, ghost i: nat, id: nat, value: int)
      requires Valid() && i < |stack| && m == Chain()[i] && !stack[i].done && Closable(stack, i + 1)
      requires 1 <= id <= 0xFFFF && -0x8000_0000_0000_0000 <= value < U64
      modifies this, root, arena, arena.cells, writer, writer.delegate, writer.delegate.memory
      ensures Valid() && fresh(arena.cells - old(arena.cells))
      ensures fresh(writer.delegate.memory - old(writer.delegate.memory))
      ensures Chain() == old(Chain())[..i + 1]
      ensures stack == AppendTop(CloseAbove(old(stack), i), Leaf(Field(id, VarIntType, ToUnsigned(value, U64), [])))
      ensures writer.retired == old(writer.retired)
    {
      hide Represents, NoDuplicates, CloseAbove, AppendTop, Closable, MessageArena.Valid;
      hide MessageArena.Live, VarInt;
      hide Flatten;
      hide ScatteredStreamWriter.Valid, ScatteredHeapBuffer.Valid, ScatteredStreamWriter.Log;
      hide ScatteredStreamWriter.Extents;
      var f := Field(id, VarIntType, ToUnsigned(value, U64), []);
      FlattenOne(Serialize(f));
      SerializedSize(f);
      SmallPiecesAreKept([Serialize(f)]);
      Append(m, i, Leaf(f), [VarInt(Tag(id, VarIntType)) + VarInt(ToUnsigned(value, U64))]);
    }

    /** sint64 (`word` = 2^64) and sint32 (`word` = 2^32). */
    method AppendSignedVarInt(m: Message, ghost i: nat, id: nat, value: int, word: int)
      requires Valid() && i < |stack| && m == Chain()[i] && !stack[i].done && Closable(stack, i + 1)
      requires 1 <= id <= 0xFFFF && Word(word) && -word / 2 <= value < word / 2
      modifies this, root, arena, arena.cells, writer, writer.delegate, writer.delegate.memory
      ensures Valid() && fresh(arena.cells - old(arena.cells))
      ensures fresh(writer.delegate.memory - old(writer.delegate.memory))
      ensures Chain() == old(Chain())[..i + 1]
      ensures stack == AppendTop(CloseAbove(old(stack), i), Leaf(SignedField(id, value, word)))
      ensures writer.retired == old(writer.retired)
    {
      hide Represents, NoDuplicates, CloseAbove, AppendTop, Closable, MessageArena.Valid;
      hide MessageArena.Live, VarInt;
      hide Flatten, ZigZagEncode;
      hide ScatteredStreamWriter.Valid, ScatteredHeapBuffer.Valid, ScatteredStreamWriter.Log;
      hide ScatteredStreamWriter.Extents;
      ghost var f := SignedField(id, value, word);
      AppendVarInt(m, i, id, ZigZagEncode(value, word));
    }

    /** bool and small enums: the value is one byte. */
    method AppendTinyVarInt(m: Message, ghost i: nat, id: nat, value: int)
      requires Valid() && i < |stack| && m == Chain()[i] && !stack[i].done && Closable(stack, i + 1)
      requires 1 <= id <= 0xFFFF && 0 <= value < 0x80
      modifies this, root, arena, arena.cells, writer, writer.delegate, writer.delegate.memory
      ensures Valid() && fresh(arena.cells - old(arena.cells))
      ensures fresh(writer.delegate.memory - old(writer.delegate.memory))
      ensures Chain() == old(Chain())[..i + 1]
      ensures stack == AppendTop(CloseAbove(old(stack), i), Leaf(Field(id, VarIntType, value, [])))
      ensures writer.retired == old(writer.retired)
    {
      hide Represents, NoDuplicates, CloseAbove, AppendTop, Closable, MessageArena.Valid;
      hide MessageArena.Live, VarInt;
      hide Flatten;
      hide ScatteredStreamWriter.Valid, ScatteredHeapBuffer.Valid, ScatteredStreamWriter.Log;
      hide ScatteredStreamWriter.Extents;
      var f := Field(id, VarIntType, value, []);
      VarIntStep(value);
      FlattenOne(Serialize(f));
      SerializedSize(f);
      SmallPiecesAreKept([Serialize(f)]);
      Append(m, i, Leaf(f), [VarInt(Tag(id, VarIntType)) + [value]]);
    }

    /** fixed64, sfixed64, double (8 bytes), fixed32, sfixed32, float (4 bytes). */
    method AppendFixed(m: Message, ghost i: nat, id: nat, value: u64, wire: WireType)
      requires Valid() && i < |stack| && m == Chain()[i] && !stack[i].done && Closable(stack, i + 1)
      requires 1 <= id <= 0xFFFF && (wire.Fixed64Type? || (wire.Fixed32Type? && value < U32))
      modifies this, root, arena, arena.cells, writer, writer.delegate, writer.delegate.memory
      ensures Valid() && fresh(arena.cells - old(arena.cells))
      ensures fresh(writer.delegate.memory - old(writer.delegate.memory))
      ensures Chain() == old(Chain())[..i + 1]
      ensures stack == AppendTop(CloseAbove(old(stack), i), Leaf(Field(id, wire, value, [])))
      ensures writer.retired == old(writer.retired)
    {
      hide Represents, NoDuplicates, CloseAbove, AppendTop, Closable, MessageArena.Valid;
      hide MessageArena.Live, VarInt;
      hide Flatten, Fixed;
      hide ScatteredStreamWriter.Valid, ScatteredHeapBuffer.Valid, ScatteredStreamWriter.Log;
      hide ScatteredStreamWriter.Extents;
      var f := Field(id, wire, value, []);
      FlattenOne(Serialize(f));
      SerializedSize(f);
      SmallPiecesAreKept([Serialize(f)]);
      Append(m, i, Leaf(f), [VarInt(Tag(id, wire)) + Fixed(value, if wire.Fixed64Type? then 8 else 4)]);
    }

    /** string, bytes and packed fields: preamble and length first, then the payload. */
    method AppendBytes(m: Message, ghost i: nat, id: nat, src: seq<byte>)
      requires Valid() && i < |stack| && m == Chain()[i] && !stack[i].done && Closable(stack, i + 1)
      requires 1 <= id <= 0xFFFF && |src| < MAX_MESSAGE_LENGTH
      modifies this, root, arena, arena.cells, writer, writer.delegate, writer.delegate.memory
      ensures Valid() && fresh(arena.cells - old(arena.cells))
      ensures fresh(writer.delegate.memory - old(writer.delegate.memory))
      ensures Chain() == old(Chain())[..i + 1]
      ensures stack == AppendTop(CloseAbove(old(stack), i), Leaf(Field(id, LengthDelimitedType, 0, src)))
      ensures writer.retired == old(writer.retired)
    {
      hide Represents, NoDuplicates, CloseAbove, AppendTop, Closable, MessageArena.Valid;
      hide MessageArena.Live, VarInt;
      hide Flatten, Serialize;
      hide ScatteredStreamWriter.Valid, ScatteredHeapBuffer.Valid, ScatteredStreamWriter.Log;
      hide ScatteredStreamWriter.Extents;
      var f := Field(id, LengthDelimitedType, 0, src);
      var preamble := VarInt(Tag(id, LengthDelimitedType)) + VarInt(|src|);
      FlattenOne(src);
      BytesParts(f, [src]);
      SerializedSize(f);
      SmallPiecesAreKept([preamble, src]);
      Append(m, i, Leaf(f), [preamble, src]);
    }

    /** Bytes gathered from several ranges. It does not close a nested message, so none may be open. */
    method AppendScatteredBytes(m: Message, id: nat, ranges: seq<seq<byte>>) returns (size: nat)
      requires Valid() && m == Top() && !stack[|stack| - 1].done
      requires 1 <= id <= 0xFFFF && |Flatten(ranges)| < MAX_MESSAGE_LENGTH
      modifies this, root, arena, arena.cells, writer, writer.delegate, writer.delegate.memory
      ensures Valid() && fresh(arena.cells - old(arena.cells))
      ensures fresh(writer.delegate.memory - old(writer.delegate.memory))
      ensures Chain() == old(Chain()) && size == |Flatten(ranges)|
      ensures stack == AppendTop(old(stack), Leaf(Field(id, LengthDelimitedType, 0, Flatten(ranges))))
      ensures writer.retired == old(writer.retired)
    {
      hide Represents, NoDuplicates, CloseAbove, AppendTop, Closable, MessageArena.Valid;
      hide MessageArena.Live, VarInt;
      hide Flatten, Serialize;
      hide ScatteredStreamWriter.Valid, ScatteredHeapBuffer.Valid, ScatteredStreamWriter.Log;
      hide ScatteredStreamWriter.Extents;
      size := TotalSize(ranges);
      var f := Field(id, LengthDelimitedType, 0, Flatten(ranges));
      var preamble := VarInt(Tag(id, LengthDelimitedType)) + VarInt(size);
      BytesParts(f, ranges);
      SerializedSize(f);
      SmallPiecesAreKept([preamble] + ranges);
      WriteItem(m, Leaf(f), [preamble] + ranges);
    }

    /**
      * Pre-encoded fields. It does not close a nested message, so none may be open. What is asked to be
      * well encoded is what gets written, which is all of it below 2^32 bytes.
      */
    method AppendRawProtoBytes(m: Message, data: seq<byte>)
      requires Valid() && m == Top() && !stack[|stack| - 1].done
      requires Consumed(Kept(data)) == |Kept(data)|
      modifies this, root, arena, arena.cells, writer, writer.delegate, writer.delegate.memory
      ensures Valid() && fresh(arena.cells - old(arena.cells))
      ensures fresh(writer.delegate.memory - old(writer.delegate.memory))
      ensures Chain() == old(Chain()) && stack == AppendTop(old(stack), Raw(Kept(data)))
      ensures writer.retired == old(writer.retired)
    {
      FlattenOne(Kept(data));
      assert KeptOfAll([data]) == [Kept(data)];
      WriteItem(m, Raw(Kept(data)), [data]);
    }

    // ---------- The result ----------

    /** Finalizes the root and joins the slices: exactly the encoding of everything appended, which reads back. */
    method SerializeAsArray() returns (bytes: seq<byte>)
      requires Valid() && Closable(stack, 0)
      modifies this, root, arena, arena.cells, writer, writer.delegate, writer.delegate.memory
      ensures Valid() && stack == Finished(old(stack), 0)
      ensures bytes == Encode(stack[0].items) && ReadsBack(stack[0].items, bytes) && bytes == writer.Log()
    {
      hide Encode, EncodeItem, NoDuplicates, CloseAbove, Finished, Layout, Linked, GoodSlots, ReadsBack;
      hide Decode, Consumed, FieldsOf, MessageArena.Valid, MessageArena.Live, Closable, SlotPos, LinkedAt;
      hide ScatteredStreamWriter.Valid, ScatteredHeapBuffer.Valid, ScatteredStreamWriter.Log;
      hide ScatteredStreamWriter.Extents;
      FinishedFacts(stack, 0);
      var _ := Finalize(root, 0);
      bytes := writer.StitchSlices();
      RootLayout(stack, slots);
      TreeRoundTrip(stack[0].items);
    }
  }
}
