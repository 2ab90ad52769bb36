/**
  * Whole runs of the message writer: any sequence of calls on open messages, what it means as a
  * token stream, and the driver that performs it on the real objects and reads the result back.
  */
module WriterRuns {
  import opened WireFormat
  import opened ProtoFields
  import opened MessageTree
  import opened ScatteredStream
  import opened Arena
  import opened OpenMessages
  import opened MessageWriter

  /** A call on the open message at a given depth; the root has depth 0. */
  datatype Call =
    | AppendCall(depth: nat, field: Field)
    | IntCall(depth: nat, id: nat, value: int)
    | SignedCall(depth: nat, id: nat, value: int, word: int)
    | TinyCall(depth: nat, id: nat, value: int)
    | ScatteredCall(depth: nat, id: nat, ranges: seq<seq<byte>>)
    | RawCall(depth: nat, bytes: seq<byte>)
    | BeginCall(depth: nat, id: nat)
    | FinalizeCall(depth: nat)
  {
    predicate Appends() { !BeginCall? && !FinalizeCall? }

    /** Calls that leave an open nested message as it is. */
    predicate Direct() { ScatteredCall? || RawCall? }

    /** The values the source takes: ids up to 0xFFFF, machine words, payloads that fit, well-encoded raw bytes. */
    predicate Takes() {
      match this
      case AppendCall(_, f) => f.WellFormed() && |f.payload| < MAX_MESSAGE_LENGTH
      case IntCall(_, id, v) => 1 <= id <= 0xFFFF && -0x8000_0000_0000_0000 <= v < U64
      case SignedCall(_, id, v, word) => 1 <= id <= 0xFFFF && (word == U32 || word == U64) && -word / 2 <= v < word / 2
      case TinyCall(_, id, v) => 1 <= id <= 0xFFFF && 0 <= v < 0x80
      case ScatteredCall(_, id, ranges) => 1 <= id <= 0xFFFF && |Flatten(ranges)| < MAX_MESSAGE_LENGTH
      case RawCall(_, bytes) => Consumed(Kept(bytes)) == |Kept(bytes)|
      case BeginCall(_, id) => 1 <= id <= 0xFFFF
      case FinalizeCall(_) => true
    }

    /** What an append call adds to its message. */
    function Wrote(): Item
      requires Appends() && Takes()
    {
      match this
      case AppendCall(_, f) => Leaf(f)
      case IntCall(_, id, v) => Leaf(Field(id, VarIntType, ToUnsigned(v, U64), []))
      case SignedCall(_, id, v, word) => Leaf(SignedField(id, v, word))
      case TinyCall(_, id, v) => Leaf(Field(id, VarIntType, v, []))
      case ScatteredCall(_, id, ranges) => Leaf(Field(id, LengthDelimitedType, 0, Flatten(ranges)))
      case RawCall(_, bytes) => Raw(Kept(bytes))
    }
  }

  /**
    * What the source asks of a call: an open, unsealed message, nothing nested in it for a direct
    * call, and sizes that fit.
    */
  ghost predicate Legal(fs: seq<Open>, c: Call) {
    && c.depth < |fs|
    && c.Takes()
    && (c.FinalizeCall? ==> Closable(fs, c.depth))
    && (!c.FinalizeCall? ==> !fs[c.depth].done && Closable(fs, c.depth + 1))
    && (c.Direct() ==> c.depth == |fs| - 1)
  }

  function Perform(fs: seq<Open>, c: Call): (r: seq<Open>)
    requires c.depth < |fs| && c.Takes()
    ensures |r| > c.depth
  {
    match c
    case BeginCall(d, id) => CloseAbove(fs, d) + [Open(id, [], false)]
    case FinalizeCall(d) => Finished(fs, d)
    case _ => AppendTop(CloseAbove(fs, c.depth), c.Wrote())
  }

  /** Every call is legal in the state the earlier calls leave. */
  ghost predicate LegalRun(fs: seq<Open>, calls: seq<Call>)
    decreases |calls|
  {
    calls == [] || (Legal(fs, calls[0]) && LegalRun(Perform(fs, calls[0]), calls[1..]))
  }

  ghost function Run(fs: seq<Open>, calls: seq<Call>): (r: seq<Open>)
    requires fs != [] && LegalRun(fs, calls)
    ensures r != []
    decreases |calls|
  {
    if calls == [] then fs else Run(Perform(fs, calls[0]), calls[1..])
  }

  lemma {:induction false} PerformKeepsGood(fs: seq<Open>, c: Call)
    requires GoodStack(fs) && Legal(fs, c)
    ensures GoodStack(Perform(fs, c))
  {
    hide CloseAbove, Finished, GoodStack, AppendTop, Closable, Call.Takes, Call.Wrote;
    if c.FinalizeCall? {
      FinishedFacts(fs, c.depth);
    } else if c.BeginCall? {
      BeginKeepsGood(fs, c);
    } else {
      AppendKeepsGood(fs, c);
    }
  }

  lemma {:induction false} BeginKeepsGood(fs: seq<Open>, c: Call)
    requires GoodStack(fs) && Legal(fs, c) && c.BeginCall?
    ensures GoodStack(CloseAbove(fs, c.depth) + [Open(c.id, [], false)])
  {
    hide CloseAbove, Finished, GoodStack, Closable;
    CloseAboveFacts(fs, c.depth);
    GoodPush(CloseAbove(fs, c.depth), c.id);
  }

  lemma {:induction false} AppendKeepsGood(fs: seq<Open>, c: Call)
    requires GoodStack(fs) && Legal(fs, c) && c.Appends()
    ensures GoodStack(AppendTop(CloseAbove(fs, c.depth), c.Wrote()))
  {
    hide CloseAbove, Finished, GoodStack, AppendTop, Closable, Call.Takes, Call.Wrote, GoodItem;
    CloseAboveFacts(fs, c.depth);
    WroteIsGood(c);
    GoodAppend(CloseAbove(fs, c.depth), c.Wrote());
  }

  lemma {:induction false} WroteIsGood(c: Call)
    requires c.Appends() && c.Takes()
    ensures GoodItem(c.Wrote())
  {
  }

  // ---------- Runs as token streams ----------

  datatype Token = Put(field: Field) | PutRaw(bytes: seq<byte>) | Enter(id: nat) | Leave

  /** A tree in writing order. */
  function Tokens(items: seq<Item>): seq<Token> {
    if items == [] then [] else Tokens(items[..|items| - 1]) + TokensOf(items[|items| - 1])
  }

  function TokensOf(i: Item): seq<Token> {
    match i
    case Leaf(f) => [Put(f)]
    case Raw(b) => [PutRaw(b)]
    case Nested(id, items) => [Enter(id)] + Tokens(items) + [Leave]
  }

  function Opening(o: Open): seq<Token> {
    if o.id == 0 then [] else [Enter(o.id)]
  }

  function StackTokens(fs: seq<Open>): seq<Token> {
    if fs == [] then []
    else StackTokens(fs[..|fs| - 1]) + Opening(fs[|fs| - 1]) + Tokens(fs[|fs| - 1].items)
  }

  function Leaves(n: nat): seq<Token> {
    if n == 0 then [] else Leaves(n - 1) + [Leave]
  }

  /** What one call writes when `height` messages are open: it leaves those above its own, then does its part. */
  function CallToken(height: nat, c: Call): seq<Token>
    requires c.Takes()
  {
    Leaves(if height > c.depth + 1 then height - c.depth - 1 else 0)
    + match c
      case BeginCall(_, id) => [Enter(id)]
      case FinalizeCall(_) => []
      case _ => TokensOf(c.Wrote())
  }

  function HeightAfter(c: Call): nat {
    if c.BeginCall? then c.depth + 2 else c.depth + 1
  }

  /** What the calls alone say, without building any tree. */
  function CallTokens(height: nat, calls: seq<Call>): seq<Token>
    requires forall c <- calls :: c.Takes()
    decreases |calls|
  {
    if calls == [] then [] else CallToken(height, calls[0]) + CallTokens(HeightAfter(calls[0]), calls[1..])
  }

  lemma {:induction false} AppendTokens(fs: seq<Open>, item: Item)
    requires fs != []
    ensures StackTokens(AppendTop(fs, item)) == StackTokens(fs) + TokensOf(item)
  {
    var n := |fs| - 1;
    var items := fs[n].items;
    var below := StackTokens(fs[..n]) + Opening(fs[n]);
    assert AppendTop(fs, item)[..n] == fs[..n];
    assert (items + [item])[..|items|] == items;
    assert below + (Tokens(items) + TokensOf(item)) == (below + Tokens(items)) + TokensOf(item);
  }

  lemma {:induction false} CollapseTokens(fs: seq<Open>)
    requires |fs| >= 2 && fs[|fs| - 1].id != 0
    ensures StackTokens(Collapse(fs)) == StackTokens(fs) + [Leave]
  {
    var n := |fs| - 1;
    AppendTokens(fs[..n], Nested(fs[n].id, fs[n].items));
  }

  lemma {:induction false} FinishedTokens(fs: seq<Open>, i: nat)
    requires GoodStack(fs) && i < |fs| && Closable(fs, i)
    ensures StackTokens(Finished(fs, i)) == StackTokens(fs) + Leaves(|fs| - i - 1)
    decreases |fs| - i, 1
  {
    hide Encode, Length, GoodItem;
    if !fs[i].done {
      CloseAboveTokens(fs, i);
      var c := CloseAbove(fs, i);
      assert Sealed(c)[..|c| - 1] == c[..|c| - 1];
    }
  }

  lemma {:induction false} CloseAboveTokens(fs: seq<Open>, i: nat)
    requires GoodStack(fs) && i < |fs| && Closable(fs, i + 1)
    ensures StackTokens(CloseAbove(fs, i)) == StackTokens(fs) + Leaves(|fs| - i - 1)
    decreases |fs| - i, 0
  {
    hide Encode, Closable, GoodItem, StackTokens, Collapse;
    if |fs| > i + 1 {
      FinishedFacts(fs, i + 1);
      FinishedTokens(fs, i + 1);
      var f := Finished(fs, i + 1);
      assert f[..i + 2] == f;
      CollapseTokens(f);
    }
  }

  lemma {:induction false} PerformTokens(fs: seq<Open>, c: Call)
    requires GoodStack(fs) && Legal(fs, c)
    ensures StackTokens(Perform(fs, c)) == StackTokens(fs) + CallToken(|fs|, c)
    ensures |Perform(fs, c)| == HeightAfter(c)
  {
    hide CloseAbove, Finished, GoodStack, AppendTop, Closable, Leaves, StackTokens, TokensOf, CallToken;
    hide Call.Takes, Call.Wrote;
    TokenIs(|fs|, c);
    if c.FinalizeCall? {
      FinalizeTokens(fs, c);
    } else if c.BeginCall? {
      EnterTokens(fs, c);
    } else {
      WriteTokens(fs, c);
    }
  }

  lemma {:induction false} TokenIs(height: nat, c: Call)
    requires c.depth < height && c.Takes()
    ensures CallToken(height, c) == Leaves(height - c.depth - 1) +
                                    if c.BeginCall? then [Enter(c.id)] else if c.FinalizeCall? then []
                                    else TokensOf(c.Wrote())
  {
    hide Leaves, TokensOf, Call.Takes, Call.Wrote;
    assert height == c.depth + 1 ==> Leaves(0) == Leaves(height - c.depth - 1);
  }

  lemma {:induction false} FinalizeTokens(fs: seq<Open>, c: Call)
    requires GoodStack(fs) && Legal(fs, c) && c.FinalizeCall?
    ensures var r := Finished(fs, c.depth);
            |r| == c.depth + 1 && StackTokens(r) == StackTokens(fs) + (Leaves(|fs| - c.depth - 1) + [])
  {
    hide CloseAbove, GoodStack, AppendTop, Closable, Leaves, StackTokens, TokensOf, Finished;
    FinishedFacts(fs, c.depth);
    FinishedTokens(fs, c.depth);
    var leaves := Leaves(|fs| - c.depth - 1);
    assert leaves + [] == leaves;
  }

  lemma {:induction false} EnterTokens(fs: seq<Open>, c: Call)
    requires GoodStack(fs) && Legal(fs, c) && c.BeginCall?
    ensures var r := CloseAbove(fs, c.depth) + [Open(c.id, [], false)];
            |r| == c.depth + 2 && StackTokens(r) == StackTokens(fs) + (Leaves(|fs| - c.depth - 1) + [Enter(c.id)])
  {
    hide CloseAbove, Finished, GoodStack, AppendTop, Closable, Leaves, StackTokens, TokensOf;
    var leaves := Leaves(|fs| - c.depth - 1);
    CloseAboveTokens(fs, c.depth);
    BeginHasId(c);
    BeginTokens(CloseAbove(fs, c.depth), c.id);
    assert StackTokens(fs) + leaves + [Enter(c.id)] == StackTokens(fs) + (leaves + [Enter(c.id)]);
  }

  lemma {:induction false} WriteTokens(fs: seq<Open>, c: Call)
    requires GoodStack(fs) && Legal(fs, c) && c.Appends()
    ensures var r := AppendTop(CloseAbove(fs, c.depth), c.Wrote());
            |r| == c.depth + 1 && StackTokens(r) == StackTokens(fs) + (Leaves(|fs| - c.depth - 1) + TokensOf(c.Wrote()))
  {
    hide CloseAbove, Finished, GoodStack, AppendTop, Closable, Leaves, StackTokens, TokensOf;
    hide Call.Takes, Call.Wrote;
    var item, leaves := c.Wrote(), Leaves(|fs| - c.depth - 1);
    CloseAboveTokens(fs, c.depth);
    AppendTokens(CloseAbove(fs, c.depth), item);
    AppendHeight(CloseAbove(fs, c.depth), item);
    assert StackTokens(fs) + leaves + TokensOf(item) == StackTokens(fs) + (leaves + TokensOf(item));
  }

  lemma {:induction false} BeginHasId(c: Call)
    requires c.BeginCall? && c.Takes()
    ensures c.id != 0
  {
  }

  lemma {:induction false} BeginTokens(fs: seq<Open>, id: nat)
    requires id != 0
    ensures StackTokens(fs + [Open(id, [], false)]) == StackTokens(fs) + [Enter(id)]
  {
    assert (fs + [Open(id, [], false)])[..|fs|] == fs;
  }

  lemma {:induction false} AppendHeight(fs: seq<Open>, item: Item)
    requires fs != []
    ensures |AppendTop(fs, item)| == |fs|
  {
  }

  /** The tree built by any run, written out, is exactly the calls: every field appended, in order, in its message. */
  lemma {:induction false} RunTokens(fs: seq<Open>, calls: seq<Call>)
    requires GoodStack(fs) && LegalRun(fs, calls)
    ensures forall c <- calls :: c.Takes()
    ensures GoodStack(Run(fs, calls)) && StackTokens(Run(fs, calls)) == StackTokens(fs) + CallTokens(|fs|, calls)
    decreases |calls|
  {
    hide GoodStack, Perform, StackTokens, CallToken, Closable;
    if calls != [] {
      var c, rest := calls[0], calls[1..];
      assert Legal(fs, c);
      PerformKeepsGood(fs, c);
      PerformTokens(fs, c);
      RunTokens(Perform(fs, c), rest);
    }
  }

  /** Finalizing is idempotent. */
  lemma {:induction false} FinishedTwice(fs: seq<Open>, i: nat)
    requires GoodStack(fs) && i < |fs| && Closable(fs, i)
    ensures Finished(Finished(fs, i), i) == Finished(fs, i)
  {
    FinishedFacts(fs, i);
  }

  const START := [Open(0, [], false)]

  /** One call on the real objects. */
  method Step(h: HeapBuffered, open: seq<Message>, c: Call) returns (open': seq<Message>)
    requires h.Valid() && open == h.Chain() && Legal(h.stack, c)
    modifies h, h.root, h.arena, h.arena.cells, h.writer, h.writer.delegate, h.writer.delegate.memory
    ensures h.Valid() && open' == h.Chain() && h.stack == Perform(old(h.stack), c)
    ensures fresh(h.arena.cells - old(h.arena.cells)) && fresh(h.writer.delegate.memory - old(h.writer.delegate.memory))
  {
    hide Represents, NoDuplicates, CloseAbove, AppendTop, Closable, MessageArena.Valid;
    hide MessageArena.Live, Finished;
    hide ScatteredStreamWriter.Valid, ScatteredHeapBuffer.Valid, ScatteredStreamWriter.Log;
    hide ScatteredStreamWriter.Extents;
    match c
    case FinalizeCall(d) =>
      var _ := h.Finalize(open[d], d);
      open' := open[..d + 1];
    case BeginCall(d, id) =>
      var child := h.BeginNestedMessage(open[d], d, id);
      open' := open[..d + 1] + [child];
    case AppendCall(d, f) =>
      AppendField(h, open[d], d, f);
      open' := open[..d + 1];
    case IntCall(d, id, value) =>
      h.AppendVarInt(open[d], d, id, value);
      open' := open[..d + 1];
    case SignedCall(d, id, value, word) =>
      h.AppendSignedVarInt(open[d], d, id, value, word);
      open' := open[..d + 1];
    case TinyCall(d, id, value) =>
      h.AppendTinyVarInt(open[d], d, id, value);
      open' := open[..d + 1];
    case ScatteredCall(d, id, ranges) =>
      CloseNothing(h.stack, d);
      var _ := h.AppendScatteredBytes(open[d], id, ranges);
      open' := open;
    case RawCall(d, bytes) =>
      CloseNothing(h.stack, d);
      h.AppendRawProtoBytes(open[d], bytes);
      open' := open;
  }

  /** Dispatches a field to the append call for its wire type. */
  method AppendField(h: HeapBuffered, m: Message, ghost d: nat, f: Field)
    requires h.Valid() && d < |h.stack| && m == h.Chain()[d] && !h.stack[d].done && Closable(h.stack, d + 1)
    requires f.WellFormed() && |f.payload| < MAX_MESSAGE_LENGTH
    modifies h, h.root, h.arena, h.arena.cells, h.writer, h.writer.delegate, h.writer.delegate.memory
    ensures h.Valid() && h.Chain() == old(h.Chain())[..d + 1]
    ensures h.stack == AppendTop(CloseAbove(old(h.stack), d), Leaf(f))
    ensures fresh(h.arena.cells - old(h.arena.cells)) && fresh(h.writer.delegate.memory - old(h.writer.delegate.memory))
  {
    hide Represents, NoDuplicates, CloseAbove, AppendTop, Closable, MessageArena.Valid, MessageArena.Live;
    hide ScatteredStreamWriter.Valid, ScatteredHeapBuffer.Valid, ScatteredStreamWriter.Log;
    hide ScatteredStreamWriter.Extents;
    match f.wire
    case VarIntType => h.AppendVarInt(m, d, f.id, f.value);
    case LengthDelimitedType => h.AppendBytes(m, d, f.id, f.payload);
    case Fixed32Type => h.AppendFixed(m, d, f.id, f.value, f.wire);
    case Fixed64Type => h.AppendFixed(m, d, f.id, f.value, f.wire);
  }

  lemma {:induction false} FinalTokens(fs: seq<Open>)
    requires GoodStack(fs) && Closable(fs, 0)
    ensures Tokens(Finished(fs, 0)[0].items) == StackTokens(fs) + Leaves(|fs| - 1)
  {
    hide Encode, Closable, GoodItem;
    FinishedTokens(fs, 0);
    FinishedFacts(fs, 0);
    var r := Finished(fs, 0);
    assert r[..0] == [];
  }

  lemma {:induction false} StartIsGood()
    ensures GoodStack(START) && StackTokens(START) == []
  {
    assert START[..0] == [];
  }

  /** Every kind of call can be made on a fresh writer, on all the values the source takes, and then be closed. */
  lemma {:induction false} EveryKindIsLegal(c: Call)
    requires c.depth == 0
    requires match c
             case AppendCall(_, f) => f.WellFormed() && |f.payload| < 0x0FFF_FFFF
             case IntCall(_, id, v) => 1 <= id < 0x1_0000 && -0x8000_0000_0000_0000 <= v < 0x1_0000_0000_0000_0000
             case SignedCall(_, id, v, word) =>
               1 <= id < 0x1_0000 && ((word == U32 && -0x8000_0000 <= v < 0x8000_0000) ||
                                      (word == U64 && -0x8000_0000_0000_0000 <= v < 0x8000_0000_0000_0000))
             case TinyCall(_, id, v) => 1 <= id < 0x1_0000 && 0 <= v < 128
             case ScatteredCall(_, id, ranges) => 1 <= id < 0x1_0000 && |Flatten(ranges)| < 0x0FFF_FFFF
             case RawCall(_, bytes) => |bytes| < U32 && Consumed(bytes) == |bytes|
             case BeginCall(_, id) => 1 <= id < 0x1_0000
             case FinalizeCall(_) => true
    ensures LegalRun(START, [c]) && Closable(Run(START, [c]), 0)
  {
    hide Consumed, Flatten, Encode, Call.Wrote, Since, SumOwnSizes;
    if c.RawCall? {
      KeptIsAll(c.bytes);
    }
    assert c.Takes() && Legal(START, c);
    hide Call.Takes, Legal;
    assert [c][1..] == [];
    var r := Perform(START, c);
    assert Run(START, [c]) == r;
    if c.BeginCall? {
      assert r == START + [Open(c.id, [], false)];
      FreshChild(r);
    } else {
      assert |r| == 1;
    }
  }

  lemma {:induction false} FreshChild(fs: seq<Open>)
    requires |fs| == 2 && fs[1].items == []
    ensures Closable(fs, 0)
  {
    hide Since;
    SizeAccounting(fs, 1);
    assert OwnSize(fs, 1) == 0 && SumOwnSizes(fs, 2) == 0;
  }

  /** The tree the calls build once everything still open is closed. */
  ghost function Built(calls: seq<Call>): (items: seq<Item>)
    requires LegalRun(START, calls)
  {
    Finished(Run(START, calls), 0)[0].items
  }

  /** The tree, read in writing order, is the fields and brackets the calls spell out. */
  lemma {:induction false} BuiltTokens(calls: seq<Call>)
    requires LegalRun(START, calls) && Closable(Run(START, calls), 0)
    ensures forall c <- calls :: c.Takes()
    ensures Tokens(Built(calls)) == CallTokens(1, calls) + Leaves(|Run(START, calls)| - 1)
  {
    hide StackTokens, Tokens, CallTokens, GoodStack, Finished, Leaves, Closable;
    StartIsGood();
    RunTokens(START, calls);
    FinalTokens(Run(START, calls));
  }

  /**
    * Performs a run on fresh objects with slices of the given sizes, and serialises the result. A second
    * slice is taken only if the first one is too small for all of it.
    */
  method Replay(calls: seq<Call>, initialSliceSize: nat, maximumSliceSize: nat)
    returns (bytes: seq<byte>, slices: nat)
    requires MESSAGE_LENGTH_FIELD_SIZE <= initialSliceSize <= maximumSliceSize
    requires LegalRun(START, calls) && Closable(Run(START, calls), 0)
    ensures bytes == Encode(Built(calls)) && ReadsBack(Built(calls), bytes)
    ensures 2 <= slices ==> initialSliceSize < |bytes|
    ensures slices == 0 ==> bytes == []
  {
    hide Represents, NoDuplicates, CloseAbove, AppendTop, Closable, MessageArena.Valid, MessageArena.Live, VarInt;
    hide Flatten;
    hide ScatteredStreamWriter.Valid, ScatteredHeapBuffer.Valid, ScatteredStreamWriter.Log;
    hide ScatteredStreamWriter.Extents;
    hide StackTokens, Tokens, CallTokens, Encode, ReadsBack, GoodStack, Finished, Leaves, Serialize;
    var h := new HeapBuffered(initialSliceSize, maximumSliceSize);
    var open := [h.root];
    ghost var rest := calls;
    var k := 0;
    while k < |calls|
      invariant 0 <= k <= |calls| && rest == calls[k..]
      invariant h.Valid() && open == h.Chain()
      invariant fresh(h) && fresh(h.root) && fresh(h.arena) && fresh(h.arena.cells)
      invariant fresh(h.writer) && fresh(h.writer.delegate) && fresh(h.writer.delegate.memory)
      invariant h.writer.delegate.initialSliceSize == initialSliceSize
      invariant LegalRun(h.stack, rest) && Run(h.stack, rest) == Run(START, calls)
    {
      var c := calls[k];
      open := Step(h, open, c);
      rest := rest[1..];
      k := k + 1;
    }
    bytes := h.SerializeAsArray();
    slices := |h.writer.delegate.slices|;
    h.writer.SlicesNeeded();
  }
}
