/**
  * A reader that knows only the bytes of a saved buffer and the field numbers of the trace schema.
  * It sees what the packets were meant to say.
  */
module PacketReader {
  import opened WireFormat
  import opened ProtoFields
  import opened MessageTree
  import opened RecorderPackets
  import opened Recorder
  import File = RecorderFile

  // ---------- Fields by number, the last one wins ----------

  datatype Found = Missing | Found(field: Field)

  function Last(fs: seq<Field>, id: nat): Found {
    if fs == [] then Missing
    else if fs[|fs| - 1].id == id then Found(fs[|fs| - 1])
    else Last(fs[..|fs| - 1], id)
  }

  function Has(fs: seq<Field>, id: nat): bool { Last(fs, id).Found? }

  function Number(fs: seq<Field>, id: nat): u64 {
    if Has(fs, id) then Last(fs, id).field.value else 0
  }

  function Text(fs: seq<Field>, id: nat): seq<byte> {
    if Has(fs, id) then Last(fs, id).field.payload else []
  }

  /** The fields of a nested message. */
  function Inside(fs: seq<Field>, id: nat): seq<Field> {
    Decode(Text(fs, id))
  }

  // ---------- The trace schema ----------

  const TRACE_PACKET := 1
  const TIMESTAMP := 8
  const SEQUENCE_ID := 10
  const TRACK_EVENT := 11
  const INTERNED_DATA := 12
  const SEQUENCE_FLAGS := 13
  const TRACK_DESCRIPTOR := 60
  const INCREMENTAL_STATE_CLEARED := 1
  const NEEDS_INCREMENTAL_STATE := 2
  const EVENT_CATEGORIES := 1
  const EVENT_NAMES := 2
  const IID := 1
  const NAME := 2
  const UUID := 1
  const COUNTER := 8
  const CATEGORY_IIDS := 3
  const TYPE := 9
  const NAME_IID := 10
  const TRACK_UUID := 11
  const COUNTER_VALUE := 30
  const TYPE_SLICE_BEGIN := 1
  const TYPE_SLICE_END := 2
  const TYPE_COUNTER := 4

  /** The incremental state of one packet sequence. */
  datatype State = State(categories: map<nat, seq<byte>>, names: map<nat, seq<byte>>)

  function NoEntries(): State { State(map[], map[]) }

  /** Tracks belong to the whole trace; a sequence has a state once it has been cleared. */
  datatype TraceReader = TraceReader(states: map<nat, State>, tracks: map<nat, seq<byte>>, events: seq<Event>) {
    function Of(sequence: nat): State {
      if sequence in states then states[sequence] else NoEntries()
    }
  }

  function NothingYet(): TraceReader { TraceReader(map[], map[], []) }

  predicate FlagSet(flags: u64, flag: nat)
    requires flag > 0
  {
    flags / flag % 2 == 1
  }

  /**
    * A packet as its fields tell it: it may start its sequence anew, and it is passed over if it needs
    * a state its sequence does not have.
    */
  function ReadFields(r: TraceReader, fs: seq<Field>): TraceReader {
    var sequence, flags := Number(fs, SEQUENCE_ID), Number(fs, SEQUENCE_FLAGS);
    var s := if FlagSet(flags, INCREMENTAL_STATE_CLEARED) then r.(states := r.states[sequence := NoEntries()]) else r;
    if FlagSet(flags, NEEDS_INCREMENTAL_STATE) && sequence !in s.states then s else ReadBody(s, sequence, fs)
  }

  function ReadBody(r: TraceReader, sequence: nat, fs: seq<Field>): TraceReader {
    if Has(fs, INTERNED_DATA) then
      r.(states := r.states[sequence := ReadInterned(r.Of(sequence), Inside(fs, INTERNED_DATA))])
    else if Has(fs, TRACK_DESCRIPTOR) then
      var d := Inside(fs, TRACK_DESCRIPTOR);
      r.(tracks := r.tracks[Number(d, UUID) := Text(d, NAME)])
    else if Has(fs, TRACK_EVENT) then
      r.(events := r.events + ReadEvent(r.Of(sequence), r.tracks, Number(fs, TIMESTAMP), Inside(fs, TRACK_EVENT)))
    else r
  }

  /** The entries of interned data, one after the other; id 0 is no id. */
  function ReadInterned(s: State, d: seq<Field>): State {
    if d == [] then s
    else
      var before, e := ReadInterned(s, d[..|d| - 1]), Decode(d[|d| - 1].payload);
      if Number(e, IID) == 0 then before
      else if d[|d| - 1].id == EVENT_CATEGORIES then
        before.(categories := before.categories[Number(e, IID) := Text(e, NAME)])
      else if d[|d| - 1].id == EVENT_NAMES then before.(names := before.names[Number(e, IID) := Text(e, NAME)])
      else before
  }

  function Entry(table: map<nat, seq<byte>>, iid: nat): Name {
    if iid == 0 then Unknown else LookUp(table, iid)
  }

  function ReadEvent(s: State, tracks: map<nat, seq<byte>>, ts: u64, e: seq<Field>): seq<Event> {
    var track := LookUp(tracks, Number(e, TRACK_UUID));
    var category := Entry(s.categories, Number(e, CATEGORY_IIDS));
    var name := Entry(s.names, Number(e, NAME_IID));
    if Number(e, TYPE) == TYPE_SLICE_BEGIN then [Opened(ts, track, category, name)]
    else if Number(e, TYPE) == TYPE_SLICE_END then [Closed(ts, track, category, name)]
    else if Number(e, TYPE) == TYPE_COUNTER then [Counted(ts, track, ToSigned(Number(e, COUNTER_VALUE), U64))]
    else []
  }

  /** The packets of a trace, one after the other. */
  function ReadTrace(fs: seq<Field>): TraceReader {
    if fs == [] then NothingYet()
    else
      var r := ReadTrace(fs[..|fs| - 1]);
      if fs[|fs| - 1].id == TRACE_PACKET then ReadFields(r, Decode(fs[|fs| - 1].payload)) else r
  }

  function ReadBytes(bytes: seq<byte>): TraceReader {
    ReadTrace(Decode(bytes))
  }

  // ---------- Looking fields up ----------

  lemma {:induction false} LastIs(fs: seq<Field>, id: nat, k: nat)
    requires k < |fs| && fs[k].id == id && forall j :: k < j < |fs| ==> fs[j].id != id
    ensures Last(fs, id) == Found(fs[k])
  {
    if k < |fs| - 1 {
      LastIs(fs[..|fs| - 1], id, k);
    }
  }

  lemma {:induction false} LastIsMissing(fs: seq<Field>, id: nat)
    requires forall j :: 0 <= j < |fs| ==> fs[j].id != id
    ensures Last(fs, id) == Missing
  {
    if fs != [] {
      LastIsMissing(fs[..|fs| - 1], id);
    }
  }

  /** The one field an item shows as. */
  function Shown(i: Item): Field {
    match i
    case Leaf(f) => f
    case Nested(id, items) => Field(id, LengthDelimitedType, 0, Encode(items))
    case Raw(b) => INVALID_FIELD
  }

  lemma {:induction false} FieldsShown(items: seq<Item>)
    requires forall k :: 0 <= k < |items| ==> !items[k].Raw?
    ensures |FieldsOf(items)| == |items| && forall k :: 0 <= k < |items| ==> FieldsOf(items)[k] == Shown(items[k])
  {
    hide Encode;
    if items != [] {
      FieldsShown(items[1..]);
    }
  }

  lemma {:induction false} Decoded(items: seq<Item>)
    requires GoodItems(items) && forall k :: 0 <= k < |items| ==> !items[k].Raw?
    ensures var fs := Decode(Encode(items));
            |fs| == |items| && forall k :: 0 <= k < |items| ==> fs[k] == Shown(items[k])
  {
    hide Decode, Encode, GoodItems;
    DecodeEncode(items);
    FieldsShown(items);
  }

  // ---------- Nested messages ----------

  /** A table entry or a track reads back as its id and its text. */
  lemma {:induction false} EntryReads(items: seq<Item>, id: u64, text: seq<byte>)
    requires |items| >= 2 && items[0] == VarLeaf(1, id) && items[1] == TextLeaf(2, text) && |text| < 0x4000
    requires GoodItems(items) && (items[2..] == [] || items[2..] == [Nested(8, [])])
    ensures var e := Decode(Encode(items)); Number(e, 1) == id && Text(e, 2) == text
  {
    hide Decode, Encode, Last, GoodItems;
    assert |items| == 3 ==> items[2] == items[2..][0];
    Decoded(items);
    var e := Decode(Encode(items));
    LastIs(e, 1, 0);
    LastIs(e, 2, 1);
  }

  lemma {:induction false} NestedIsGood(items: seq<Item>, k: nat)
    requires GoodItems(items) && k < |items| && items[k].Nested?
    ensures GoodItems(items[k].items)
  {
    hide Encode;
    assert GoodItem(items[k]);
  }

  // ---------- What every packet carries ----------

  lemma {:induction false} HeaderReads(p: Packet, flags: u64, rest: seq<Item>)
    requires ShortNames(p) && Items(p) == Header(flags) + rest
    requires forall i <- rest :: !i.Raw? && Shown(i).id != SEQUENCE_ID && Shown(i).id != SEQUENCE_FLAGS
    ensures var fs := Decode(Encode(Items(p))); Number(fs, SEQUENCE_ID) == 1 && Number(fs, SEQUENCE_FLAGS) == flags
  {
    hide Decode, Encode, Last, GoodItems, ShortNames, Items;
    ItemsAreGood(p);
    var items := Items(p);
    assert forall k :: 2 <= k < |items| ==> items[k] == rest[k - 2];
    assert items[0] == VarLeaf(10, 1) && items[1] == VarLeaf(13, flags);
    Decoded(items);
    var fs := Decode(Encode(items));
    LastIs(fs, SEQUENCE_ID, 0);
    LastIs(fs, SEQUENCE_FLAGS, 1);
  }

  /**
    * Every packet but the definition of a counter track is on sequence 1. The start clears the state of
    * the sequence, the others need it.
    */
  lemma {:induction false} SequenceOfPacket(p: Packet)
    requires ShortNames(p)
    ensures var fs := Decode(Encode(Items(p)));
            if p.DefineCounterTrack? then !Has(fs, SEQUENCE_ID) && !Has(fs, SEQUENCE_FLAGS)
            else
              && Has(fs, SEQUENCE_ID) && Number(fs, SEQUENCE_ID) == 1
              && Has(fs, SEQUENCE_FLAGS)
              && Number(fs, SEQUENCE_FLAGS) ==
                 if p == SequenceStart then INCREMENTAL_STATE_CLEARED else NEEDS_INCREMENTAL_STATE
  {
    hide Decode, Encode, Last, GoodItems, Decimal;
    if p.DefineCounterTrack? {
      ItemsAreGood(p);
      Decoded(Items(p));
      LastIsMissing(Decode(Encode(Items(p))), SEQUENCE_ID);
      LastIsMissing(Decode(Encode(Items(p))), SEQUENCE_FLAGS);
    } else {
      var flags := if p == SequenceStart then 1 else 2;
      HeaderReads(p, flags, Items(p)[2..]);
    }
  }

  /** Counter tracks are told from thread tracks by the field that is set for them alone. */
  lemma {:induction false} CounterTracksAreMarked(p: Packet)
    requires ShortNames(p) && (p.DefineThreadTrack? || p.DefineCounterTrack?)
    ensures Has(Inside(Decode(Encode(Items(p))), TRACK_DESCRIPTOR), COUNTER) <==> p.DefineCounterTrack?
  {
    hide Decode, Encode, Last, GoodItems, Decimal;
    ItemsAreGood(p);
    var k := if p.DefineThreadTrack? then 2 else 0;
    NestedIsGood(Items(p), k);
    var fs, d := Decode(Encode(Items(p))), Decode(Encode(Items(p)[k].items));
    Decoded(Items(p));
    LastIs(fs, TRACK_DESCRIPTOR, k);
    Decoded(Items(p)[k].items);
    if p.DefineThreadTrack? {
      LastIsMissing(d, COUNTER);
    } else {
      LastIs(d, COUNTER, 2);
    }
  }

  // ---------- The reader sees the packets ----------

  /** The reader of the bytes knows what a reader of the packets knows. */
  ghost predicate Sees(r: TraceReader, q: Reader) {
    && r.tracks == q.tracks && r.events == q.events
    && r.states == map[1 := State(q.categories, q.names)]
    && 0 !in q.categories && 0 !in q.names
  }

  /** An entry has an id other than 0. */
  predicate Labelled(p: Packet) {
    p.DefineCategory? || p.DefineEventName? ==> p.iid != 0
  }

  lemma {:induction false} OneEntry(s: State, d: seq<Field>, f: Field)
    requires d == [f]
    ensures ReadInterned(s, d) ==
            var e := Decode(f.payload);
            if Number(e, IID) == 0 then s
            else if f.id == EVENT_CATEGORIES then s.(categories := s.categories[Number(e, IID) := Text(e, NAME)])
            else if f.id == EVENT_NAMES then s.(names := s.names[Number(e, IID) := Text(e, NAME)])
            else s
  {
    hide Decode, Last;
    assert d[..0] == [];
  }

  lemma {:induction false} InternedReads(r: TraceReader, p: Packet)
    requires ShortNames(p) && Labelled(p) && (p.DefineCategory? || p.DefineEventName?)
    ensures var s := r.Of(1);
            ReadBody(r, 1, Decode(Encode(Items(p)))) ==
            r.(states := r.states[1 := if p.DefineCategory? then s.(categories := s.categories[p.iid := p.text])
                                       else s.(names := s.names[p.iid := p.text])])
  {
    hide Decode, Encode, Last, GoodItems;
    ItemsAreGood(p);
    var entry := [VarLeaf(1, p.iid), TextLeaf(2, p.text)];
    var space := if p.DefineCategory? then 1 else 2;
    var data := [Nested(space, entry)];
    assert Items(p) == Header(2) + [Nested(12, data)];
    NestedIsGood(Items(p), 2);
    NestedIsGood(data, 0);
    var fs, d := Decode(Encode(Items(p))), Decode(Encode(data));
    Decoded(Items(p));
    LastIs(fs, INTERNED_DATA, 2);
    Decoded(data);
    EntryReads(entry, p.iid, p.text);
    assert d == [Field(space, LengthDelimitedType, 0, Encode(entry))];
    OneEntry(r.Of(1), d, d[0]);
  }

  lemma {:induction false} ItemsAreGood(p: Packet)
    requires ShortNames(p)
    ensures GoodItems(Items(p))
  {
    hide Encode, Items, ShortNames;
    PacketFits(p);
  }

  lemma {:induction false} TrackReads(r: TraceReader, p: Packet, sequence: nat)
    requires ShortNames(p) && (p.DefineThreadTrack? || p.DefineCounterTrack?)
    ensures ReadBody(r, sequence, Decode(Encode(Items(p)))) ==
            if p.DefineThreadTrack? then r.(tracks := r.tracks[p.thread := ThreadTrackName(p.thread)])
            else r.(tracks := r.tracks[p.uuid := CounterTrackName(p.thread, p.text)])
  {
    hide Decode, Encode, Last, GoodItems, Decimal;
    ItemsAreGood(p);
    ThreadDigits(p.thread);
    var k := if p.DefineThreadTrack? then 2 else 0;
    NestedIsGood(Items(p), k);
    var fs := Decode(Encode(Items(p)));
    Decoded(Items(p));
    LastIsMissing(fs, INTERNED_DATA);
    LastIs(fs, TRACK_DESCRIPTOR, k);
    var (id, name) := if p.DefineThreadTrack? then (p.thread, ThreadTrackName(p.thread))
        else (p.uuid, CounterTrackName(p.thread, p.text));
    EntryReads(Items(p)[k].items, id, name);
  }

  /** The outside of an event packet: its time and the event inside. */
  lemma {:induction false} EventOutside(p: Packet, event: seq<Item>)
    requires p.SliceBegin? || p.SliceEnd? || p.CounterValue?
    requires Items(p) == Header(2) + [VarLeaf(8, p.ts), Nested(11, event)]
    ensures GoodItems(event)
    ensures var fs := Decode(Encode(Items(p)));
            && !Has(fs, INTERNED_DATA) && !Has(fs, TRACK_DESCRIPTOR) && Has(fs, TRACK_EVENT)
            && Number(fs, TIMESTAMP) == p.ts && Text(fs, TRACK_EVENT) == Encode(event)
  {
    hide Decode, Encode, Last, GoodItems;
    ItemsAreGood(p);
    NestedIsGood(Items(p), 3);
    var fs := Decode(Encode(Items(p)));
    Decoded(Items(p));
    LastIsMissing(fs, INTERNED_DATA);
    LastIsMissing(fs, TRACK_DESCRIPTOR);
    LastIs(fs, TIMESTAMP, 2);
    LastIs(fs, TRACK_EVENT, 3);
  }

  function EventFor(s: State, tracks: map<nat, seq<byte>>, p: Packet): Event
    requires p.SliceBegin? || p.SliceEnd? || p.CounterValue?
  {
    match p
    case SliceBegin(ts, t, c, n) => Opened(ts, LookUp(tracks, t), Entry(s.categories, c), Entry(s.names, n))
    case SliceEnd(ts, t, c, n) => Closed(ts, LookUp(tracks, t), Entry(s.categories, c), Entry(s.names, n))
    case CounterValue(ts, u, v) => Counted(ts, LookUp(tracks, u), v)
  }

  lemma {:induction false} SliceReads(r: TraceReader, p: Packet)
    requires p.SliceBegin? || p.SliceEnd?
    ensures ReadBody(r, 1, Decode(Encode(Items(p)))) == r.(events := r.events + [EventFor(r.Of(1), r.tracks, p)])
  {
    hide Decode, Encode, Last, GoodItems;
    var k := if p.SliceBegin? then 0 else 1;
    var track, category := VarLeaf(11, p.track), VarLeaf(3, p.category);
    var event :=
      if p.SliceBegin? then [track, category, VarLeaf(10, p.name), VarLeaf(9, 1)]
      else [category, track, VarLeaf(10, p.name), VarLeaf(9, 2)];
    assert Items(p) == Header(2) + [VarLeaf(8, p.ts), Nested(11, event)];
    EventOutside(p, event);
    Decoded(event);
    var e := Decode(Encode(event));
    LastIs(e, TRACK_UUID, k);
    LastIs(e, CATEGORY_IIDS, 1 - k);
    LastIs(e, NAME_IID, 2);
    LastIs(e, TYPE, 3);
  }

  lemma {:induction false} CounterReads(r: TraceReader, p: Packet)
    requires p.CounterValue?
    ensures ReadBody(r, 1, Decode(Encode(Items(p)))) == r.(events := r.events + [EventFor(r.Of(1), r.tracks, p)])
  {
    hide Decode, Encode, Last, GoodItems;
    var event := [VarLeaf(11, p.uuid), VarLeaf(9, 4), VarLeaf(30, ToUnsigned(p.value, U64))];
    assert Items(p) == Header(2) + [VarLeaf(8, p.ts), Nested(11, event)];
    EventOutside(p, event);
    Decoded(event);
    var e := Decode(Encode(event));
    LastIs(e, TRACK_UUID, 0);
    LastIs(e, TYPE, 1);
    LastIs(e, COUNTER_VALUE, 2);
  }

  /** The start gives sequence 1 a new state, and does nothing else. */
  lemma {:induction false} StartIsRead(r: TraceReader)
    ensures ReadFields(r, Decode(Encode(Items(SequenceStart)))) == r.(states := r.states[1 := NoEntries()])
  {
    hide Decode, Encode, Last, GoodItems;
    SequenceOfPacket(SequenceStart);
    ItemsAreGood(SequenceStart);
    Decoded(Items(SequenceStart));
    var fs := Decode(Encode(Items(SequenceStart)));
    LastIsMissing(fs, INTERNED_DATA);
    LastIsMissing(fs, TRACK_DESCRIPTOR);
    LastIsMissing(fs, TRACK_EVENT);
  }

  lemma {:induction false} BodyIsRead(r: TraceReader, q: Reader, p: Packet, sequence: nat)
    requires ShortNames(p) && Labelled(p) && p != SequenceStart
    requires Sees(r, q) && (sequence == 1 || p.DefineCounterTrack?)
    ensures Sees(ReadBody(r, sequence, Decode(Encode(Items(p)))), Read(q, p))
  {
    hide Decode, Encode, Items, ReadBody, ShortNames;
    match p
    case DefineCategory(_, _) => InternedReads(r, p);
    case DefineEventName(_, _) => InternedReads(r, p);
    case DefineThreadTrack(_) => TrackReads(r, p, sequence);
    case DefineCounterTrack(_, _, _) => TrackReads(r, p, sequence);
    case SliceBegin(_, _, _, _) => SliceReads(r, p);
    case SliceEnd(_, _, _, _) => SliceReads(r, p);
    case CounterValue(_, _, _) => CounterReads(r, p);
  }

  /** Once the sequence has started, the reader learns from the fields of a packet what the packet says. */
  lemma {:induction false} PacketIsRead(r: TraceReader, q: Reader, p: Packet)
    requires ShortNames(p) && Labelled(p) && p != SequenceStart && Sees(r, q)
    ensures Sees(ReadFields(r, Decode(Encode(Items(p)))), Read(q, p))
  {
    hide Decode, Encode, Items, Read, ReadBody, Last, ShortNames;
    SequenceOfPacket(p);
    BodyIsRead(r, q, p, if p.DefineCounterTrack? then 0 else 1);
  }

  /** Before that it learns nothing from it but the track it may define for a counter. */
  lemma {:induction false} PacketIsDropped(r: TraceReader, p: Packet)
    requires ShortNames(p) && p != SequenceStart && r.states == map[]
    ensures var s := ReadFields(r, Decode(Encode(Items(p))));
            s.states == map[] && s.events == r.events && (!p.DefineCounterTrack? ==> s == r)
  {
    hide Decode, Encode, Items, Last, ShortNames, Decimal;
    SequenceOfPacket(p);
    if p.DefineCounterTrack? {
      TrackReads(r, p, 0);
    }
  }

  // ---------- Whole files ----------

  lemma {:induction false} TraceSnoc(ps: seq<Packet>, p: Packet)
    ensures ReadTrace(PacketFields(ps + [p])) == ReadFields(ReadTrace(PacketFields(ps)), Decode(Encode(Items(p))))
  {
    hide Decode, Encode, Items, ReadFields;
    assert (ps + [p])[..|ps|] == ps;
    var fs := PacketFields(ps + [p]);
    assert fs[..|fs| - 1] == PacketFields(ps);
  }

  lemma {:induction false} NoPackets()
    ensures ReadTrace(PacketFields([])) == NothingYet() && ReadAll([]) == Reader(map[], map[], map[], [])
  {
  }

  lemma {:induction false} FieldsAreRead(ps: seq<Packet>)
    requires File.Leading(ps) && forall p <- ps :: ShortNames(p) && Labelled(p)
    ensures Sees(ReadTrace(PacketFields(ps)), ReadAll(ps))
  {
    hide Decode, Encode, Items, ShortNames, Labelled, Read, ReadFields, ReadTrace, ReadAll, PacketFields;
    var n := |ps| - 1;
    assert ps == ps[..n] + [ps[n]];
    TraceSnoc(ps[..n], ps[n]);
    ReadSnoc(ps[..n], ps[n]);
    if n == 0 {
      NoPackets();
      StartIsRead(NothingYet());
      StartSaysNothing(Reader(map[], map[], map[], []));
    } else {
      assert ps[1..][n - 1] == ps[n] && forall k :: 0 <= k < n - 1 ==> ps[..n][1..][k] == ps[1..][k];
      FieldsAreRead(ps[..n]);
      PacketIsRead(ReadTrace(PacketFields(ps[..n])), ReadAll(ps[..n]), ps[n]);
    }
  }

  lemma {:induction false} StartSaysNothing(r: Reader)
    ensures Read(r, SequenceStart) == r
  {
  }

  /** Reading the bytes of a stream of packets that begins with the one start is reading the packets. */
  lemma {:induction false} BytesAreRead(ps: seq<Packet>)
    requires ps == [] || File.Leading(ps)
    requires forall p <- ps :: ShortNames(p) && Labelled(p)
    ensures ReadBytes(StreamBytes(ps)).events == ReadAll(ps).events
    ensures ps != [] ==> Sees(ReadBytes(StreamBytes(ps)), ReadAll(ps))
  {
    hide Decode, Consumed, Encode, Items, ReadsBack, ShortNames, Labelled, Read, ReadFields, ReadTrace, ReadAll;
    hide StreamBytes, PacketFields;
    StreamReadsBack(ps);
    if ps == [] {
      NoPackets();
    } else {
      FieldsAreRead(ps);
    }
  }

  /** Without the start no event is read. */
  lemma {:induction false} NothingWithoutStart(ps: seq<Packet>)
    requires File.Clean(ps) && forall p <- ps :: ShortNames(p)
    ensures ReadBytes(StreamBytes(ps)).events == []
  {
    hide Decode, Consumed, Encode, Items, ReadsBack, ShortNames, ReadFields, ReadTrace, StreamBytes, PacketFields;
    StreamReadsBack(ps);
    FieldsAreDropped(ps);
  }

  lemma {:induction false} FieldsAreDropped(ps: seq<Packet>)
    requires File.Clean(ps) && forall p <- ps :: ShortNames(p)
    ensures ReadTrace(PacketFields(ps)).states == map[] && ReadTrace(PacketFields(ps)).events == []
  {
    hide Decode, Encode, Items, ShortNames, ReadFields, ReadTrace, PacketFields;
    if ps == [] {
      NoPackets();
    } else {
      var n := |ps| - 1;
      FieldsAreDropped(ps[..n]);
      assert ps == ps[..n] + [ps[n]];
      TraceSnoc(ps[..n], ps[n]);
      PacketIsDropped(ReadTrace(PacketFields(ps[..n])), ps[n]);
    }
  }

  // ---------- One thread's session ----------

  /** The ids of a session's entries are ids it has drawn. */
  lemma {:induction false} SessionIsLabelled(env: Env, c: Ctx, turns: seq<Turn>)
    requires Regular(env, c, turns) && 0 !in Run(env, c, turns).drawn
    ensures forall p <- Run(env, c, turns).out :: Labelled(p)
  {
    hide Run, LegalRun, NeverWraps, Ascending, IdealRun, ReadAll;
    RunIsFaithful(env, c, turns);
    var ps := Run(env, c, turns).out;
    forall p | p in ps ensures Labelled(p) {
      if p.DefineCategory? || p.DefineEventName? {
        var k :| 0 <= k < |ps| && ps[k] == p;
        assert IsCategory(ps[k], p.iid) || IsName(ps[k], p.iid);
        TablesAreDefinitions(ps, p.iid);
      }
    }
  }

  /**
    * From bytes to meaning: whoever reads the bytes a thread has recorded in a session, behind the start
    * of the sequence, sees exactly the slices and counters its calls asked for, on named tracks and
    * under their names. The start is the thread's own if it was the first, another thread's if not.
    */
  lemma {:induction false} BytesSayWhatWasAsked(env: Env, c: Ctx, turns: seq<Turn>)
    requires Regular(env, c, turns) && ShortCalls(env.text, turns) && 0 !in Run(env, c, turns).drawn
    ensures var out, asked := Run(env, c, turns).out, IdealRun(env, turns).events;
            && (File.Leading(out) ==> ReadBytes(StreamBytes(out)).events == asked)
            && (File.Clean(out) ==> ReadBytes(StreamBytes([SequenceStart] + out)).events == asked)
  {
    hide Run, LegalRun, NeverWraps, Ascending, IdealRun, ReadBytes, StreamBytes, ReadAll, ShortCalls, ShortNames;
    var out := Run(env, c, turns).out;
    RunIsFaithful(env, c, turns);
    RunShort(env, c, turns);
    SessionIsLabelled(env, c, turns);
    if File.Leading(out) {
      BytesAreRead(out);
    }
    if File.Clean(out) {
      assert ShortNames(SequenceStart) by { StartIsShort(); }
      assert ([SequenceStart] + out)[1..] == out;
      BytesAreRead([SequenceStart] + out);
      StartChangesNothing(out);
    }
  }

  lemma {:induction false} StartIsShort()
    ensures ShortNames(SequenceStart)
  {
  }

  lemma {:induction false} StartChangesNothing(ps: seq<Packet>)
    ensures ReadAll([SequenceStart] + ps) == ReadAll(ps)
  {
    hide Read;
    var all := [SequenceStart] + ps;
    if ps == [] {
      assert all[..0] == [] && all == [SequenceStart];
      StartSaysNothing(ReadAll([]));
    } else {
      StartChangesNothing(ps[..|ps| - 1]);
      assert all[..|all| - 1] == [SequenceStart] + ps[..|ps| - 1];
    }
  }
}
