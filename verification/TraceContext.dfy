/**
  * A thread's recording context and the storage that takes over its buffers. Each call is proved
  * against the state machine of the recorder, and each buffer against the packets it holds.
  */
module TraceRecording {
  import opened WireFormat
  import opened ProtoFields
  import opened RecorderPackets
  import opened Recorder
  import opened TraceConfiguration
  import Shared = SharedCounters
  import File = RecorderFile
  import Setters = RecorderSetters

  datatype SavedTraceInfo = SavedTraceInfo(data: array?<byte>, allocSize: nat, written: nat, first: bool)

  class TraceStorage {
    var saved: seq<SavedTraceInfo>
    ghost var chunks: seq<File.Chunk>
    ghost var repr: set<array<byte>>

    /** A handed-over buffer holds whole packets, one after the other. */
    ghost predicate Holds(info: SavedTraceInfo, c: File.Chunk)
      reads info.data
    {
      && info.data != null && info.written <= info.data.Length && info.first == c.first
      && info.data[..info.written] == StreamBytes(c.packets)
    }

    ghost predicate Valid()
      reads this, repr
    {
      && |chunks| == |saved|
      && (forall k :: 0 <= k < |saved| ==> saved[k].data in repr && Holds(saved[k], chunks[k]))
      && (forall j, k :: 0 <= j < k < |saved| ==> saved[j].data != saved[k].data)
    }

    constructor ()
      ensures Valid() && saved == [] && chunks == [] && repr == {}
    {
      saved, chunks, repr := [], [], {};
    }

    method SaveTrace(info: SavedTraceInfo, ghost c: File.Chunk)
      requires Valid() && (info.data != null ==> Holds(info, c) && info.data !in repr)
      modifies this
      ensures Valid()
      ensures info.data == null ==> saved == old(saved) && chunks == old(chunks) && repr == old(repr)
      ensures info.data != null ==>
          saved == old(saved) + [info] && chunks == old(chunks) + [c] && repr == old(repr) + {info.data}
    {
      if info.data != null {
        saved := saved + [info];
        chunks := chunks + [c];
        repr := repr + {info.data};
      }
    }

    /** The file: flagged buffers, then the rest. Every buffer is written once and freed once. */
    method WriteFile() returns (file: seq<byte>, freed: seq<array?<byte>>)
      requires Valid()
      modifies this
      ensures Valid() && saved == [] && chunks == []
      ensures file == StreamBytes(File.Packets(File.FileOrder(old(chunks))))
      ensures |freed| == |old(saved)| &&
          (forall k :: 0 <= k < |freed| ==> freed[k] == old(saved)[k].data && freed[k] != null)
      ensures forall j, k :: 0 <= j < k < |freed| ==> freed[j] != freed[k]
    {
      hide StreamBytes, File.Packets, File.Pick, Holds;
      var flagged := WriteFirst();
      var others;
      others, freed := WriteOthersAndFree();
      file := flagged + others;
      File.PacketsConcat(File.Pick(chunks, true), File.Pick(chunks, false));
      File.StreamConcat(File.Packets(File.Pick(chunks, true)), File.Packets(File.Pick(chunks, false)));
      saved, chunks, repr := [], [], {};
    }

    method WriteFirst() returns (bytes: seq<byte>)
      requires Valid()
      ensures bytes == StreamBytes(File.Packets(File.Pick(chunks, true)))
    {
      hide StreamBytes, File.Packets;
      NothingPicked(chunks, true);
      bytes := [];
      for k := 0 to |saved|
        invariant bytes == StreamBytes(File.Packets(File.Pick(chunks[..k], true)))
      {
        assert Holds(saved[k], chunks[k]);
        if saved[k].first {
          bytes := bytes + saved[k].data[..saved[k].written];
        }
        NextPicked(chunks, k, true);
      }
      assert chunks[..|saved|] == chunks;
    }

    method WriteOthersAndFree() returns (bytes: seq<byte>, freed: seq<array?<byte>>)
      requires Valid()
      ensures bytes == StreamBytes(File.Packets(File.Pick(chunks, false)))
      ensures |freed| == |saved| && forall k :: 0 <= k < |freed| ==> freed[k] == saved[k].data
    {
      hide StreamBytes, File.Packets;
      NothingPicked(chunks, false);
      bytes, freed := [], [];
      for k := 0 to |saved|
        invariant bytes == StreamBytes(File.Packets(File.Pick(chunks[..k], false)))
        invariant |freed| == k && forall j :: 0 <= j < k ==> freed[j] == saved[j].data
      {
        assert Holds(saved[k], chunks[k]);
        if !saved[k].first {
          bytes := bytes + saved[k].data[..saved[k].written];
        }
        freed := freed + [saved[k].data];
        NextPicked(chunks, k, false);
      }
      assert chunks[..|saved|] == chunks;
    }
  }

  lemma {:induction false} NothingPicked(chunks: seq<File.Chunk>, first: bool)
    ensures StreamBytes(File.Packets(File.Pick(chunks[..0], first))) == []
  {
  }

  lemma {:induction false} NextPicked(chunks: seq<File.Chunk>, k: nat, first: bool)
    requires k < |chunks|
    ensures StreamBytes(File.Packets(File.Pick(chunks[..k + 1], first))) ==
            StreamBytes(File.Packets(File.Pick(chunks[..k], first))) +
            (if chunks[k].first == first then StreamBytes(chunks[k].packets) else [])
  {
    hide StreamBytes, File.Packets;
    var more := chunks[..k + 1];
    assert more[..k] == chunks[..k];
    if chunks[k].first == first {
      var before := File.Pick(chunks[..k], first);
      assert File.Pick(more, first) == before + [chunks[k]];
      File.PacketsConcat(before, [chunks[k]]);
      File.PacketsOfOne(chunks[k]);
      File.StreamConcat(File.Packets(before), chunks[k].packets);
    } else {
      assert File.Pick(more, first) == File.Pick(chunks[..k], first);
      assert StreamBytes(File.Packets(File.Pick(more, first))) + [] ==
          StreamBytes(File.Packets(File.Pick(more, first)));
    }
  }

  lemma {:induction false} StreamSnoc(ps: seq<Packet>, p: Packet)
    ensures StreamBytes(ps + [p]) == StreamBytes(ps) + PacketBytes(p)
  {
    assert (ps + [p])[..|ps|] == ps;
  }

  /** The packets that have left the buffer are those of the chunks handed over meanwhile. */
  ghost predicate HandedOver(
    chunks0: seq<File.Chunk>, flushed0: seq<Packet>, chunks1: seq<File.Chunk>, flushed1: seq<Packet>) {
    chunks0 <= chunks1 && flushed1 == flushed0 + File.Packets(chunks1[|chunks0|..])
  }

  lemma {:induction false} HandedOverTwice(
    chunks0: seq<File.Chunk>, flushed0: seq<Packet>, chunks1: seq<File.Chunk>, flushed1: seq<Packet>,
        chunks2: seq<File.Chunk>, flushed2: seq<Packet>)
    requires HandedOver(chunks0, flushed0, chunks1, flushed1) && HandedOver(chunks1, flushed1, chunks2, flushed2)
    ensures HandedOver(chunks0, flushed0, chunks2, flushed2)
  {
    hide File.Packets;
    File.PacketsConcat(chunks1[|chunks0|..], chunks2[|chunks1|..]);
    assert chunks1[|chunks0|..] + chunks2[|chunks1|..] == chunks2[|chunks0|..];
  }

  lemma {:induction false} NothingHandedOver(chunks: seq<File.Chunk>, flushed: seq<Packet>)
    ensures HandedOver(chunks, flushed, chunks, flushed)
  {
  }

  /** A packet added to the buffer, or to a new one after the full one has gone, is one step of the machine. */
  lemma {:induction false} OneEmission(
    size: nat, me: Thread, l0: File.Local, chunks0: seq<File.Chunk>, l1: File.Local, chunks1: seq<File.Chunk>,
        p: Packet)
    requires l1.recorded == l0.recorded + [p] && !l1.mustStart
    requires chunks1 != chunks0 <==> File.Full(size, l0.buffer)
    requires chunks1 == chunks0 ==> l1.first == l0.first && l1.buffer == File.Buffer(l0.buffer.Contents() + [p])
    requires chunks1 != chunks0 ==>
               l0.buffer.Buffer? && chunks1 == chunks0 + [File.Chunk(me, l0.first, l0.buffer.packets)] &&
               !l1.first && l1.buffer == File.Buffer([p])
    ensures l1 == File.Moved(size, l0, File.Emit(me, p), false)
    ensures chunks1 == chunks0 + File.Passed(size, l0, File.Emit(me, p))
  {
    hide StreamBytes;
  }

  // ---------- Accesses to the shared counters ----------

  datatype Entries = Entries(steps: seq<Shared.Step>, firsts: nat) {
    function Plus(more: seq<Shared.Step>, first: bool): Entries {
      Entries(steps + more, firsts + if first then 1 else 0)
    }
  }

  lemma {:induction false} PlusTwice(e: Entries, a: seq<Shared.Step>, first: bool, b: seq<Shared.Step>)
    ensures e.Plus(a, first).Plus(b, false) == e.Plus(a + b, first)
    ensures e.Plus([], false) == e
  {
    assert e.steps + a + b == e.steps + (a + b);
  }

  /** An id that is not known yet is read and counted on. */
  function DrawsUnless(t: Thread, known: bool): seq<Shared.Step> {
    if known then [] else [Shared.ReadId(t), Shared.AddId(t)]
  }

  function ThreadIdIf(t: Thread, needed: bool): seq<Shared.Step> {
    if needed then [Shared.NewThreadId(t)] else []
  }

  function InfoAccesses(t: Thread, known: bool, needed: bool): seq<Shared.Step> {
    [Shared.CountPacket(t)] + DrawsUnless(t, known) + ThreadIdIf(t, needed)
  }

  /** What a call does to the shared counters, in order. */
  function CallAccesses(t: Thread, c: Ctx, call: Call): seq<Shared.Step> {
    if !Counts(c, call) then []
    else InfoAccesses(t, CATEGORY in c.categories, c.needThreadId) +
         if call.Begin? then DrawsUnless(t, call.name in c.events) else []
  }

  class TraceContext {
    const me: Thread
    const text: Address -> seq<byte>
    const config: TraceConfig
    const storage: TraceStorage

    var traceBuffer: array?<byte>
    var traceBufferSize: nat
    var written: nat
    var first: bool
    var needThreadId: bool
    var threadId: u32
    var counterId: u32
    var depth: nat
    var categoryIids: seq<u32>
    var nameIids: seq<u32>
    var categories: map<Address, u32>
    var events: map<Address, u32>
    var counters: map<Address, u64>

    /** The packets of this session already handed over, and those in the buffer. */
    ghost var flushed: seq<Packet>
    ghost var current: seq<Packet>

    function State(): Ctx
      reads this
    {
      Ctx(needThreadId, threadId, counterId, depth, categoryIids, nameIids, categories, events, counters)
    }

    /** The buffer is a concatenation of whole packets. */
    ghost predicate BufferValid()
      reads this, traceBuffer, storage, storage.repr, config`perThreadStorageMb
    {
      && storage.Valid()
      && (traceBuffer == null ==> current == [] && traceBufferSize == 0)
      && (traceBuffer != null ==>
            && traceBuffer !in storage.repr
            && traceBufferSize == traceBuffer.Length == StorageSize(config.perThreadStorageMb)
            && written <= traceBufferSize
            && traceBuffer[..written] == StreamBytes(current))
    }

    ghost predicate Valid()
      reads this, traceBuffer, storage, storage.repr, config
    {
      && BufferValid()
      && State().WellFormed()
      && config.perThreadStorageMb % 4096 != 0
      && config.Valid() && !config.Pending(me)
      && (!needThreadId ==> Shared.Grant(me, threadId) in config.Grants())
    }

    /** The session so far, as the state machine of the recorder sees it. */
    ghost function History(): Session
      reads this, config
    {
      Session(State(), flushed + current, config.Drawn(me))
    }

    constructor (me: Thread, text: Address -> seq<byte>, config: TraceConfig, storage: TraceStorage)
      requires config.Valid() && !config.Pending(me) && storage.Valid()
      requires config.perThreadStorageMb % 4096 != 0
      ensures Valid() && State().Fresh() && traceBuffer == null && !first && flushed == [] && current == []
      ensures this.me == me && this.text == text && this.config == config && this.storage == storage
    {
      this.me, this.text, this.config, this.storage := me, text, config, storage;
      traceBuffer, traceBufferSize, written, first := null, 0, 0, false;
      needThreadId, threadId, counterId, depth := true, 0, 1, 0;
      categoryIids, nameIids := seq(STACK_DEPTH_MAX, _ => 0), seq(STACK_DEPTH_MAX, _ => 0);
      categories, events, counters := map[], map[], map[];
      flushed, current := [], [];
    }

    // ---------- Buffers ----------

    method AllocTraceBuffer()
      requires config.Valid() && storage.Valid() && current == []
      modifies this`traceBuffer, this`traceBufferSize, this`written
      ensures BufferValid() && fresh(traceBuffer) && written == 0
      ensures traceBufferSize == StorageSize(config.perThreadStorageMb)
      ensures NEEDED_SPACE <= traceBufferSize <==> config.perThreadStorageMb % 4096 != 0
    {
      StorageHoldsAPacket(config.perThreadStorageMb);
      traceBufferSize := StorageSize(config.perThreadStorageMb);
      traceBuffer := new byte[traceBufferSize];
      written := 0;
    }

    /**
      * Ownership of the buffer passes to the caller; a partial reset keeps the interning tables, the thread
      * id and the stack.
      */
    method SaveLocked(partialReset: bool) returns (info: SavedTraceInfo)
      requires BufferValid() && State().WellFormed()
      modifies this
      ensures info == SavedTraceInfo(old(traceBuffer), old(traceBufferSize), old(written), old(first))
      ensures traceBuffer == null && traceBufferSize == 0 && !first && current == [] && BufferValid()
      ensures partialReset ==> State() == old(State()) && flushed == old(flushed + current)
      ensures !partialReset ==> State() == FullReset(old(State())) && flushed == []
    {
      info := SavedTraceInfo(traceBuffer, traceBufferSize, written, first);
      flushed := if partialReset then flushed + current else [];
      current := [];
      ResetLocked(partialReset);
    }

    method ResetLocked(partialReset: bool)
      requires State().WellFormed()
      modifies this
      ensures traceBuffer == null && traceBufferSize == 0 && !first && flushed == old(flushed)
      ensures current == old(current)
      ensures State() == if partialReset then old(State()) else FullReset(old(State()))
    {
      hide FullReset;
      traceBuffer, traceBufferSize, first := null, 0, false;
      if !partialReset {
        ForgetSession();
      }
    }

    method ForgetSession()
      requires State().WellFormed()
      modifies this`needThreadId, this`threadId, this`counterId, this`depth, this`categories, this`events, this`counters
      ensures State() == FullReset(old(State()))
    {
      needThreadId, threadId, counterId, depth := true, 0, 1, 0;
      categories, events, counters := map[], map[], map[];
    }

    ghost function Chunk(): File.Chunk
      reads this
    {
      File.Chunk(me, first, current)
    }

    /** The context as the machine of the saved file sees it, between calls. */
    ghost function Local(): File.Local
      reads this
    {
      File.Local(first, false, if traceBuffer == null then File.NoBuffer else File.Buffer(current), flushed + current)
    }

    /** The context has emitted one packet, as that machine would. */
    ghost predicate Emitted(before: File.Local, chunks: seq<File.Chunk>, p: Packet)
      reads this, storage, config`perThreadStorageMb
    {
      var size, e := StorageSize(config.perThreadStorageMb), File.Emit(me, p);
      Local() == File.Moved(size, before, e, false) && storage.chunks == chunks + File.Passed(size, before, e)
    }

    method FinishAndRefresh()
      requires BufferValid() && State().WellFormed() && config.Valid()
      modifies this, storage
      ensures BufferValid() && fresh(traceBuffer) && written == 0 && current == []
      ensures first == if old(traceBuffer) == null then old(first) else false
      ensures State() == old(State()) && flushed == old(flushed + current)
      ensures storage.chunks == old(storage.chunks) + (if old(traceBuffer) == null then [] else [old(Chunk())])
      ensures config.Valid()
    {
      if traceBuffer != null {
        var info := SaveLocked(true);
        storage.SaveTrace(info, old(Chunk()));
      }
      AllocTraceBuffer();
    }

    /**
      * One packet, from the space check to the backfilled size. The buffer is only switched before
      * the packet, so every byte of it lands in one buffer.
      */
    method WritePacket(p: Packet)
      requires BufferValid() && State().WellFormed() && config.Valid() && ShortNames(p)
      requires config.perThreadStorageMb % 4096 != 0
      modifies this, traceBuffer, storage
      ensures BufferValid() && State() == old(State()) && traceBuffer != null
      ensures traceBuffer == old(traceBuffer) || fresh(traceBuffer)
      ensures flushed + current == old(flushed + current) + [p]
      ensures Switched(old(storage.chunks), old(Chunk()))
      ensures HandedOver(old(storage.chunks), old(flushed), storage.chunks, flushed)
      ensures storage.chunks == old(storage.chunks) ==> first == old(first) && current == old(current) + [p]
      ensures Emitted(old(Local()), old(storage.chunks), p)
    {
      hide StreamBytes, PacketBytes, BufferValid, TraceConfig.Valid;
      MakeRoom();
      PutPacket(p);
      assert storage.chunks[|old(storage.chunks)|..] == if storage.chunks == old(storage.chunks) then []
          else [old(Chunk())];
      File.PacketsOfOne(old(Chunk()));
      var size := StorageSize(config.perThreadStorageMb);
      OneEmission(size, me, old(Local()), old(storage.chunks), Local(), storage.chunks, p);
    }

    /**
      * Makes sure that a whole packet fits, in a new buffer exactly when less than a packet's room is
      * free. Only a buffer size that wraps to zero leaves no room.
      */
    method MakeRoom()
      requires BufferValid() && State().WellFormed() && config.Valid()
      modifies this, storage
      ensures BufferValid() && State() == old(State()) && traceBuffer != null
      ensures 208 <= traceBufferSize - written <==> config.perThreadStorageMb % 4096 != 0
      ensures traceBuffer == old(traceBuffer) || fresh(traceBuffer)
      ensures config.perThreadStorageMb % 4096 != 0 ==>
                (storage.chunks != old(storage.chunks) <==>
                   old(traceBuffer) != null && old(traceBufferSize - written) < 208)
      ensures config.perThreadStorageMb % 4096 != 0 ==>
                (storage.chunks != old(storage.chunks) <==>
                   File.Full(StorageSize(config.perThreadStorageMb), old(Local()).buffer))
      ensures config.perThreadStorageMb % 4096 != 0 && storage.chunks == old(storage.chunks) ==>
                first == old(first) && current == old(current) && flushed == old(flushed) &&
                    (old(traceBuffer) == null ==> current == [])
      ensures config.perThreadStorageMb % 4096 != 0 && storage.chunks != old(storage.chunks) ==>
                && old(traceBuffer) != null && storage.chunks == old(storage.chunks) + [old(Chunk())]
                && !first && current == [] && flushed == old(flushed + current)
    {
      hide StreamBytes;
      StorageHoldsAPacket(config.perThreadStorageMb);
      hide StorageSize;
      if traceBuffer == null {
        AllocTraceBuffer();
      }
      if traceBufferSize - written < NEEDED_SPACE {
        FinishAndRefresh();
      }
    }

    /** Either the buffer stayed, or the old one was handed over with its flag and the flag is down. */
    ghost predicate Switched(before: seq<File.Chunk>, chunk: File.Chunk)
      reads this, storage
    {
      storage.chunks == before || (storage.chunks == before + [chunk] && !first)
    }

    /**
      * The packet is built by its setters on a range as large as what is free. It needs no second range,
      * so what is free is taken without a break.
      */
    method PutPacket(p: Packet)
      requires BufferValid() && ShortNames(p) && traceBuffer != null && NEEDED_SPACE <= traceBufferSize - written
      modifies this`written, this`current, traceBuffer
      ensures BufferValid() && current == old(current) + [p] && written == old(written) + |PacketBytes(p)|
    {
      hide StreamBytes, PacketBytes;
      var free := traceBufferSize - written;
      var bytes, slices := Setters.WriteWithSetters(p, free, free);
      assert slices == 1;
      PacketFits(p);
      written := CopyBytes(bytes, traceBuffer, written);
      StreamSnoc(current, p);
      current := current + [p];
    }

    // ---------- The steps of a call ----------

    /** What the thread has done to the counters so far, and how often it was told that it is the first. */
    ghost function Ledger(): Entries
      reads this, config
    {
      Entries(config.Accesses(me), config.Firsts(me))
    }

    method StartSequence() returns (isFirst: bool)
      requires Valid()
      modifies this, traceBuffer, storage, config
      ensures Valid() && (traceBuffer == old(traceBuffer) || fresh(traceBuffer))
      ensures config.Settings() == old(config.Settings())
      ensures History() == Start(old(History()), isFirst)
      ensures HandedOver(old(storage.chunks), old(flushed), storage.chunks, flushed)
      ensures Ledger() == old(Ledger()).Plus([Shared.CountPacket(me)], isFirst)
      ensures !isFirst ==> Local() == old(Local()) && storage.chunks == old(storage.chunks)
      ensures isFirst ==> Emitted(old(Local()).(first := true, mustStart := true), old(storage.chunks), SequenceStart)
      ensures isFirst && old(traceBuffer) == null ==>
          first && current == [SequenceStart] && storage.chunks == old(storage.chunks)
    {
      hide StreamBytes, TraceStorage.Valid, TraceConfig.Valid, TraceConfig.Drawn, TraceConfig.Pending;
      hide TraceConfig.Grants, TraceConfig.Settings;
      var n := config.CountPacket(me);
      isFirst := n == 1;
      if isFirst {
        first := true;
        ghost var counted := Local();
        WritePacket(SequenceStart);
        EmittedAfterCount(counted, old(storage.chunks), SequenceStart);
      }
    }

    /** Writing the start packet settles that it was due. */
    lemma {:induction false} EmittedAfterCount(counted: File.Local, chunks: seq<File.Chunk>, p: Packet)
      requires Emitted(counted, chunks, p)
      ensures Emitted(counted.(mustStart := true), chunks, p)
    {
      hide StreamBytes;
    }

    method InternCategory() returns (id: u32)
      requires Valid() && depth < STACK_DEPTH_MAX
      modifies this, traceBuffer, storage, config
      ensures Valid() && (traceBuffer == old(traceBuffer) || fresh(traceBuffer))
      ensures config.Settings() == old(config.Settings())
      ensures History() == Recorder.InternCategory(old(History()), id)
      ensures HandedOver(old(storage.chunks), old(flushed), storage.chunks, flushed)
      ensures Ledger() == old(Ledger()).Plus(DrawsUnless(me, CATEGORY in old(categories)), false)
    {
      hide StreamBytes, TraceStorage.Valid, TraceConfig.Valid, TraceConfig.Drawn, TraceConfig.Pending;
      hide TraceConfig.Grants, TraceConfig.Settings;
      if CATEGORY in categories {
        id := categories[CATEGORY];
        categoryIids := categoryIids[depth := id];
      } else {
        id := config.NextInterningId(me);
        categories := categories[CATEGORY := id];
        categoryIids := categoryIids[depth := id];
        WritePacket(DefineCategory(id, CATEGORY_TEXT));
      }
    }

    method TakeThreadId()
      requires Valid()
      modifies this, traceBuffer, storage, config
      ensures Valid() && (traceBuffer == old(traceBuffer) || fresh(traceBuffer))
      ensures config.Settings() == old(config.Settings())
      ensures History() == Recorder.TakeThreadId(old(History()), threadId)
      ensures HandedOver(old(storage.chunks), old(flushed), storage.chunks, flushed)
      ensures Ledger() == old(Ledger()).Plus(ThreadIdIf(me, old(needThreadId)), false)
    {
      hide StreamBytes, TraceStorage.Valid, TraceConfig.Valid, TraceConfig.Drawn, TraceConfig.Pending;
      hide TraceConfig.Grants, TraceConfig.Settings;
      if needThreadId {
        threadId := config.NextThreadId(me);
        needThreadId := false;
        WritePacket(DefineThreadTrack(threadId));
      }
    }

    method InternEvent(name: Address) returns (id: u32)
      requires Valid() && depth < STACK_DEPTH_MAX && |text(name)| <= MAX_EVENT_NAME
      modifies this, traceBuffer, storage, config
      ensures Valid() && (traceBuffer == old(traceBuffer) || fresh(traceBuffer))
      ensures config.Settings() == old(config.Settings())
      ensures History() == Recorder.InternEvent(Env(text, threadId), old(History()), name, id)
      ensures HandedOver(old(storage.chunks), old(flushed), storage.chunks, flushed)
      ensures Ledger() == old(Ledger()).Plus(DrawsUnless(me, name in old(events)), false)
    {
      hide StreamBytes, TraceStorage.Valid, TraceConfig.Valid, TraceConfig.Drawn, TraceConfig.Pending;
      hide TraceConfig.Grants, TraceConfig.Settings;
      if name in events {
        id := events[name];
        nameIids := nameIids[depth := id];
      } else {
        id := config.NextInterningId(me);
        events := events[name := id];
        nameIids := nameIids[depth := id];
        WritePacket(DefineEventName(id, text(name)));
      }
    }

    method GetOrCreateCounterTrackUuid(name: Address) returns (uuid: u64)
      requires Valid() && |text(name)| <= MAX_COUNTER_NAME
      modifies this, traceBuffer, storage
      ensures Valid() && (traceBuffer == old(traceBuffer) || fresh(traceBuffer))
      ensures History() == GetCounter(Env(text, threadId), old(History()), name) && counters[name] == uuid
      ensures HandedOver(old(storage.chunks), old(flushed), storage.chunks, flushed)
    {
      hide StreamBytes, TraceStorage.Valid, TraceConfig.Valid, TraceConfig.Drawn, TraceConfig.Pending;
      hide TraceConfig.Grants, TraceConfig.Settings;
      if name in counters {
        uuid := counters[name];
      } else {
        uuid := counterId * U32 + threadId;
        counters := counters[name := uuid];
        counterId := Next(counterId);
        WritePacket(DefineCounterTrack(uuid, threadId, text(name)));
      }
    }

    function Timestamp(boot: u64): u64
      reads config
    {
      (boot + config.guestTimeDiff) % U64
    }

    method OpenSlice(ts: u64)
      requires Valid() && depth < STACK_DEPTH_MAX
      modifies this, traceBuffer, storage
      ensures Valid() && (traceBuffer == old(traceBuffer) || fresh(traceBuffer))
      ensures History() == Recorder.OpenSlice(old(History()), ts)
      ensures HandedOver(old(storage.chunks), old(flushed), storage.chunks, flushed)
    {
      hide StreamBytes, TraceStorage.Valid, TraceConfig.Valid, TraceConfig.Drawn, TraceConfig.Pending;
      hide TraceConfig.Grants, TraceConfig.Settings;
      WritePacket(SliceBegin(ts, threadId, categoryIids[depth], nameIids[depth]));
      depth := depth + 1;
    }

    method CloseSlice(ts: u64)
      requires Valid() && 0 < depth
      modifies this, traceBuffer, storage
      ensures Valid() && (traceBuffer == old(traceBuffer) || fresh(traceBuffer))
      ensures History() == Recorder.CloseSlice(old(History()), ts)
      ensures HandedOver(old(storage.chunks), old(flushed), storage.chunks, flushed)
    {
      hide StreamBytes, TraceStorage.Valid, TraceConfig.Valid, TraceConfig.Drawn, TraceConfig.Pending;
      hide TraceConfig.Grants, TraceConfig.Settings;
      depth := depth - 1;
      WritePacket(SliceEnd(ts, threadId, categoryIids[depth], nameIids[depth]));
    }

    method AddValue(ghost name: Address, uuid: u64, value: i64, ts: u64)
      requires Valid() && name in counters && counters[name] == uuid
      modifies this, traceBuffer, storage
      ensures Valid() && (traceBuffer == old(traceBuffer) || fresh(traceBuffer))
      ensures History() == Recorder.AddValue(old(History()), name, value, ts)
      ensures HandedOver(old(storage.chunks), old(flushed), storage.chunks, flushed)
    {
      hide StreamBytes, TraceStorage.Valid, TraceConfig.Valid, TraceConfig.Drawn, TraceConfig.Pending;
      hide TraceConfig.Grants, TraceConfig.Settings;
      WritePacket(CounterValue(ts, uuid, value));
    }

    // ---------- The calls ----------

    method EnsureThreadInfo() returns (ghost seen: Observed)
      requires Valid() && depth < STACK_DEPTH_MAX
      modifies this, traceBuffer, storage, config
      ensures Valid() && (traceBuffer == old(traceBuffer) || fresh(traceBuffer))
      ensures config.Settings() == old(config.Settings())
      ensures History() == Recorder.EnsureThreadInfo(Env(text, threadId), old(History()), seen)
      ensures HandedOver(old(storage.chunks), old(flushed), storage.chunks, flushed)
      ensures Ledger() ==
              old(Ledger()).Plus(InfoAccesses(me, old(CATEGORY in categories), old(needThreadId)), seen.first)
      ensures events == old(events)
    {
      hide StreamBytes, Valid, BufferValid, TraceConfig.Valid, TraceConfig.Drawn, TraceConfig.Pending;
      hide TraceConfig.Grants, HandedOver, TraceConfig.Accesses, TraceConfig.Firsts;
      hide Entries.Plus, DrawsUnless, ThreadIdIf;
      hide Recorder.Start, Recorder.InternCategory, Recorder.TakeThreadId, Recorder.InternEvent;
      hide Recorder.OpenSlice;
      hide Recorder.CloseSlice, GetCounter, Recorder.AddValue;
      var isFirst := StartSequence();
      ghost var chunks1, flushed1 := storage.chunks, flushed;
      var id := InternCategory();
      HandedOverTwice(old(storage.chunks), old(flushed), chunks1, flushed1, storage.chunks, flushed);
      ghost var chunks2, flushed2 := storage.chunks, flushed;
      TakeThreadId();
      HandedOverTwice(old(storage.chunks), old(flushed), chunks2, flushed2, storage.chunks, flushed);
      seen := Observed(isFirst, id, 0);
      ghost var e, known, needed := old(Ledger()), old(CATEGORY in categories), old(needThreadId);
      PlusTwice(e, [Shared.CountPacket(me)], isFirst, DrawsUnless(me, known));
      PlusTwice(e, [Shared.CountPacket(me)] + DrawsUnless(me, known), isFirst, ThreadIdIf(me, needed));
      InfoKeepsEvents(Env(text, threadId), old(History()), seen);
    }

    lemma {:induction false} InfoKeepsEvents(env: Env, s: Session, seen: Observed)
      requires s.Room()
      ensures Recorder.EnsureThreadInfo(env, s, seen).ctx.events == s.ctx.events
    {
    }

    lemma {:induction false} DepthIsBounded()
      requires Valid()
      ensures State().WellFormed()
    {
    }

    /** Outside a session, and at full depth, a begin does nothing; otherwise it is the begin of the state machine. */
    method BeginTrace(name: Address, boot: u64) returns (ghost seen: Observed)
      requires Valid() && |text(name)| <= MAX_EVENT_NAME
      modifies this, traceBuffer, storage, config
      ensures Valid() && (traceBuffer == old(traceBuffer) || fresh(traceBuffer))
      ensures config.Settings() == old(config.Settings())
      ensures HandedOver(old(storage.chunks), old(flushed), storage.chunks, flushed)
      ensures Ledger() == old(Ledger()).Plus(
          if old(config.tracingDisabled) then [] else CallAccesses(me, old(State()), Begin(name, boot)), seen.first)
      ensures seen.first ==> old(depth) < STACK_DEPTH_MAX
      ensures old(config.tracingDisabled) ==> History() == old(History())
      ensures !old(config.tracingDisabled) ==>
                History() == Perform(Env(text, threadId), old(History()), Turn(Begin(name, old(Timestamp(boot))), seen))
    {
      hide StreamBytes, Valid, BufferValid, TraceConfig.Valid, TraceConfig.Drawn, TraceConfig.Pending;
      hide TraceConfig.Grants, HandedOver, TraceConfig.Accesses, TraceConfig.Firsts;
      hide Entries.Plus, InfoAccesses, DrawsUnless;
      hide Recorder.Start, Recorder.InternCategory, Recorder.TakeThreadId, Recorder.InternEvent;
      hide Recorder.OpenSlice;
      hide Recorder.CloseSlice, GetCounter, Recorder.AddValue;
      seen := Observed(false, 0, 0);
      NothingHandedOver(storage.chunks, flushed);
      DepthIsBounded();
      PlusTwice(Ledger(), [], false, []);
      if config.tracingDisabled || depth == STACK_DEPTH_MAX {
        return;
      }
      seen := EnsureThreadInfo();
      ghost var chunks1, flushed1 := storage.chunks, flushed;
      var id := InternEvent(name);
      HandedOverTwice(old(storage.chunks), old(flushed), chunks1, flushed1, storage.chunks, flushed);
      ghost var chunks2, flushed2 := storage.chunks, flushed;
      OpenSlice(Timestamp(boot));
      HandedOverTwice(old(storage.chunks), old(flushed), chunks2, flushed2, storage.chunks, flushed);
      seen := seen.(name := id);
      PlusTwice(old(Ledger()), InfoAccesses(me, old(CATEGORY in categories), old(needThreadId)), seen.first,
          DrawsUnless(me, old(name in events)));
    }

    /** An end without an open slice does nothing either. */
    method EndTrace(boot: u64) returns (ghost seen: Observed)
      requires Valid()
      modifies this, traceBuffer, storage
      ensures Valid() && (traceBuffer == old(traceBuffer) || fresh(traceBuffer))
      ensures HandedOver(old(storage.chunks), old(flushed), storage.chunks, flushed)
      ensures !seen.first
      ensures config.tracingDisabled ==> History() == old(History())
      ensures !config.tracingDisabled ==>
                History() == Perform(Env(text, threadId), old(History()), Turn(End(Timestamp(boot)), seen))
    {
      hide StreamBytes, TraceStorage.Valid, TraceConfig.Valid, TraceConfig.Drawn, TraceConfig.Pending;
      hide TraceConfig.Grants, TraceConfig.Settings;
      seen := Observed(false, 0, 0);
      if config.tracingDisabled || depth == STACK_DEPTH_MAX || depth == 0 {
        return;
      }
      CloseSlice(Timestamp(boot));
    }

    /** At full depth the call would write past the stack; every other call is the counter call of the state machine. */
    method TraceCounter(name: Address, value: i64, boot: u64) returns (ghost seen: Observed)
      requires Valid() && depth < STACK_DEPTH_MAX && |text(name)| <= MAX_COUNTER_NAME
      modifies this, traceBuffer, storage, config
      ensures Valid() && (traceBuffer == old(traceBuffer) || fresh(traceBuffer))
      ensures config.Settings() == old(config.Settings())
      ensures HandedOver(old(storage.chunks), old(flushed), storage.chunks, flushed)
      ensures Ledger() == old(Ledger()).Plus(
          if old(config.tracingDisabled) then [] else CallAccesses(me, old(State()), Counter(name, value, boot)),
          seen.first)
      ensures old(config.tracingDisabled) ==> History() == old(History())
      ensures !old(config.tracingDisabled) ==>
                History() == Perform(Env(text, threadId), old(History()),
                    Turn(Counter(name, value, old(Timestamp(boot))), seen))
    {
      hide StreamBytes, Valid, BufferValid, TraceConfig.Valid, TraceConfig.Drawn, TraceConfig.Pending;
      hide TraceConfig.Grants, HandedOver, TraceConfig.Accesses, TraceConfig.Firsts;
      hide Entries.Plus, InfoAccesses, DrawsUnless;
      hide Recorder.Start, Recorder.InternCategory, Recorder.TakeThreadId, Recorder.InternEvent;
      hide Recorder.OpenSlice;
      hide Recorder.CloseSlice, GetCounter, Recorder.AddValue;
      hide Recorder.EnsureThreadInfo;
      seen := Observed(false, 0, 0);
      NothingHandedOver(storage.chunks, flushed);
      PlusTwice(Ledger(), [], false, []);
      if config.tracingDisabled {
        return;
      }
      seen := EnsureThreadInfo();
      ghost var chunks1, flushed1 := storage.chunks, flushed;
      var uuid := GetOrCreateCounterTrackUuid(name);
      HandedOverTwice(old(storage.chunks), old(flushed), chunks1, flushed1, storage.chunks, flushed);
      ghost var chunks2, flushed2 := storage.chunks, flushed;
      ghost var info := InfoAccesses(me, old(CATEGORY in categories), old(needThreadId));
      PlusTwice(old(Ledger()), info, seen.first, []);
      PlusTwice(old(Ledger()).Plus(info, seen.first), [], false, []);
      AddValue(name, uuid, value, Timestamp(boot));
      HandedOverTwice(old(storage.chunks), old(flushed), chunks2, flushed2, storage.chunks, flushed);
    }

    /** Everything in the buffer goes to the storage, and the context is as new. */
    method Save() returns (info: SavedTraceInfo)
      requires Valid()
      modifies this
      ensures Valid() && State().Fresh() && traceBuffer == null && flushed == [] && current == []
      ensures info.data != null ==> storage.Holds(info, old(Chunk())) && info.data !in storage.repr
      ensures info.data == null ==> old(current) == []
      ensures Local() == File.Moved(0, old(Local()), File.HandOver(me), false).(first := false, recorded := [])
      ensures (if info.data == null then [] else [old(Chunk())]) == File.Passed(0, old(Local()), File.HandOver(me))
    {
      info := SaveLocked(false);
    }
  }
}
