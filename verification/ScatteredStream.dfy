/**
  * The chunked byte stream: a writer over memory slices that are handed out by a heap buffer.
  * Slices are real arrays; a slice that is left early keeps an unused tail, and reserved bytes are
  * written later through a pointer. The whole refines an append-only log of bytes.
  */
module ScatteredStream {
  import opened WireFormat
  import opened ProtoFields

  // ---------- Sequences of ranges ----------

  function Flatten(rs: seq<seq<byte>>): (s: seq<byte>) {
    if rs == [] then [] else Flatten(rs[..|rs| - 1]) + rs[|rs| - 1]
  }

  /** Overwriting the bytes at `pos` and nothing else. */
  function Patch(s: seq<byte>, pos: nat, bytes: seq<byte>): (r: seq<byte>)
    requires pos + |bytes| <= |s|
    ensures |r| == |s|
  {
    s[..pos] + bytes + s[pos + |bytes|..]
  }

  lemma {:induction false} FlattenEmpty()
    ensures Flatten([]) == []
  {
  }

  lemma {:induction false} FlattenSnoc(rs: seq<seq<byte>>, r: seq<byte>)
    ensures Flatten(rs + [r]) == Flatten(rs) + r
  {
    assert (rs + [r])[..|rs|] == rs;
  }

  lemma {:induction false} FlattenLast(rs: seq<seq<byte>>, r: seq<byte>)
    requires rs != []
    ensures Flatten(rs[|rs| - 1 := rs[|rs| - 1] + r]) == Flatten(rs) + r
  {
    var n := |rs| - 1;
    assert rs[n := rs[n] + r][..n] == rs[..n];
  }

  lemma {:induction false} FlattenPrefix(rs: seq<seq<byte>>, k: nat)
    requires k <= |rs|
    ensures |Flatten(rs[..k])| <= |Flatten(rs)|
    ensures k < |rs| ==> |Flatten(rs[..k])| + |rs[k]| <= |Flatten(rs)|
  {
    var n := |rs| - 1;
    if k < n {
      FlattenPrefix(rs[..n], k);
      assert rs[..n][..k] == rs[..k];
    } else if k > n {
      assert rs[..k] == rs;
    }
  }

  /** A patch inside one range patches the log at the range's offset. */
  lemma {:induction false} FlattenPatch(rs: seq<seq<byte>>, k: nat, off: nat, bytes: seq<byte>)
    requires k < |rs| && off + |bytes| <= |rs[k]|
    ensures |Flatten(rs[..k])| + off + |bytes| <= |Flatten(rs)|
    ensures Flatten(rs[k := Patch(rs[k], off, bytes)]) == Patch(Flatten(rs), |Flatten(rs[..k])| + off, bytes)
  {
    var n := |rs| - 1;
    var rs' := rs[k := Patch(rs[k], off, bytes)];
    FlattenPrefix(rs, k);
    if k == n {
      assert rs'[..n] == rs[..n];
      var a := Flatten(rs[..n]);
      assert a + Patch(rs[n], off, bytes) == Patch(a + rs[n], |a| + off, bytes);
    } else {
      FlattenPatch(rs[..n], k, off, bytes);
      assert rs'[..n] == rs[..n][k := Patch(rs[k], off, bytes)];
      assert rs[..n][..k] == rs[..k];
    }
  }

  // ---------- Slices ----------

  /** A slice of heap memory; the last `unused` bytes were never handed to the log. */
  datatype Slice = Slice(buffer: array<byte>, unused: nat)

  datatype Option<+T> = None | Some(value: T)

  /** A slice as the log sees it: the first `used` bytes of its memory. */
  datatype Extent = Extent(buffer: array<byte>, used: nat)

  /** A live slice: four-byte reservations need at least four bytes. */
  ghost predicate GoodSlice(s: Slice) {
    s.unused <= s.buffer.Length && MESSAGE_LENGTH_FIELD_SIZE <= s.buffer.Length
  }

  /** The last slice is used up to the writer's position, the others up to their recorded tails. */
  ghost function ExtentsOf(slices: seq<Slice>, lastUsed: nat): (es: seq<Extent>)
    requires forall i :: 0 <= i < |slices| ==> GoodSlice(slices[i])
    ensures |es| == |slices|
  {
    seq(|slices|, i requires 0 <= i < |slices| =>
      assert GoodSlice(slices[i]);
      Extent(slices[i].buffer, if i == |slices| - 1 then lastUsed else slices[i].buffer.Length - slices[i].unused))
  }

  ghost predicate Inside(es: seq<Extent>, memory: set<array<byte>>) {
    forall e <- es :: e.used <= e.buffer.Length && e.buffer in memory
  }

  ghost function RangesOf(es: seq<Extent>, memory: set<array<byte>>): (rs: seq<seq<byte>>)
    requires Inside(es, memory)
    reads memory
    ensures |rs| == |es| && forall i :: 0 <= i < |es| ==> rs[i] == es[i].buffer[..es[i].used]
  {
    if es == [] then []
    else RangesOf(es[..|es| - 1], memory) + [es[|es| - 1].buffer[..es[|es| - 1].used]]
  }

  /** How the extents may change: more slices, and a longer use of the last one. */
  ghost predicate Extends(a: seq<Extent>, b: seq<Extent>) {
    && |a| <= |b|
    && (forall k :: 0 <= k < |a| ==> b[k].buffer == a[k].buffer && a[k].used <= b[k].used)
    && (forall k :: 0 <= k < |a| - 1 ==> b[k].used == a[k].used)
  }

  function UsedTotal(es: seq<Extent>): nat {
    if es == [] then 0 else UsedTotal(es[..|es| - 1]) + es[|es| - 1].used
  }

  /** A reserved slot: `size` contiguous bytes of slice `k`, at `pos` in the log. */
  ghost predicate SlotAt(es: seq<Extent>, buf: array<byte>, off: nat, k: nat, size: nat, pos: nat) {
    && k < |es| && es[k].buffer == buf
    && off + size <= es[k].used
    && pos == UsedTotal(es[..k]) + off
  }

  lemma {:induction false} UsedTotalOfExtension(a: seq<Extent>, b: seq<Extent>, k: nat)
    requires Extends(a, b) && k < |a|
    ensures UsedTotal(a[..k]) == UsedTotal(b[..k])
  {
    if k > 0 {
      UsedTotalOfExtension(a, b, k - 1);
      assert a[..k][..k - 1] == a[..k - 1] && b[..k][..k - 1] == b[..k - 1];
    }
  }

  /** A slot keeps its place in the log however the stream grows. */
  lemma {:induction false} SlotIsStable(
    a: seq<Extent>, b: seq<Extent>, buf: array<byte>, off: nat, k: nat, size: nat, pos: nat)
    requires Extends(a, b) && SlotAt(a, buf, off, k, size, pos)
    ensures SlotAt(b, buf, off, k, size, pos)
  {
    UsedTotalOfExtension(a, b, k);
  }

  lemma {:induction false} UsedTotalIsLength(es: seq<Extent>, rs: seq<seq<byte>>, k: nat)
    requires |es| == |rs| && k <= |es|
    requires forall i :: 0 <= i < |es| ==> |rs[i]| == es[i].used
    ensures UsedTotal(es[..k]) == |Flatten(rs[..k])|
  {
    if k > 0 {
      UsedTotalIsLength(es, rs, k - 1);
      assert es[..k][..k - 1] == es[..k - 1];
      assert rs[..k][..k - 1] == rs[..k - 1];
    }
  }

  lemma {:induction false} UsedTotalSplit(es: seq<Extent>)
    requires es != []
    ensures UsedTotal(es) == UsedTotal(es[..|es| - 1]) + es[|es| - 1].used
  {
  }

  lemma {:induction false} UsedTotalLast(es: seq<Extent>, e: Extent)
    requires es != []
    ensures UsedTotal(es[|es| - 1 := e]) == UsedTotal(es) - es[|es| - 1].used + e.used
  {
    assert es[|es| - 1 := e][..|es| - 1] == es[..|es| - 1];
  }

  lemma {:induction false} ExtendsReflexive(a: seq<Extent>)
    ensures Extends(a, a)
  {
  }

  lemma {:induction false} ExtendsTransitive(a: seq<Extent>, b: seq<Extent>, c: seq<Extent>)
    requires Extends(a, b) && Extends(b, c)
    ensures Extends(a, c)
  {
  }

  // ---------- The heap buffer ----------

  class ScatteredHeapBuffer {
    var nextSliceSize: nat
    const initialSliceSize: nat
    const maximumSliceSize: nat
    var slices: seq<Slice>
    var cachedSlice: Option<Slice>

    /** All memory ever handed out by this buffer. */
    ghost var memory: set<array<byte>>

    ghost predicate Valid()
      reads this
    {
      && MESSAGE_LENGTH_FIELD_SIZE <= nextSliceSize <= maximumSliceSize
      && (forall i :: 0 <= i < |slices| ==> GoodSlice(slices[i]) && slices[i].buffer in memory)
      && (forall i, j :: 0 <= i < j < |slices| ==> slices[i].buffer != slices[j].buffer)
      && (cachedSlice.Some? ==>
            && GoodSlice(cachedSlice.value) && cachedSlice.value.buffer in memory
            && cachedSlice.value.buffer.Length == initialSliceSize
            && forall i :: 0 <= i < |slices| ==> slices[i].buffer != cachedSlice.value.buffer)
      && (slices != [] ==> slices[0].buffer.Length == initialSliceSize)
      && (slices == [] && cachedSlice == None ==> nextSliceSize == initialSliceSize)
    }

    /** The source asks for non-zero slice sizes; reservations of four bytes need slices of at least four. */
    constructor (initial: nat, maximum: nat)
      requires MESSAGE_LENGTH_FIELD_SIZE <= initial <= maximum
      ensures Valid() && slices == [] && cachedSlice == None && memory == {}
      ensures nextSliceSize == initialSliceSize == initial && maximumSliceSize == maximum
    {
      nextSliceSize, initialSliceSize, maximumSliceSize := initial, initial, maximum;
      slices, cachedSlice, memory := [], None, {};
    }

    /** Records how much of the current slice the writer left free. */
    method AdjustUsedSizeOfCurrentSlice(bytesAvailable: nat)
      requires Valid()
      requires slices != [] ==> bytesAvailable <= slices[|slices| - 1].buffer.Length
      modifies this`slices
      ensures Valid()
      ensures slices == if old(slices) == [] then []
                        else old(slices)[|old(slices)| - 1 :=
                            Slice(old(slices)[|old(slices)| - 1].buffer, bytesAvailable)]
    {
      if slices != [] {
        var n := |slices| - 1;
        slices := slices[n := slices[n].(unused := bytesAvailable)];
      }
    }

    /** The size of the slice handed out next. */
    function NextRoom(): nat
      reads this
    {
      if cachedSlice.Some? then cachedSlice.value.buffer.Length else nextSliceSize
    }

    /** A fresh slice, or the cached one, for the writer to fill; the next size doubles up to the maximum. */
    method GetNewBuffer(bytesAvailable: nat) returns (range: array<byte>)
      requires Valid()
      requires slices != [] ==> bytesAvailable <= slices[|slices| - 1].buffer.Length
      modifies this
      ensures Valid() && memory == old(memory) + {range} && (range in old(memory) || fresh(range))
      ensures |slices| == |old(slices)| + 1 && slices[|old(slices)|].buffer == range
      ensures forall i :: 0 <= i < |old(slices)| - 1 ==> slices[i] == old(slices)[i]
      ensures old(slices) != [] ==>
                slices[|old(slices)| - 1] == Slice(old(slices)[|old(slices)| - 1].buffer, bytesAvailable)
      ensures range.Length == old(NextRoom()) >= MESSAGE_LENGTH_FIELD_SIZE
      ensures nextSliceSize == maximumSliceSize || nextSliceSize == 2 * old(nextSliceSize) < maximumSliceSize
    {
      AdjustUsedSizeOfCurrentSlice(bytesAvailable);
      if cachedSlice.Some? {
        slices := slices + [cachedSlice.value];
        memory := memory + {cachedSlice.value.buffer};
        cachedSlice := None;
      } else {
        var block := new byte[nextSliceSize];
        slices := slices + [Slice(block, nextSliceSize)];
        memory := memory + {block};
      }
      nextSliceSize := if maximumSliceSize < nextSliceSize * 2 then maximumSliceSize else nextSliceSize * 2;
      range := slices[|slices| - 1].buffer;
    }

    /** Forgets the contents but keeps the first slice's memory for reuse. */
    method Reset()
      requires Valid()
      modifies this`slices, this`cachedSlice
      ensures Valid() && slices == []
      ensures old(slices) != [] ==> cachedSlice == Some(Slice(old(slices)[0].buffer, old(slices)[0].buffer.Length))
    {
      if slices != [] {
        cachedSlice := Some(Slice(slices[0].buffer, slices[0].buffer.Length));
        slices := [];
      }
    }
  }

  /** Copies the used parts of slices one after the other. */
  method JoinSlices(slices: seq<Slice>, ghost rs: seq<seq<byte>>) returns (buffer: seq<byte>)
    requires |rs| == |slices|
    requires forall i :: 0 <= i < |slices| ==>
               GoodSlice(slices[i]) && rs[i] == slices[i].buffer[..slices[i].buffer.Length - slices[i].unused]
    ensures buffer == Flatten(rs)
  {
    hide Flatten;
    assert Flatten([]) == [] by { FlattenEmpty(); }
    buffer := [];
    assert rs[..0] == [];
    for i := 0 to |slices|
      invariant buffer == Flatten(rs[..i])
    {
      buffer := buffer + slices[i].buffer[..slices[i].buffer.Length - slices[i].unused];
      assert rs[..i + 1] == rs[..i] + [rs[i]];
      FlattenSnoc(rs[..i], rs[i]);
    }
    assert rs[..|rs|] == rs;
  }

  // ---------- The writer ----------

  class ScatteredStreamWriter {
    const delegate: ScatteredHeapBuffer
    /** The whole memory of the current slice, or null before the first write. */
    var curRange: array?<byte>
    var writePtr: nat
    var writtenPreviously: nat
    /** Bytes logged before the last reset of the stream. */
    ghost var retired: nat

    /** The writer points into the last slice. */
    ghost predicate Connected()
      reads this, delegate
      ensures Connected() ==> delegate.Valid()
    {
      && delegate.Valid()
      && (curRange == null ==> writePtr == 0 && delegate.slices == [])
      && (curRange != null ==>
            && delegate.slices != []
            && curRange == delegate.slices[|delegate.slices| - 1].buffer
            && writePtr <= curRange.Length)
      && writtenPreviously + writePtr == retired + UsedTotal(Extents())
    }

    /** A second slice is taken only for bytes that do not fit in the first one. */
    ghost predicate Valid()
      reads this, delegate
      ensures Valid() ==> delegate.Valid() && Connected()
    {
      Connected() && (|delegate.slices| >= 2 ==> delegate.initialSliceSize < UsedTotal(Extents()))
    }

    ghost function Extents(): (es: seq<Extent>)
      requires delegate.Valid()
      reads this, delegate
    {
      ExtentsOf(delegate.slices, writePtr)
    }

    ghost function Ranges(): (rs: seq<seq<byte>>)
      requires Connected()
      reads this, delegate, delegate.memory
    {
      RangesOf(Extents(), delegate.memory)
    }

    /** The logical bytes of the stream. */
    ghost function Log(): seq<byte>
      requires Connected()
      reads this, delegate, delegate.memory
    {
      Flatten(Ranges())
    }

    constructor (d: ScatteredHeapBuffer)
      requires d.Valid() && d.slices == []
      ensures Valid() && delegate == d && Log() == [] && Extents() == [] && retired == 0
    {
      delegate, curRange, writePtr := d, null, 0;
      writtenPreviously, retired := 0, 0;
    }

    function End(): nat
      reads this
    {
      if curRange == null then 0 else curRange.Length
    }

    function BytesAvailable(): nat
      requires writePtr <= End()
      reads this
    {
      End() - writePtr
    }

    /** `written()` is the length of the log, plus what was logged before a reset. */
    function Written(): (n: nat)
      requires Valid()
      reads this, delegate, delegate.memory
      ensures n == retired + |Log()|
    {
      UsedTotalIsLength(Extents(), Ranges(), |Extents()|);
      assert Extents()[..|Extents()|] == Extents() && Ranges()[..|Extents()|] == Ranges();
      writtenPreviously + writePtr
    }

    lemma {:induction false} FirstSlice()
      requires Connected() && |delegate.slices| == 1
      ensures UsedTotal(Extents()) == writePtr && End() == delegate.initialSliceSize
    {
      UsedTotalSplit(Extents());
      assert Extents()[..0] == [];
    }

    /** So the first slice is the only one until the log outgrows it. */
    lemma {:induction false} SlicesNeeded()
      requires Valid()
      ensures |delegate.slices| >= 2 ==> delegate.initialSliceSize < |Log()|
      ensures Log() != [] ==> delegate.slices != []
    {
      hide UsedTotal, Flatten;
      UsedTotalIsLength(Extents(), Ranges(), |Extents()|);
      assert Extents()[..|Extents()|] == Extents() && Ranges()[..|Extents()|] == Ranges();
      if delegate.slices == [] {
        assert Ranges() == [];
        FlattenEmpty();
      }
    }

    /** Moves on to a new slice; the free tail of the old one never enters the log. */
    method Extend()
      requires Valid()
      modifies this, delegate, delegate.memory
      ensures Connected() && fresh(delegate.memory - old(delegate.memory)) && retired == old(retired)
      ensures curRange != null && writePtr == 0
      ensures BytesAvailable() == old(delegate.NextRoom()) >= MESSAGE_LENGTH_FIELD_SIZE
      ensures Log() == old(Log()) && Extends(old(Extents()), Extents())
      ensures |delegate.slices| >= 2 ==>
                delegate.initialSliceSize <= UsedTotal(Extents()) + old(BytesAvailable())
    {
      hide UsedTotal, RangesOf, Flatten, Extends;
      ghost var before, ranges := Extents(), Ranges();
      if |delegate.slices| == 1 {
        FirstSlice();
      }
      var range := delegate.GetNewBuffer(BytesAvailable());
      writtenPreviously := writtenPreviously + writePtr;
      curRange := range;
      writePtr := 0;
      assert Extents() == before + [Extent(range, 0)];
      Attached(before, ranges);
    }

    /** A new, still empty slice at the end adds nothing to the log. */
    ghost method Attached(before: seq<Extent>, ranges: seq<seq<byte>>)
      requires delegate.Valid() && curRange != null && delegate.slices != [] && writePtr == 0
      requires curRange == delegate.slices[|delegate.slices| - 1].buffer
      requires Extents() == before + [Extent(curRange, 0)]
      requires |ranges| == |before|
      requires forall i :: 0 <= i < |before| ==> before[i].used <= before[i].buffer.Length
      requires forall i :: 0 <= i < |before| ==> ranges[i] == before[i].buffer[..before[i].used]
      requires writtenPreviously == retired + UsedTotal(before)
      ensures Connected() && Log() == Flatten(ranges) && Extends(before, Extents())
      ensures UsedTotal(Extents()) == UsedTotal(before)
    {
      assert Extents()[..|before|] == before;
      UsedTotalSplit(Extents());
      assert Ranges() == ranges + [[]];
      FlattenSnoc(ranges, []);
    }

    /** Moves the write pointer over `n` bytes of the current slice whose contents are already in place. */
    ghost method Grown(n: nat, before: seq<Extent>, ranges: seq<seq<byte>>, src: seq<byte>)
      requires delegate.Valid() && curRange != null && delegate.slices != []
      requires curRange == delegate.slices[|delegate.slices| - 1].buffer
      requires |src| == n <= writePtr <= curRange.Length
      requires before == ExtentsOf(delegate.slices, writePtr - n)
      requires |ranges| == |before| && ranges[|ranges| - 1] == curRange[..writePtr - n]
      requires forall i :: 0 <= i < |before| - 1 ==> ranges[i] == before[i].buffer[..before[i].used]
      requires curRange[writePtr - n..writePtr] == src
      requires writtenPreviously + writePtr - n == retired + UsedTotal(before)
      ensures Connected() && Log() == Flatten(ranges) + src && Extends(before, Extents())
      ensures UsedTotal(Extents()) == UsedTotal(before) + n
    {
      var m := |before| - 1;
      assert Extents() == before[m := Extent(curRange, writePtr)];
      UsedTotalLast(before, Extent(curRange, writePtr));
      assert curRange[..writePtr] == ranges[m] + src;
      assert Ranges() == ranges[m := ranges[m] + src];
      FlattenLast(ranges, src);
    }

    method WriteByte(value: byte)
      requires Valid()
      modifies this, delegate, delegate.memory
      ensures Valid() && fresh(delegate.memory - old(delegate.memory)) && retired == old(retired)
      ensures Log() == old(Log()) + [value] && Extends(old(Extents()), Extents())
    {
      hide UsedTotal, RangesOf, Flatten, ScatteredStreamWriter.Log, ScatteredStreamWriter.Extents;
      ghost var start := Extents();
      if writePtr >= End() {
        Extend();
      }
      ghost var middle := Extents();
      WriteBytesUnsafe([value]);
      ExtendsTransitive(start, middle, Extents());
    }

    /** Assumes that the caller checked that there is enough headroom. */
    method WriteBytesUnsafe(src: seq<byte>)
      requires Connected() && writePtr + |src| <= End()
      modifies this, delegate, delegate.memory
      ensures Connected() && delegate.memory == old(delegate.memory) && retired == old(retired)
      ensures delegate.slices == old(delegate.slices) && UsedTotal(Extents()) == old(UsedTotal(Extents())) + |src|
      ensures Log() == old(Log()) + src && Extends(old(Extents()), Extents())
    {
      hide UsedTotal, RangesOf, Flatten, Extends;
      if curRange == null {
        assert src == [] && Log() + [] == Log();
        ExtendsReflexive(Extents());
        return;
      }
      ghost var before, ranges := Extents(), Ranges();
      var end := CopyBytes(src, curRange, writePtr);
      assert forall i :: 0 <= i < |before| - 1 ==> ranges[i] == before[i].buffer[..before[i].used];
      writePtr := end;
      Grown(|src|, before, ranges, src);
    }

    method WriteBytes(src: seq<byte>)
      requires Valid()
      modifies this, delegate, delegate.memory
      ensures Valid() && fresh(delegate.memory - old(delegate.memory)) && retired == old(retired)
      ensures Log() == old(Log()) + src && Extends(old(Extents()), Extents())
    {
      if writePtr + |src| <= End() {
        WriteBytesUnsafe(src);
      } else {
        WriteBytesSlowPath(src);
      }
    }

    /** Writes in bursts, as much as fits in each slice. */
    method WriteBytesSlowPath(src: seq<byte>)
      requires Valid()
      modifies this, delegate, delegate.memory
      ensures Valid() && fresh(delegate.memory - old(delegate.memory)) && retired == old(retired)
      ensures Log() == old(Log()) + src && Extends(old(Extents()), Extents())
    {
      hide UsedTotal, ExtentsOf, RangesOf, Flatten, Extends, ScatteredStreamWriter.Log;
      hide ScatteredStreamWriter.Extents;
      var bytesLeft := |src|;
      ghost var log, extents := Log(), Extents();
      ExtendsReflexive(extents);
      assert src[..0] == [] && log + [] == log;
      while bytesLeft > 0
        invariant Valid() && fresh(delegate.memory - old(delegate.memory)) && retired == old(retired)
        invariant 0 <= bytesLeft <= |src|
        invariant Log() == log + src[..|src| - bytesLeft]
        invariant Extends(extents, Extents())
      {
        ghost var step := Extents();
        if writePtr >= End() {
          Extend();
          ExtendsTransitive(extents, step, Extents());
          step := Extents();
        }
        var burst := if BytesAvailable() < bytesLeft then BytesAvailable() else bytesLeft;
        var at := |src| - bytesLeft;
        WriteBytesUnsafe(src[at..at + burst]);
        ExtendsTransitive(extents, step, Extents());
        assert src[..at + burst] == src[..at] + src[at..at + burst];
        bytesLeft := bytesLeft - burst;
      }
      assert src[..|src|] == src;
    }

    /** Reserves bytes in the current slice; the caller has checked that they fit. */
    method ReserveBytesUnsafe(size: nat) returns (buf: array<byte>, off: nat, ghost k: nat)
      requires Connected() && curRange != null && writePtr + size <= End()
      modifies this`writePtr
      ensures Connected() && delegate.memory == old(delegate.memory)
      ensures UsedTotal(Extents()) == old(UsedTotal(Extents())) + size
      ensures old(Log()) <= Log() && |Log()| == |old(Log())| + size
      ensures Extends(old(Extents()), Extents())
      ensures SlotAt(Extents(), buf, off, k, size, |old(Log())|)
    {
      hide UsedTotal, RangesOf, Flatten;
      ghost var before, ranges := Extents(), Ranges();
      k := |before| - 1;
      UsedTotalSplit(before);
      UsedTotalIsLength(before, ranges, |before|);
      assert before[..|before|] == before && ranges[..|ranges|] == ranges;
      buf, off := curRange, writePtr;
      writePtr := writePtr + size;
      Grown(size, before, ranges, curRange[off..writePtr]);
      assert before[..k] == Extents()[..k];
    }

    /**
      * Reserves bytes to be written later. They lie in one slice; what they hold until then is
      * whatever the memory held.
      */
    method ReserveBytes(size: nat) returns (buf: array<byte>, off: nat, ghost k: nat)
      requires Valid() && 1 <= size
      requires writePtr + size <= End() || size <= MESSAGE_LENGTH_FIELD_SIZE || size <= delegate.NextRoom()
      modifies this, delegate, delegate.memory
      ensures Valid() && fresh(delegate.memory - old(delegate.memory)) && retired == old(retired)
      ensures old(Log()) <= Log() && |Log()| == |old(Log())| + size
      ensures Extends(old(Extents()), Extents())
      ensures SlotAt(Extents(), buf, off, k, size, |old(Log())|)
    {
      hide UsedTotal, RangesOf, Flatten, ScatteredStreamWriter.Log, ScatteredStreamWriter.Extents;
      ghost var start := Extents();
      if writePtr + size > End() {
        Extend();
      }
      ghost var middle := Extents();
      buf, off, k := ReserveBytesUnsafe(size);
      ExtendsTransitive(start, middle, Extents());
    }

    /** Fills a reserved slot: only its own four bytes of the log change. */
    method Backfill(buf: array<byte>, off: nat, ghost k: nat, ghost pos: nat, value: u32)
      requires Valid() && SlotAt(Extents(), buf, off, k, MESSAGE_LENGTH_FIELD_SIZE, pos)
      modifies this, delegate, delegate.memory
      ensures Valid() && delegate.memory == old(delegate.memory) && retired == old(retired)
      ensures Extents() == old(Extents())
      ensures pos + MESSAGE_LENGTH_FIELD_SIZE <= |old(Log())|
      ensures Log() == Patch(old(Log()), pos, RedundantVarInt(value))
    {
      hide UsedTotal, Flatten, RedundantVarInt;
      ghost var es, ranges := Extents(), Ranges();
      WriteRedundantVarInt(value, buf, off);
      ghost var bytes := RedundantVarInt(value);
      ghost var after := Ranges();
      assert after[k] == Patch(ranges[k], off, bytes);
      assert forall i :: 0 <= i < |es| && i != k ==> after[i] == ranges[i];
      assert after == ranges[k := Patch(ranges[k], off, bytes)];
      FlattenPatch(ranges, k, off, bytes);
      UsedTotalIsLength(es, ranges, k);
    }

    /** Brings the current slice's record up to date with the writer. The log does not change. */
    method AdjustCurrentSlice()
      requires Valid()
      modifies delegate`slices
      ensures Valid() && Extents() == old(Extents()) && Log() == old(Log())
      ensures |delegate.slices| == |Ranges()|
      ensures forall i :: 0 <= i < |delegate.slices| ==>
                var s := delegate.slices[i];
                GoodSlice(s) && Ranges()[i] == s.buffer[..s.buffer.Length - s.unused]
    {
      hide UsedTotal, RangesOf, Flatten;
      delegate.AdjustUsedSizeOfCurrentSlice(BytesAvailable());
      assert Extents() == old(Extents());
    }

    /** Joins the used parts of all slices. */
    method StitchSlices() returns (buffer: seq<byte>)
      requires Valid()
      modifies delegate`slices
      ensures Valid() && Extents() == old(Extents())
      ensures buffer == Log() == old(Log())
    {
      hide UsedTotal, RangesOf, Flatten, ScatteredHeapBuffer.Valid;
      hide ScatteredStreamWriter.Valid, ScatteredStreamWriter.Extents, ScatteredStreamWriter.Ranges;
      AdjustCurrentSlice();
      buffer := JoinSlices(delegate.slices, Ranges());
    }

    /** Starts over on the same memory: the heap buffer is emptied, then the writer is detached from it. */
    method Reset()
      requires Valid()
      modifies this, delegate
      ensures Valid() && delegate.memory == old(delegate.memory) && Log() == [] && Extents() == []
      ensures retired == old(retired) + |old(Log())| && Written() == old(Written())
    {
      ghost var total := Written();
      delegate.Reset();
      writtenPreviously := writtenPreviously + writePtr;
      curRange, writePtr := null, 0;
      retired := total;
      assert Extents() == [] && Ranges() == [];
    }
  }
}
