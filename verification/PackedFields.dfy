/**
  * Packed repeated fields: the growing buffer that accumulates elements and the look-ahead iterator
  * over the payload they end up in.
  */
module PackedFields {
  import opened WireFormat
  import opened ProtoFields

  datatype Element = PackedVarInt | PackedFixed32 | PackedFixed64 {
    /** Step of a fixed-size element; 0 for varints. */
    function Width(): nat {
      match this
      case PackedVarInt => 0
      case PackedFixed32 => 4
      case PackedFixed64 => 8
    }

    /** A payload of `n` bytes is a whole number of fixed-size elements. */
    predicate Whole(n: nat) {
      match this
      case PackedVarInt => true
      case PackedFixed32 => n % 4 == 0
      case PackedFixed64 => n % 8 == 0
    }

    predicate Fits(v: u64) { PackedFixed32? ==> v < U32 }

    function Bytes(v: u64): (s: seq<byte>)
      ensures 1 <= |s| <= MAX_ELEMENT_SIZE
    {
      VarIntBounds(v);
      if PackedVarInt? then VarInt(v) else Fixed(v, Width())
    }
  }

  const MAX_ELEMENT_SIZE := 10
  const ON_STACK_STORAGE_SIZE := 8192 - 32

  function Pack(e: Element, vs: seq<u64>): seq<byte> {
    if vs == [] then [] else e.Bytes(vs[0]) + Pack(e, vs[1..])
  }

  lemma {:induction false} PackOfNothing(e: Element, vs: seq<u64>)
    requires vs == []
    ensures Pack(e, vs) == []
  {
  }

  lemma {:induction false} PackSnoc(e: Element, vs: seq<u64>, v: u64)
    ensures Pack(e, vs + [v]) == Pack(e, vs) + e.Bytes(v)
  {
    if vs == [] {
      assert ([] + [v])[1..] == [];
    } else {
      assert (vs + [v])[1..] == vs[1..] + [v];
      PackSnoc(e, vs[1..], v);
    }
  }

  function AlignUp4096(n: nat): (r: nat)
    ensures n <= r < n + 4096 && r % 4096 == 0
  {
    (n + 4095) / 4096 * 4096
  }

  /** The accumulation buffer: a fixed on-stack area first, then heap buffers that grow. */
  class PackedBuffer {
    const stackBuf: array<byte>
    var storage: array<byte>
    var writePtr: nat

    ghost predicate Valid()
      reads this
    {
      && stackBuf.Length == ON_STACK_STORAGE_SIZE
      && ON_STACK_STORAGE_SIZE <= storage.Length
      && writePtr <= storage.Length
    }

    ghost function Contents(): seq<byte>
      requires Valid()
      reads this, storage
    {
      storage[..writePtr]
    }

    constructor ()
      ensures Valid() && fresh(storage) && fresh(stackBuf) && Contents() == []
    {
      var buf := new byte[ON_STACK_STORAGE_SIZE];
      stackBuf, storage, writePtr := buf, buf, 0;
    }

    method Reset()
      requires Valid()
      modifies this`storage, this`writePtr
      ensures Valid() && storage == stackBuf && Contents() == []
    {
      storage, writePtr := stackBuf, 0;
    }

    method GrowSlowpath()
      requires Valid()
      modifies this`storage
      ensures Valid() && fresh(storage) && Contents() == old(Contents())
      ensures storage.Length >= old(storage.Length) + old(storage.Length) / 2
    {
      var oldSize := storage.Length;
      var newSize := if oldSize < 65536 then oldSize * 2 else oldSize * 3 / 2;
      newSize := AlignUp4096(newSize);
      var newBuf := new byte[newSize];
      forall i | 0 <= i < oldSize {
        newBuf[i] := storage[i];
      }
      storage := newBuf;
    }

    /** Every append starts with room for the largest element. */
    method GrowIfNeeded()
      requires Valid()
      modifies this`storage
      ensures Valid() && (storage == old(storage) || fresh(storage)) && Contents() == old(Contents())
      ensures storage.Length - writePtr >= MAX_ELEMENT_SIZE
    {
      if writePtr + MAX_ELEMENT_SIZE > storage.Length {
        GrowSlowpath();
      }
    }

    method Append(e: Element, value: u64)
      requires Valid()
      modifies this`storage, this`writePtr, storage
      ensures Valid() && (storage == old(storage) || fresh(storage))
      ensures Contents() == old(Contents()) + e.Bytes(value)
    {
      hide VarInt, Fixed;
      GrowIfNeeded();
      ghost var before := Contents();
      ghost var bytes := e.Bytes(value);
      var next;
      if e.PackedVarInt? {
        next := WriteVarInt(value, storage, writePtr);
      } else {
        next := CopyBytes(Fixed(value, e.Width()), storage, writePtr);
      }
      assert storage[..writePtr] == before;
      assert storage[..next] == storage[..writePtr] + storage[writePtr..next];
      writePtr := next;
    }

    /** Appending a whole sequence, through any number of growths, leaves exactly its packed bytes. */
    method AppendAll(e: Element, vs: seq<u64>)
      requires Valid()
      modifies this`storage, this`writePtr, storage
      ensures Valid() && (storage == old(storage) || fresh(storage))
      ensures Contents() == old(Contents()) + Pack(e, vs)
    {
      hide Pack, Element.Bytes;
      assert Pack(e, vs[..0]) == [] by { PackOfNothing(e, vs[..0]); }
      assert old(Contents()) + [] == old(Contents());
      for i := 0 to |vs|
        invariant Valid() && (storage == old(storage) || fresh(storage))
        invariant Contents() == old(Contents()) + Pack(e, vs[..i])
      {
        PackSnoc(e, vs[..i], vs[i]);
        assert vs[..i + 1] == vs[..i] + [vs[i]];
        assert old(Contents()) + (Pack(e, vs[..i]) + e.Bytes(vs[i])) ==
            (old(Contents()) + Pack(e, vs[..i])) + e.Bytes(vs[i]);
        Append(e, vs[i]);
      }
      assert vs[..|vs|] == vs;
    }
  }

  // ---------- Reading a payload ----------

  datatype Unpacked = Unpacked(values: seq<u64>, parseError: bool)

  /** The element at the start of `s` and its size. */
  function NextElement(e: Element, s: seq<byte>): (r: ParsedVarInt)
    ensures r.VarIntOf? ==> 1 <= r.size <= |s|
    ensures e.PackedVarInt? ==> r == ParseVarInt(s)
    ensures !e.PackedVarInt? ==> (r.VarIntOf? <==> |s| >= e.Width()) && (r.VarIntOf? ==> r.size == e.Width())
  {
    if e.PackedVarInt? then ParseVarInt(s)
    else if |s| < e.Width() then NoVarInt
    else FixedValueBound(s[..e.Width()]); Pow256Values(); VarIntOf(FixedValue(s[..e.Width()]), e.Width())
  }

  /** A payload that is not empty has room for an element, and what is left of a whole number of elements is one. */
  lemma {:induction false} WholeStep(e: Element, n: nat)
    requires !e.PackedVarInt? && e.Whole(n) && n > 0
    ensures e.Width() <= n && e.Whole(n - e.Width())
  {
  }

  lemma {:induction false} WholeBehind(e: Element, n: nat, size: nat)
    requires e.Whole(n) && size <= n && (!e.PackedVarInt? ==> size == e.Width())
    ensures e.Whole(n - size)
  {
  }

  lemma {:induction false} FixedElement(e: Element, s: seq<byte>)
    requires !e.PackedVarInt? && e.Width() <= |s|
    ensures FixedValue(s[..e.Width()]) < U64 && NextElement(e, s) == VarIntOf(FixedValue(s[..e.Width()]), e.Width())
  {
    hide FixedValue;
    FixedValueBound(s[..e.Width()]);
    Pow256Values();
  }

  lemma {:induction false} NextElementRoundTrip(e: Element, v: u64, rest: seq<byte>)
    requires e.Fits(v)
    ensures NextElement(e, e.Bytes(v) + rest) == VarIntOf(v, |e.Bytes(v)|)
  {
    hide VarInt, Fixed, FixedValue, ParseVarInt, Pow256;
    var s := e.Bytes(v) + rest;
    Pow256Values();
    match e
    case PackedVarInt =>
      VarIntRoundTrip(v, rest);
    case PackedFixed32 =>
      FixedRoundTrip(v, 4);
      assert s[..4] == Fixed(v, 4);
    case PackedFixed64 =>
      FixedRoundTrip(v, 8);
      assert s[..8] == Fixed(v, 8);
  }

  /** The elements of a payload: everything before the first element that does not parse. */
  function UnpackFrom(e: Element, s: seq<byte>): (r: Unpacked)
    decreases |s|
  {
    if s == [] then Unpacked([], false)
    else
      match NextElement(e, s)
      case NoVarInt => Unpacked([], true)
      case VarIntOf(v, n) =>
        var rest := UnpackFrom(e, s[n..]);
        Unpacked([v] + rest.values, rest.parseError)
  }

  /** A fixed-size payload must be a whole number of elements before any is read. */
  function Unpack(e: Element, s: seq<byte>): Unpacked {
    if !e.Whole(|s|) then Unpacked([], true) else UnpackFrom(e, s)
  }

  /** Ten bytes in a row without an end, or an end that is missing. */
  ghost predicate Unterminated(s: seq<byte>) {
    || (s != [] && s[|s| - 1] >= 128)
    || exists i :: TenFrom(s, i)
  }

  predicate TenFrom(s: seq<byte>, i: int) {
    0 <= i <= |s| - 10 && forall j :: i <= j < i + 10 ==> s[j] >= 128
  }

  lemma {:induction false} TermLenExactly(s: seq<byte>, k: nat)
    ensures var n := TermLen(s, k);
            if n == 0 then forall j :: 0 <= j < k && j < |s| ==> s[j] >= 128
            else n <= |s| && n <= k && s[n - 1] < 128 && forall j :: 0 <= j < n - 1 ==> s[j] >= 128
  {
    if k > 0 && s != [] && s[0] >= 128 {
      TermLenExactly(s[1..], k - 1);
      assert forall j :: 1 <= j < |s| ==> s[j] == s[1..][j - 1];
    }
  }

  lemma {:induction false} UnterminatedBehind(s: seq<byte>, n: nat)
    requires 1 <= n <= 10 && n <= |s| && s[n - 1] < 128
    ensures Unterminated(s) <==> Unterminated(s[n..])
  {
    var rest := s[n..];
    assert forall j :: 0 <= j < |rest| ==> rest[j] == s[j + n];
    if i :| TenFrom(rest, i) {
      assert TenFrom(s, i + n);
    }
    if i :| TenFrom(s, i) {
      assert TenFrom(rest, i - n);
    }
  }

  lemma {:induction false} AllContinue(s: seq<byte>)
    requires s != [] && forall j :: 0 <= j < 10 && j < |s| ==> s[j] >= 128
    ensures Unterminated(s)
  {
    if |s| >= 10 {
      assert TenFrom(s, 0);
    }
  }

  lemma {:induction false} NothingUnterminated(s: seq<byte>)
    requires s == []
    ensures !Unterminated(s)
  {
  }

  lemma {:induction false} VarIntsUnterminated(s: seq<byte>)
    ensures UnpackFrom(PackedVarInt, s).parseError <==> Unterminated(s)
    decreases |s|
  {
    hide Horner, TermLen, TenFrom;
    if s == [] {
      NothingUnterminated(s);
    } else {
      var n := TermLen(s, 10);
      TermLenExactly(s, 10);
      if n == 0 {
        AllContinue(s);
      } else {
        VarIntsUnterminated(s[n..]);
        UnterminatedBehind(s, n);
      }
    }
  }

  lemma {:induction false} FixedNeverFails(e: Element, s: seq<byte>)
    requires !e.PackedVarInt? && e.Whole(|s|)
    ensures !UnpackFrom(e, s).parseError
    decreases |s|
  {
    hide NextElement;
    if s != [] {
      WholeStep(e, |s|);
      FixedElement(e, s);
      FixedNeverFails(e, s[e.Width()..]);
    }
  }

  /**
    * The error flag is set exactly when the payload is not a whole run of elements: its length is no
    * multiple of the element's, or a varint does not end within ten bytes.
    */
  lemma {:induction false} ParseErrorExactly(e: Element, s: seq<byte>)
    ensures Unpack(e, s).parseError <==>
            match e
            case PackedVarInt => Unterminated(s)
            case PackedFixed32 => |s| % 4 != 0
            case PackedFixed64 => |s| % 8 != 0
  {
    hide UnpackFrom;
    match e
    case PackedVarInt => VarIntsUnterminated(s);
    case _ =>
      if e.Whole(|s|) {
        FixedNeverFails(e, s);
      }
  }

  lemma {:induction false} PackedLength(e: Element, vs: seq<u64>)
    ensures e.Whole(|Pack(e, vs)|)
  {
    if vs != [] {
      PackedLength(e, vs[1..]);
    }
  }

  lemma {:induction false} UnpackFromPacked(e: Element, vs: seq<u64>)
    requires forall v <- vs :: e.Fits(v)
    ensures UnpackFrom(e, Pack(e, vs)) == Unpacked(vs, false)
  {
    hide NextElement, Element.Bytes;
    if vs != [] {
      var v, rest := vs[0], Pack(e, vs[1..]);
      UnpackFromPacked(e, vs[1..]);
      NextElementRoundTrip(e, v, rest);
      assert (e.Bytes(v) + rest)[|e.Bytes(v)|..] == rest;
    }
  }

  /** Unpacking undoes packing and reports no error. */
  lemma {:induction false} PackRoundTrip(e: Element, vs: seq<u64>)
    requires forall v <- vs :: e.Fits(v)
    ensures Unpack(e, Pack(e, vs)) == Unpacked(vs, false)
  {
    PackedLength(e, vs);
    UnpackFromPacked(e, vs);
  }

  lemma {:induction false} UnpackStep(e: Element, s: seq<byte>)
    requires s != []
    ensures var q := NextElement(e, s);
            && (q.NoVarInt? ==> UnpackFrom(e, s) == Unpacked([], true))
            && (q.VarIntOf? ==>
                  var rest := UnpackFrom(e, s[q.size..]);
                  UnpackFrom(e, s) == Unpacked([q.value] + rest.values, rest.parseError))
  {
    hide NextElement;
  }

  /** The iterator looks one element ahead of the value it shows. */
  class PackedIterator {
    const element: Element
    const data: seq<byte>
    var readPtr: nat
    var currValue: u64
    var currValueValid: bool
    var parseError: bool

    ghost predicate Valid()
      reads this
    {
      && readPtr <= |data|
      && (parseError ==> !currValueValid)
      && (currValueValid ==> element.Whole(|data| - readPtr))
    }

    /** What the iterator has still to deliver, the current value included. */
    ghost function Remaining(): Unpacked
      requires Valid()
      reads this
    {
      if currValueValid then
        var rest := UnpackFrom(element, data[readPtr..]);
        Unpacked([currValue] + rest.values, rest.parseError)
      else Unpacked([], parseError)
    }

    constructor (e: Element, payload: seq<byte>)
      ensures Valid() && Remaining() == Unpack(e, payload)
    {
      element, data := e, payload;
      readPtr, currValue, currValueValid, parseError := 0, 0, true, false;
      new;
      if |payload| == 0 {
        currValueValid := false;
      } else if (e.PackedFixed32? && |payload| % 4 != 0) || (e.PackedFixed64? && |payload| % 8 != 0) {
        parseError, currValueValid := true, false;
      } else {
        assert data[0..] == payload;
        Advance();
      }
    }

    method Advance()
      requires Valid()
      modifies this
      ensures Valid()
      ensures old(currValueValid) ==> Remaining() == old(UnpackFrom(element, data[readPtr..]))
      ensures !old(currValueValid) ==> Remaining() == old(Remaining())
      ensures readPtr >= old(readPtr)
      ensures old(currValueValid) && currValueValid ==> readPtr > old(readPtr)
      ensures !old(currValueValid) ==> !currValueValid
    {
      if !currValueValid {
        return;
      }
      if readPtr == |data| {
        currValueValid := false;
        return;
      }
      hide Element.Bytes, NextElement, Element.Whole, UnpackFrom;
      ghost var rest := data[readPtr..];
      UnpackStep(element, rest);
      if !element.PackedVarInt? {
        WholeStep(element, |rest|);
      }
      var q := ReadElement(element, data[readPtr..]);
      if q.NoVarInt? {
        parseError, currValueValid := true, false;
      } else {
        var next := readPtr + q.size;
        assert rest[q.size..] == data[next..];
        WholeBehind(element, |rest|, q.size);
        currValue, readPtr := q.value, next;
      }
    }
  }

  /** A varint may fail to parse; a fixed-size element is there, because the payload is a whole number of them. */
  method ReadElement(e: Element, s: seq<byte>) returns (q: ParsedVarInt)
    requires !e.PackedVarInt? ==> e.Width() <= |s|
    ensures q == NextElement(e, s)
  {
    if e.PackedVarInt? {
      q := ParseVarInt(s);
    } else {
      FixedElement(e, s);
      q := VarIntOf(FixedValue(s[..e.Width()]), e.Width());
    }
  }

  /** Running the iterator to its end. */
  method ReadPacked(e: Element, payload: seq<byte>) returns (r: Unpacked)
    ensures r == Unpack(e, payload)
  {
    hide UnpackFrom, Unpack, NextElement;
    var it := new PackedIterator(e, payload);
    var values := [];
    while it.currValueValid
      invariant fresh(it) && it.Valid()
      invariant Unpack(e, payload) == Unpacked(values + it.Remaining().values, it.Remaining().parseError)
      decreases it.currValueValid, |it.data| - it.readPtr
    {
      values := values + [it.currValue];
      it.Advance();
    }
    r := Unpacked(values, it.parseError);
  }

  /** Through the real buffer and the real iterator: what was appended is what is read. */
  method PackThenRead(e: Element, vs: seq<u64>) returns (r: Unpacked)
    requires forall v <- vs :: e.Fits(v)
    ensures r == Unpacked(vs, false)
  {
    var b := new PackedBuffer();
    b.AppendAll(e, vs);
    assert b.Contents() == Pack(e, vs);
    r := ReadPacked(e, b.storage[..b.writePtr]);
    PackRoundTrip(e, vs);
  }
}
