/**
  * The schema-less reader: a cursor over an immutable buffer.
  */
module ProtoDecoder {
  import opened WireFormat
  import opened ProtoFields

  function FirstWithId(fs: seq<Field>, id: nat): Field {
    if fs == [] then INVALID_FIELD else if fs[0].id == id then fs[0] else FirstWithId(fs[1..], id)
  }

  predicate IsZero(f: Field) {
    f.id == 0 && f.value == 0 && f.payload == []
  }

  /** The first field with the id, or all zero if there is none. */
  ghost predicate IsFirstOf(f: Field, fs: seq<Field>, id: nat) {
    && (forall k :: 0 <= k < |fs| && fs[k].id == id && (forall j :: 0 <= j < k ==> fs[j].id != id) ==> f == fs[k])
    && ((forall k :: 0 <= k < |fs| ==> fs[k].id != id) ==> IsZero(f))
  }

  lemma {:induction false} FirstWithIdIs(fs: seq<Field>, id: nat)
    ensures IsFirstOf(FirstWithId(fs, id), fs, id)
  {
    if fs != [] && fs[0].id != id {
      var rest, f := fs[1..], FirstWithId(fs, id);
      FirstWithIdIs(rest, id);
      forall k | 0 <= k < |fs| && fs[k].id == id && (forall j :: 0 <= j < k ==> fs[j].id != id) ensures f == fs[k] {
        assert rest[k - 1] == fs[k];
        assert forall j :: 0 <= j < k - 1 ==> rest[j] == fs[j + 1];
      }
      assert forall j :: 0 <= j < |rest| ==> rest[j] == fs[j + 1];
    }
  }

  class Decoder {
    const buffer: seq<byte>
    var readPtr: nat

    constructor (data: seq<byte>)
      ensures buffer == data && readPtr == 0
    {
      buffer := data;
      readPtr := 0;
    }

    ghost predicate Valid()
      reads this
    {
      readPtr <= |buffer|
    }

    /** What is still to be read. */
    ghost function Rest(): seq<byte>
      requires Valid()
      reads this
    {
      buffer[readPtr..]
    }

    /**
      * Reads the next field, passing over skipped ones. At the end, or at a field that cannot be
      * parsed, returns the invalid field and leaves the cursor where a later read can resume.
      */
    method ReadField() returns (f: Field)
      requires Valid()
      modifies this`readPtr
      ensures Valid() && old(readPtr) <= readPtr
      ensures old(Decode(Rest())) == if f.Valid() then [f] + Decode(Rest()) else []
      ensures old(Consumed(Rest())) == readPtr - old(readPtr) + Consumed(Rest())
      ensures !f.Valid() ==> IsZero(f) && f == INVALID_FIELD && Consumed(Rest()) == 0
      ensures f.Valid() ==> f.WellFormed() && readPtr > old(readPtr)
    {
      hide ParseOneField;
      var res := ParseOneField(buffer[readPtr..]);
      while res.Skip?
        invariant Valid() && old(readPtr) <= readPtr
        invariant res == ParseOneField(Rest())
        invariant Decode(Rest()) == old(Decode(Rest()))
        invariant old(Consumed(Rest())) == readPtr - old(readPtr) + Consumed(Rest())
        decreases |buffer| - readPtr
      {
        assert buffer[readPtr..][res.next..] == buffer[readPtr + res.next..];
        readPtr := readPtr + res.next;
        res := ParseOneField(buffer[readPtr..]);
      }
      match res
      case Abort =>
        f := INVALID_FIELD;
      case Ok(next, field) =>
        assert buffer[readPtr..][next..] == buffer[readPtr + next..];
        readPtr := readPtr + next;
        f := field;
    }

    /** The reading loop: every field from the cursor on, in order; it always ends, inside the buffer. */
    method ReadAll() returns (fs: seq<Field>)
      requires Valid()
      modifies this`readPtr
      ensures Valid() && fs == old(Decode(Rest()))
      ensures readPtr == old(readPtr) + old(Consumed(Rest()))
    {
      hide ParseOneField, Decode, Consumed;
      fs := [];
      var f := ReadField();
      while f.Valid()
        invariant Valid() && old(readPtr) <= readPtr
        invariant old(Decode(Rest())) == fs + (if f.Valid() then [f] + Decode(Rest()) else [])
        invariant old(Consumed(Rest())) == readPtr - old(readPtr) + Consumed(Rest())
        invariant !f.Valid() ==> Consumed(Rest()) == 0
        decreases f.Valid(), |buffer| - readPtr
      {
        fs := fs + [f];
        f := ReadField();
      }
    }

    /** The first field with the given id in the whole buffer; the cursor is put back. */
    method FindField(id: nat) returns (res: Field)
      requires Valid()
      modifies this`readPtr
      ensures readPtr == old(readPtr)
      ensures IsFirstOf(res, Decode(buffer), id)
    {
      hide ParseOneField, Decode, Consumed;
      FirstWithIdIs(Decode(buffer), id);
      res := INVALID_FIELD;
      var oldPosition := readPtr;
      readPtr := 0;
      assert Rest() == buffer;
      var f := ReadField();
      while f.Valid()
        invariant Valid() && res == INVALID_FIELD
        invariant FirstWithId(Decode(buffer), id)
               == FirstWithId(if f.Valid() then [f] + Decode(Rest()) else [], id)
        decreases f.Valid(), |buffer| - readPtr
      {
        if f.id == id {
          res := f;
          break;
        }
        assert ([f] + Decode(Rest()))[1..] == Decode(Rest());
        f := ReadField();
      }
      readPtr := oldPosition;
    }
  }
}
