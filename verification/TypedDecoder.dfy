/**
  * The decoder that loads all fields up front. Slot `id` of its storage keeps the last value of a
  * field; earlier values move to a FIFO tail after the first `numFields` slots, which grows on the heap.
  */
module TypedDecoder {
  import opened WireFormat
  import opened ProtoFields

  // ---------- Reference: occurrences in wire order ----------

  function WithId(fs: seq<Field>, id: nat): (r: seq<Field>) {
    if fs == [] then []
    else
      var n := |fs| - 1;
      WithId(fs[..n], id) + if fs[n].id == id then [fs[n]] else []
  }

  lemma {:induction false} WithIdMembers(fs: seq<Field>, id: nat)
    ensures forall f <- WithId(fs, id) :: f.id == id && f in fs
  {
    if fs != [] {
      WithIdMembers(fs[..|fs| - 1], id);
    }
  }

  /** All fields with the id, as often and in the order in which they stand. */
  lemma {:induction false} WithIdIsFilter(fs: seq<Field>, id: nat)
    ensures forall f :: multiset(WithId(fs, id))[f] == if f.id == id then multiset(fs)[f] else 0
    ensures forall k :: 0 <= k < |fs| && fs[k].id == id ==> StandsAt(fs, id, k)
  {
    if fs != [] {
      var n := |fs| - 1;
      WithIdIsFilter(fs[..n], id);
      assert fs == fs[..n] + [fs[n]];
      forall k | 0 <= k < |fs| && fs[k].id == id ensures StandsAt(fs, id, k) {
        if k < n {
          assert StandsAt(fs[..n], id, k);
          assert fs[..n][..k] == fs[..k] && fs[..n][k] == fs[k];
        }
      }
    }
  }

  /** A field stands behind those with its id that come before it. */
  ghost predicate StandsAt(fs: seq<Field>, id: nat, k: nat)
    requires k < |fs|
  {
    |WithId(fs[..k], id)| < |WithId(fs, id)| && WithId(fs, id)[|WithId(fs[..k], id)|] == fs[k]
  }

  lemma {:induction false} WithIdSnoc(fs: seq<Field>, f: Field, id: nat)
    ensures WithId(fs + [f], id) == WithId(fs, id) + if f.id == id then [f] else []
  {
    assert (fs + [f])[..|fs|] == fs;
  }

  lemma {:induction false} WithIdCons(f: Field, rest: seq<Field>, id: nat)
    ensures WithId([f] + rest, id) == (if f.id == id then [f] else []) + WithId(rest, id)
  {
    WithIdConcat([f], rest, id);
    WithIdSnoc([], f, id);
    assert [] + [f] == [f];
  }

  lemma {:induction false} WithIdConcat(a: seq<Field>, b: seq<Field>, id: nat)
    ensures WithId(a + b, id) == WithId(a, id) + WithId(b, id)
  {
    if b == [] {
      assert a + b == a;
    } else {
      var n := |b| - 1;
      WithIdConcat(a, b[..n], id);
      assert a + b == (a + b[..n]) + [b[n]];
      WithIdSnoc(a + b[..n], b[n], id);
      assert WithId(b, id) == WithId(b[..n], id) + if b[n].id == id then [b[n]] else [];
    }
  }

  function LastOrInvalid(fs: seq<Field>): Field {
    if fs == [] then INVALID_FIELD else fs[|fs| - 1]
  }

  /** The last occurrence of an id, or all zero if there is none. */
  lemma {:induction false} LastWithIdIs(fs: seq<Field>, id: nat)
    ensures IsLastOf(LastOrInvalid(WithId(fs, id)), fs, id)
  {
    if fs != [] {
      var n := |fs| - 1;
      var before, f := fs[..n], LastOrInvalid(WithId(fs, id));
      if fs[n].id != id {
        LastWithIdIs(before, id);
        assert f == LastOrInvalid(WithId(before, id));
        hide WithId, LastOrInvalid;
        assert forall k :: 0 <= k < n ==> before[k] == fs[k];
        forall k | 0 <= k < |fs| && fs[k].id == id && (forall j :: k < j < |fs| ==> fs[j].id != id) ensures f == fs[k] {
          assert before[k] == fs[k];
        }
      } else {
        assert f == fs[n];
      }
    }
  }

  function AllButLast(fs: seq<Field>): seq<Field> {
    if fs == [] then [] else fs[..|fs| - 1]
  }

  /** The layout: slot `id` holds the last occurrence, the tail the earlier ones in order. */
  ghost predicate Layout(store: seq<Field>, n: nat, fs: seq<Field>) {
    && n <= |store|
    && forall id :: 0 <= id < n ==> SlotHolds(store, n, fs, id)
  }

  ghost predicate SlotHolds(store: seq<Field>, n: nat, fs: seq<Field>, id: nat)
    requires id < n <= |store|
  {
    && store[id] == LastOrInvalid(WithId(fs, id))
    && WithId(store[n..], id) == AllButLast(WithId(fs, id))
  }

  lemma {:induction false} StoreIgnored(store: seq<Field>, n: nat, fs: seq<Field>, f: Field)
    requires Layout(store, n, fs) && f.id >= n
    ensures Layout(store, n, fs + [f])
  {
    forall id | 0 <= id < n ensures SlotHolds(store, n, fs + [f], id) {
      WithIdSnoc(fs, f, id);
      assert SlotHolds(store, n, fs, id);
    }
  }

  lemma {:induction false} StoreFirst(store: seq<Field>, n: nat, fs: seq<Field>, f: Field)
    requires Layout(store, n, fs) && f.id < n && !store[f.id].Valid()
    requires forall g <- fs :: g.Valid()
    ensures Layout(store[f.id := f], n, fs + [f])
  {
    var store' := store[f.id := f];
    assert store'[n..] == store[n..];
    assert SlotHolds(store, n, fs, f.id);
    WithIdMembers(fs, f.id);
    forall id | 0 <= id < n ensures SlotHolds(store', n, fs + [f], id) {
      WithIdSnoc(fs, f, id);
      assert SlotHolds(store, n, fs, id);
    }
  }

  lemma {:induction false} StoreAgain(store: seq<Field>, n: nat, fs: seq<Field>, f: Field)
    requires Layout(store, n, fs) && f.id < n && store[f.id].Valid()
    ensures Layout(store[f.id := f] + [store[f.id]], n, fs + [f])
  {
    hide WithId;
    var prev := store[f.id];
    var store' := store[f.id := f] + [prev];
    assert store'[n..] == store[n..] + [prev];
    assert SlotHolds(store, n, fs, f.id);
    WithIdMembers(fs, f.id);
    assert prev.id == f.id;
    forall id | 0 <= id < n ensures SlotHolds(store', n, fs + [f], id) {
      WithIdSnoc(fs, f, id);
      WithIdSnoc(store[n..], prev, id);
      assert SlotHolds(store, n, fs, id);
    }
  }

  /** The last field with the id, or all zero if there is none. */
  ghost predicate IsLastOf(f: Field, fs: seq<Field>, id: nat) {
    && (forall k :: 0 <= k < |fs| && fs[k].id == id && (forall j :: k < j < |fs| ==> fs[j].id != id) ==> f == fs[k])
    && ((forall k :: 0 <= k < |fs| ==> fs[k].id != id) ==> f.id == 0 && f.value == 0 && f.payload == [])
  }

  // ---------- The decoder ----------

  class Typed {
    const buffer: seq<byte>
    const numFields: nat
    var fields: array<Field>
    var size: nat
    var capacity: u32
    var readPtr: nat

    ghost predicate Valid()
      reads this
    {
      && 1 <= numFields <= size <= capacity == fields.Length
      && readPtr <= |buffer|
    }

    ghost function Store(): seq<Field>
      requires Valid()
      reads this, fields
    {
      fields[..size]
    }

    /** The first `numFields` slots are cleared, the rest of the storage is not initialised. */
    constructor (data: seq<byte>, storage: array<Field>, count: nat)
      requires 1 <= count <= storage.Length < U32
      modifies storage
      ensures Valid() && buffer == data && numFields == count && fields == storage
      ensures readPtr == 0 && Layout(Store(), numFields, [])
    {
      buffer, numFields := data, count;
      fields, size, capacity := storage, count, storage.Length;
      readPtr := 0;
      new;
      forall i | 0 <= i < count {
        storage[i] := INVALID_FIELD;
      }
      assert Store()[count..] == [];
    }

    /** Doubles the storage. The 32-bit product is checked, and the program stops if it wrapped. */
    method ExpandHeapStorage() returns (ok: bool)
      requires Valid()
      modifies this`fields, this`capacity
      ensures ok <==> 2 * old(capacity) % U32 > size
      ensures ok ==> Valid() && size < capacity && fresh(fields) && Store() == old(Store())
      ensures ok ==> capacity == 2 * old(capacity) % U32
      ensures !ok ==> fields == old(fields) && capacity == old(capacity)
    {
      var newCapacity := capacity * 2 % U32;
      ok := newCapacity > size;
      if ok {
        var newStorage := new Field[newCapacity](_ => INVALID_FIELD);
        forall i | 0 <= i < size {
          newStorage[i] := fields[i];
        }
        fields := newStorage;
        capacity := newCapacity;
      }
    }

    /**
      * Parses the whole buffer into the storage. `ok` is false only when the storage would need
      * 2^31 slots, which a buffer below 4 GB cannot reach.
      */
    method ParseAllFields() returns (ok: bool)
      requires Valid() && Layout(Store(), numFields, []) && size == numFields
      modifies this`fields, this`size, this`capacity, this`readPtr, fields
      ensures Valid() && (fields == old(fields) || fresh(fields))
      ensures ok ==> Layout(Store(), numFields, Decode(buffer)) && readPtr == Consumed(buffer)
      ensures numFields + |buffer| / 2 < 0x8000_0000 ==> ok
    {
      hide ParseOneField;
      var cur := 0;
      ghost var fs: seq<Field> := [];
      assert buffer[0..] == buffer;
      ok := true;
      while true
        invariant ok && Valid() && (fields == old(fields) || fresh(fields))
        invariant cur <= |buffer|
        invariant Decode(buffer) == fs + Decode(buffer[cur..])
        invariant Consumed(buffer) == cur + Consumed(buffer[cur..])
        invariant Layout(Store(), numFields, fs)
        invariant size <= numFields + cur / 2
        decreases |buffer| - cur
      {
        var res := ParseOneField(buffer[cur..]);
        if res.Abort? {
          break;
        }
        assert buffer[cur..][res.next..] == buffer[cur + res.next..];
        cur := cur + res.next;
        if res.Ok? {
          var f := res.field;
          assert forall g <- fs :: g.Valid() by {
            assert forall g <- fs :: g in Decode(buffer);
          }
          if f.id >= numFields {
            StoreIgnored(Store(), numFields, fs, f);
          } else if !fields[f.id].Valid() {
            StoreFirst(Store(), numFields, fs, f);
            ghost var was := Store();
            fields[f.id] := f;
            assert Store() == was[f.id := f];
          } else {
            ok := Push(fs, f);
            if !ok {
              return;
            }
          }
          fs := fs + [f];
        }
      }
      assert fs + [] == fs;
      readPtr := cur;
    }

    /** Moves the current value of a repeated field to the end of the storage and puts the new one in place. */
    method Push(ghost fs: seq<Field>, f: Field) returns (ok: bool)
      requires Valid() && Layout(Store(), numFields, fs)
      requires f.id < numFields && fields[f.id].Valid()
      modifies this`fields, this`size, this`capacity, fields
      ensures Valid() && (fields == old(fields) || fresh(fields))
      ensures ok ==> size == old(size) + 1 && Layout(Store(), numFields, fs + [f])
      ensures !ok ==> 0x8000_0000 <= old(size)
    {
      StoreAgain(Store(), numFields, fs, f);
      ghost var was := Store();
      ok := true;
      if size >= capacity {
        ok := ExpandHeapStorage();
        if !ok {
          return;
        }
      }
      assert Store() == was;
      fields[size] := fields[f.id];
      size := size + 1;
      fields[f.id] := f;
      assert Store() == was[f.id := f] + [was[f.id]];
    }

    /**
      * The last value of a field, all zero when it does not occur or its id is beyond the schema, where
      * slot 0 is read.
      */
    function Get(id: nat): (f: Field)
      requires Valid()
      reads this, fields
      ensures forall fs :: Layout(Store(), numFields, fs) && id < numFields ==> IsLastOf(f, fs, id)
      ensures forall fs :: Layout(Store(), numFields, fs) && id >= numFields ==> IsLastOf(f, fs, 0)
    {
      var slot := if id < numFields then id else 0;
      assert forall fs :: Layout(Store(), numFields, fs) ==> IsLastOf(fields[slot], fs, slot) by {
        forall fs | Layout(Store(), numFields, fs) ensures IsLastOf(fields[slot], fs, slot) {
          assert SlotHolds(Store(), numFields, fs, slot);
          LastWithIdIs(fs, slot);
        }
      }
      fields[slot]
    }

    /** Runs the repeated-field iterator to its end. */
    method GetRepeated(id: nat, ghost fs: seq<Field>) returns (values: seq<Field>)
      requires Valid() && id < numFields && Layout(Store(), numFields, fs)
      requires forall f <- fs :: f.Valid()
      ensures values == WithId(fs, id)
    {
      hide WithId, RepeatedFieldIterator.Remaining;
      var it := new RepeatedFieldIterator(fields[..size], numFields, id);
      ghost var all := it.Remaining();
      assert all == WithId(fs, id) by {
        WithIdMembers(fs, id);
        assert SlotHolds(Store(), numFields, fs, id);
      }
      values := [];
      while it.iter != it.end
        invariant fresh(it) && it.Valid() && all == values + it.Remaining()
        decreases |it.Remaining()|
      {
        values := values + [it.storage[it.iter]];
        it.Next();
      }
    }
  }

  // ---------- The iterator over a repeated field ----------

  /** Walks the tail from `numFields` to the end, then jumps to the slot of the last value. */
  class RepeatedFieldIterator {
    const storage: seq<Field>
    const fieldId: nat
    const last: nat
    const end: nat
    var iter: nat

    ghost predicate Valid()
      reads this
    {
      && last < end == |storage|
      && iter <= end
      && (iter != last && iter < end ==> last < iter && storage[iter].id == fieldId)
      && (iter == last ==> storage[last].Valid())
    }

    ghost function LastValue(): seq<Field>
      requires last < |storage|
    {
      if storage[last].Valid() then [storage[last]] else []
    }

    /** The values still to come. */
    ghost function Remaining(): (r: seq<Field>)
      requires Valid()
      reads this
      ensures iter == end ==> r == []
    {
      if iter == end then [] else if iter == last then [storage[last]]
      else WithId(storage[iter..], fieldId) + LastValue()
    }

    constructor (store: seq<Field>, begin: nat, id: nat)
      requires id < begin <= |store|
      ensures Valid() && storage == store
      ensures Remaining() == WithId(store[begin..], id) + if store[id].Valid() then [store[id]] else []
    {
      storage, fieldId, last, end := store, id, id, |store|;
      iter := begin;
      new;
      FindNextMatchingId();
    }

    method FindNextMatchingId()
      requires last < iter <= end == |storage|
      modifies this`iter
      ensures Valid() && Remaining() == WithId(old(storage[iter..]), fieldId) + LastValue()
    {
      while iter != end
        invariant last < iter <= end
        invariant WithId(storage[iter..], fieldId) == WithId(old(storage[iter..]), fieldId)
        decreases end - iter
      {
        if storage[iter].id == fieldId {
          return;
        }
        assert storage[iter..] == [storage[iter]] + storage[iter + 1..];
        WithIdCons(storage[iter], storage[iter + 1..], fieldId);
        iter := iter + 1;
      }
      iter := if storage[last].Valid() then last else end;
    }

    method Next()
      requires Valid() && iter != end
      modifies this`iter
      ensures Valid() && old(Remaining()) == [old(storage[iter])] + Remaining()
    {
      hide WithId;
      if iter == last {
        iter := end;
        return;
      }
      assert storage[iter..] == [storage[iter]] + storage[iter + 1..];
      WithIdCons(storage[iter], storage[iter + 1..], fieldId);
      iter := iter + 1;
      FindNextMatchingId();
    }
  }
}
