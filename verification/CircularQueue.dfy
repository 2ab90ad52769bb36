/**
  * The growing ring: monotonic 64-bit indexes over a power-of-two array, addressed through a mask.
  * It refines a plain sequence.
  */
module CircularQueue {

  // ---------- The mask ----------

  /** Bitwise and. */
  function And(a: nat, b: nat): (r: nat) {
    if a == 0 || b == 0 then 0
    else 2 * And(a / 2, b / 2) + if a % 2 == 1 && b % 2 == 1 then 1 else 0
  }

  /** The source's test for a power of two. */
  predicate PowerOfTwo(c: nat) {
    c >= 1 && And(c, c - 1) == 0
  }

  lemma {:induction false} AndSelf(a: nat)
    ensures And(a, a) == a
  {
    if a > 0 {
      AndSelf(a / 2);
    }
  }

  lemma {:induction false} MulAtLeast(d: int, c: nat)
    ensures d >= 1 ==> d * c >= c
    ensures d <= 0 ==> d * c <= 0
  {
  }

  lemma {:induction false} MulMinus(a: int, b: int, c: nat)
    ensures (a - b) * c == a * c - b * c
  {
  }

  /** Quotient and remainder are unique. */
  lemma {:induction false} DivModUnique(c: nat, q: int, r: int, q': int, r': int)
    requires 0 <= r < c && 0 <= r' < c && q * c + r == q' * c + r'
    ensures q == q' && r == r'
  {
    MulMinus(q, q', c);
    MulMinus(q', q, c);
    MulAtLeast(q - q', c);
    MulAtLeast(q' - q, c);
  }

  lemma {:induction false} DivMod(x: nat, c: nat)
    requires c >= 1
    ensures x == x / c * c + x % c && 0 <= x % c < c
  {
  }

  lemma {:induction false} ModUnique(x: nat, c: nat, q: nat, r: nat)
    requires r < c && x == q * c + r
    ensures x % c == r
  {
    DivMod(x, c);
    DivModUnique(c, q, r, x / c, x % c);
  }

  lemma {:induction false} ModDouble(p: nat, k: nat)
    requires k >= 1
    ensures p % (2 * k) == 2 * (p / 2 % k) + p % 2
  {
    var h := p / 2;
    var q, r := h / k, h % k;
    DivMod(h, k);
    assert q * (2 * k) == 2 * (q * k);
    ModUnique(p, 2 * k, q, 2 * r + p % 2);
  }

  /** For a power of two the mask is the remainder. */
  lemma {:induction false} MaskIsMod(p: nat, c: nat)
    requires PowerOfTwo(c)
    ensures And(p, c - 1) == p % c
    decreases c
  {
    if c == 1 {
    } else if c % 2 == 1 {
      assert (c - 1) / 2 == c / 2 && And(c, c - 1) == 2 * And(c / 2, c / 2);
      AndSelf(c / 2);
      assert false;
    } else {
      var k := c / 2;
      assert c == 2 * k && (c - 1) / 2 == k - 1;
      assert PowerOfTwo(k);
      MaskIsMod(p / 2, k);
      ModDouble(p, k);
      if p == 0 {
        ModUnique(0, c, 0, 0);
      }
    }
  }

  lemma {:induction false} DoublePowerOfTwo(c: nat)
    requires PowerOfTwo(c)
    ensures PowerOfTwo(2 * c)
  {
    assert 2 * c / 2 == c && (2 * c - 1) / 2 == c - 1;
  }

  /** Two positions less than a capacity apart never share a slot. */
  lemma {:induction false} SlotsDiffer(a: nat, b: nat, c: nat)
    requires a < b < a + c
    ensures a % c != b % c
  {
    DivMod(a, c);
    DivMod(b, c);
    var qa, qb := a / c, b / c;
    MulMinus(qb, qa, c);
    MulAtLeast(qb - qa, c);
  }

  // ---------- The queue ----------

  class Queue<T(0)> {
    var entries: array<T>
    var capacity: nat
    var begin: nat
    var end: nat

    ghost predicate Valid()
      reads this
    {
      && PowerOfTwo(capacity) && entries.Length == capacity
      && begin <= end <= begin + capacity
    }

    /** The live window, oldest first. */
    ghost function Contents(): seq<T>
      requires Valid()
      reads this, entries
    {
      Window(entries[..], begin, end)
    }

    static ghost function Window(s: seq<T>, begin: nat, end: nat): (r: seq<T>)
      requires begin <= end && |s| > 0
      ensures |r| == end - begin
      ensures forall i :: 0 <= i < |r| ==> r[i] == s[(begin + i) % |s|]
    {
      seq(end - begin, i requires 0 <= i < end - begin => s[(begin + i) % |s|])
    }

    /** Where a position lives: the mask of the source. */
    function Slot(pos: nat): (i: nat)
      requires Valid()
      reads this
      ensures i == pos % capacity < capacity
    {
      MaskIsMod(pos, capacity);
      And(pos, capacity - 1)
    }

    /** The source stops the program unless the capacity is a power of two. */
    constructor (initialCapacity: nat)
      requires PowerOfTwo(initialCapacity)
      ensures Valid() && fresh(entries) && Contents() == [] && capacity == initialCapacity
    {
      entries, capacity, begin, end := new T[initialCapacity], initialCapacity, 0, 0;
    }

    method Size() returns (n: nat)
      requires Valid()
      ensures n == |Contents()|
    {
      n := end - begin;
    }

    /** Doubles the storage and rebases the window to position 0; the contents stay. */
    method Grow()
      requires Valid()
      modifies this
      ensures Valid() && fresh(entries) && Contents() == old(Contents())
      ensures capacity == 2 * old(capacity) && begin == 0 && end == old(end - begin)
    {
      hide And;
      var newCapacity := capacity * 2;
      var newVec := new T[newCapacity];
      var newSize := 0;
      ghost var contents := Contents();
      var i := begin;
      while i < end
        invariant begin <= i <= end && 0 <= newSize == i - begin <= |contents| <= newVec.Length
        invariant forall j :: 0 <= j < newSize ==> newVec[j] == contents[j]
        invariant Valid() && fresh(newVec) && newVec != entries
        invariant unchanged(this) && Contents() == contents
      {
        newVec[newSize] := entries[Slot(i)];
        assert contents[newSize] == entries[..][(begin + newSize) % capacity];
        newSize := newSize + 1;
        i := i + 1;
      }
      DoublePowerOfTwo(capacity);
      begin, end, capacity, entries := 0, newSize, newCapacity, newVec;
      forall j | 0 <= j < newSize ensures Contents()[j] == contents[j] {
        ModUnique(j, newCapacity, 0, j);
      }
    }

    method EmplaceBack(x: T)
      requires Valid()
      modifies this, entries
      ensures Valid() && (entries == old(entries) || fresh(entries))
      ensures Contents() == old(Contents()) + [x]
      ensures capacity == if |old(Contents())| == old(capacity) then 2 * old(capacity) else old(capacity)
    {
      hide And;
      if end - begin >= capacity {
        Grow();
      }
      ghost var contents := Contents();
      var slot := Slot(end);
      ghost var window := entries[..];
      entries[slot] := x;
      end := end + 1;
      forall i | 0 <= i < |contents| ensures Contents()[i] == contents[i] {
        SlotsDiffer(begin + i, end - 1, capacity);
        assert contents[i] == window[(begin + i) % capacity];
      }
      assert Contents()[|contents|] == x;
    }

    /** Drops up to `n` elements from the front, one at a time. */
    method EraseFront(n: nat)
      requires Valid()
      modifies this`begin
      ensures Valid()
      ensures Contents() == old(Contents())[if n < |old(Contents())| then n else |old(Contents())|..]
    {
      hide And;
      var left := n;
      ghost var contents := Contents();
      while left > 0 && begin < end
        invariant Valid() && 0 <= left <= n && begin - old(begin) == n - left
        invariant Contents() == contents[n - left..]
        decreases left
      {
        ghost var before := Contents();
        begin := begin + 1;
        left := left - 1;
        forall i | 0 <= i < |Contents()| ensures Contents()[i] == before[i + 1] {
          assert before[i + 1] == entries[..][(begin - 1 + (i + 1)) % capacity];
        }
        assert Contents() == before[1..];
        assert contents[n - left - 1..][1..] == contents[n - left..];
      }
    }

    method At(idx: nat) returns (x: T)
      requires Valid() && idx < |Contents()|
      ensures x == Contents()[idx]
    {
      x := entries[Slot(begin + idx)];
    }
  }

  // ---------- Whole runs ----------

  datatype Op<T> = Push(value: T) | Erase(count: nat)

  /** What the operations do to a plain sequence. */
  function Model<T>(s: seq<T>, ops: seq<Op<T>>): seq<T>
    decreases |ops|
  {
    if ops == [] then s
    else
      var s' := match ops[0]
        case Push(x) => s + [x]
        case Erase(n) => if n < |s| then s[n..] else [];
      Model(s', ops[1..])
  }

  /** Any run of the ring, through every growth, read back by index, is the run on the sequence. */
  method Drive<T(0)>(initialCapacity: nat, ops: seq<Op<T>>) returns (contents: seq<T>)
    requires PowerOfTwo(initialCapacity)
    ensures contents == Model([], ops)
  {
    hide PowerOfTwo, And;
    var q := new Queue<T>(initialCapacity);
    assert ops[0..] == ops;
    for k := 0 to |ops|
      invariant fresh(q) && fresh(q.entries) && q.Valid()
      invariant Model(q.Contents(), ops[k..]) == Model([], ops)
    {
      assert ops[k..][0] == ops[k] && ops[k..][1..] == ops[k + 1..];
      match ops[k]
      case Push(x) => q.EmplaceBack(x);
      case Erase(n) => q.EraseFront(n);
    }
    contents := [];
    var size := q.Size();
    for i := 0 to size
      invariant fresh(q) && q.Valid() && size == |q.Contents()| && contents == q.Contents()[..i]
      invariant q.Contents() == Model([], ops)
    {
      var x := q.At(i);
      contents := contents + [x];
    }
  }
}
