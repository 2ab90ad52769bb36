/**
  * Message objects and the block arena that holds nested ones. The arena is used as a stack.
  */
module Arena {
  import opened WireFormat

  class Message {
    /** Bytes appended to this message so far, length slots and ended children included; wraps at 2^32. */
    var size: u32
    /** The reserved length slot, or null. */
    var sizeField: array?<byte>
    var sizeOffset: nat
    ghost var sizeSlice: nat
    /** The child being written, or null. */
    var nested: Message?
    var finalized: bool

    constructor ()
    {
    }

    method Reset()
      modifies this
      ensures size == 0 && sizeField == null && nested == null && !finalized
    {
      size, sizeField, sizeOffset, nested, finalized := 0, null, 0, null, false;
    }
  }

  const BLOCK_CAPACITY := 16

  /** Storage for sixteen messages, of which the first `entries` are in use. */
  datatype Block = Block(storage: seq<Message>, entries: nat)

  ghost function Cells(blocks: seq<Block>): (s: seq<Message>) {
    if blocks == [] then [] else Cells(blocks[..|blocks| - 1]) + blocks[|blocks| - 1].storage
  }

  lemma {:induction false} CellsSnoc(blocks: seq<Block>, b: Block)
    ensures Cells(blocks + [b]) == Cells(blocks) + b.storage
  {
    assert (blocks + [b])[..|blocks|] == blocks;
  }

  lemma {:induction false} CellsLength(blocks: seq<Block>)
    requires forall i :: 0 <= i < |blocks| ==> |blocks[i].storage| == BLOCK_CAPACITY
    ensures |Cells(blocks)| == BLOCK_CAPACITY * |blocks|
  {
    if blocks != [] {
      CellsLength(blocks[..|blocks| - 1]);
    }
  }

  ghost predicate NoDuplicates(s: seq<Message>) {
    forall i, j :: 0 <= i < j < |s| ==> s[i] != s[j]
  }

  lemma {:induction false} NoDuplicatesConcat(a: seq<Message>, b: seq<Message>)
    requires NoDuplicates(a) && NoDuplicates(b) && forall m <- a :: m !in b
    ensures NoDuplicates(a + b)
  {
    forall i, j | 0 <= i < j < |a + b| ensures (a + b)[i] != (a + b)[j] {
      if i < |a| <= j {
        assert a[i] in a && b[j - |a|] in b;
      }
    }
  }

  class MessageArena {
    var blocks: seq<Block>
    /** Every message cell ever allocated. */
    ghost var cells: set<Message>

    ghost predicate Valid()
      reads this
    {
      && blocks != []
      && (forall i :: 0 <= i < |blocks| ==>
          |blocks[i].storage| == BLOCK_CAPACITY && blocks[i].entries <= BLOCK_CAPACITY)
      && (forall i :: 0 <= i < |blocks| - 1 ==> blocks[i].entries == BLOCK_CAPACITY)
      && (|blocks| > 1 ==> blocks[|blocks| - 1].entries > 0)
      && NoDuplicates(Cells(blocks))
      && (forall m <- Cells(blocks) :: m in cells)
    }

    /** The messages in use, oldest first: the cells of the full blocks and the used part of the last one. */
    ghost function Live(): (s: seq<Message>)
      requires Valid()
      reads this
    {
      Cells(blocks[..|blocks| - 1]) + blocks[|blocks| - 1].storage[..blocks[|blocks| - 1].entries]
    }

    lemma {:induction false} LiveIsPrefix()
      requires Valid()
      ensures Live() <= Cells(blocks) && NoDuplicates(Live())
      ensures forall m <- Live() :: m in cells
      ensures |Live()| == BLOCK_CAPACITY * (|blocks| - 1) + blocks[|blocks| - 1].entries
    {
      CellsLength(blocks[..|blocks| - 1]);
      var last := blocks[|blocks| - 1];
      assert last.storage == last.storage[..last.entries] + last.storage[last.entries..];
      assert Cells(blocks) == Live() + last.storage[last.entries..];
    }

    constructor ()
      ensures Valid() && Live() == [] && fresh(cells)
    {
      var storage := NewStorage();
      blocks := [Block(storage, 0)];
      cells := set m | m in storage;
      assert [Block(storage, 0)][..0] == [];
    }

    static method NewStorage() returns (storage: seq<Message>)
      ensures |storage| == BLOCK_CAPACITY && NoDuplicates(storage)
      ensures forall m <- storage :: fresh(m)
    {
      storage := [];
      while |storage| < BLOCK_CAPACITY
        invariant |storage| <= BLOCK_CAPACITY && NoDuplicates(storage)
        invariant forall m <- storage :: fresh(m)
      {
        var m := new Message();
        storage := storage + [m];
      }
    }

    /** Pushes a message on the live stack. */
    method NewMessage() returns (m: Message)
      requires Valid()
      modifies this
      ensures Valid() && Live() == old(Live()) + [m]
      ensures m !in old(Live()) && m in cells && old(cells) <= cells && fresh(cells - old(cells))
    {
      hide Cells, NoDuplicates;
      LiveIsPrefix();
      if blocks[|blocks| - 1].entries >= BLOCK_CAPACITY {
        AddBlock();
      }
      m := TakeCell();
    }

    /** Uses the next cell of the last block. */
    method TakeCell() returns (m: Message)
      requires SpareBlock()
      modifies this`blocks
      ensures Valid() && Live() == old(LiveWithSpare()) + [m] && m in cells
      ensures m !in old(LiveWithSpare())
    {
      var n := |blocks| - 1;
      var block := blocks[n];
      ghost var before := blocks;
      m := block.storage[block.entries];
      blocks := blocks[n := block.(entries := block.entries + 1)];
      assert blocks[..n] == before[..n];
      assert Cells(blocks) == Cells(before);
      assert block.storage[..block.entries + 1] == block.storage[..block.entries] + [m];
      assert Cells(blocks) == Cells(blocks[..n]) + block.storage;
      CellsLength(blocks[..n]);
      assert Cells(blocks)[|Cells(blocks[..n])| + block.entries] == m;
      LiveIsPrefix();
      assert old(LiveWithSpare()) == Live()[..|Live()| - 1] && Live()[|Live()| - 1] == m;
    }

    /** Like Valid, but the last block may be empty; it has room for one more. */
    ghost predicate SpareBlock()
      reads this
    {
      && blocks != []
      && (forall i :: 0 <= i < |blocks| ==>
          |blocks[i].storage| == BLOCK_CAPACITY && blocks[i].entries <= BLOCK_CAPACITY)
      && (forall i :: 0 <= i < |blocks| - 1 ==> blocks[i].entries == BLOCK_CAPACITY)
      && blocks[|blocks| - 1].entries < BLOCK_CAPACITY
      && NoDuplicates(Cells(blocks))
      && (forall m <- Cells(blocks) :: m in cells)
    }

    ghost function LiveWithSpare(): seq<Message>
      requires SpareBlock()
      reads this
    {
      Cells(blocks[..|blocks| - 1]) + blocks[|blocks| - 1].storage[..blocks[|blocks| - 1].entries]
    }

    method AddBlock()
      requires Valid() && blocks[|blocks| - 1].entries == BLOCK_CAPACITY
      modifies this
      ensures SpareBlock() && LiveWithSpare() == old(Live())
      ensures old(cells) <= cells && fresh(cells - old(cells))
    {
      var storage := NewStorage();
      ghost var before := blocks;
      blocks := blocks + [Block(storage, 0)];
      cells := cells + set m | m in storage;
      assert blocks[..|before|] == before;
      CellsSnoc(before, Block(storage, 0));
      assert forall m <- Cells(before) :: m in old(cells) && m !in storage;
      NoDuplicatesConcat(Cells(before), storage);
      var last := before[|before| - 1];
      assert last.storage[..last.entries] == last.storage;
    }

    /** Pops the message it names. A block that becomes empty is released, except the first. */
    method DeleteLastMessage(ghost msg: Message?)
      requires Valid() && Live() != [] && msg == Live()[|Live()| - 1]
      modifies this`blocks
      ensures Valid() && Live() == old(Live())[..|old(Live())| - 1]
    {
      LiveIsPrefix();
      var n := |blocks| - 1;
      var block := blocks[n];
      ghost var before, live := blocks, Live();
      blocks := blocks[n := block.(entries := block.entries - 1)];
      assert blocks[..n] == before[..n];
      assert Cells(blocks) == Cells(before);
      assert block.storage[..block.entries - 1] == block.storage[..block.entries][..block.entries - 1];
      assert Cells(blocks[..n]) + block.storage[..block.entries - 1] == live[..|live| - 1];
      if block.entries - 1 == 0 && |blocks| > 1 {
        blocks := blocks[..n];
        assert Cells(before) == Cells(blocks) + block.storage;
        var last := blocks[n - 1];
        assert last.storage[..last.entries] == last.storage;
      }
    }

    method Reset()
      requires Valid()
      modifies this`blocks
      ensures Valid() && Live() == []
    {
      ghost var before := blocks;
      blocks := [blocks[0].(entries := 0)];
      FirstBlockCells(before);
      assert blocks[..0] == [];
    }
  }

  lemma {:induction false} FirstBlockCells(blocks: seq<Block>)
    requires blocks != []
    ensures blocks[0].storage <= Cells(blocks)
  {
    if |blocks| > 1 {
      FirstBlockCells(blocks[..|blocks| - 1]);
    } else {
      assert blocks[..0] == [];
    }
  }
}
