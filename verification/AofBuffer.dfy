/** The rewrite buffer of aof.c: a list of blocks of fixed size that only grows at its end. */
module AofBuffer {
  import opened Bytes
  import opened Requests

  const BLOCK_SIZE := 10485760

  class Block {
    const buf: array<u8>
    var used: nat
    var free: nat

    constructor ()
      ensures fresh(buf) && buf.Length == BLOCK_SIZE && used == 0 && free == BLOCK_SIZE
    {
      buf := new u8[BLOCK_SIZE](_ => 0);
      used, free := 0, BLOCK_SIZE;
    }

    /** `memcpy(block->buf+block->used, s, thislen)`. */
    method Copy(s: Text)
      requires used + free == buf.Length && |s| <= free
      modifies this, buf
      ensures used == old(used) + |s| && free == old(free) - |s| && buf[..used] == old(buf[..used]) + s
    {
      ghost var was := buf[..used];
      forall i | 0 <= i < |s| {
        buf[used + i] := s[i];
      }
      assert buf[..used + |s|] == was + s;
      used, free := used + |s|, free - |s|;
    }
  }

  /** Where block `i` starts in the contents. */
  function Start(i: nat): nat {
    i * BLOCK_SIZE
  }

  lemma StartsApart(n: nat)
    ensures Start(0) == 0 && forall i :: 0 <= i < n ==> Start(i) + BLOCK_SIZE == Start(i + 1)
    ensures forall i, j :: 0 <= i < j < n ==> Start(i) + BLOCK_SIZE <= Start(j)
  {
  }

  class RewriteBuffer {
    var blocks: seq<Block>
    /** All that was appended since the last reset. */
    ghost var contents: Text

    /** The blocks and their storage. */
    ghost var repr: set<object>

    /** Block `i` holds its part of the contents, and all of the blocks before the last one are full. */
    ghost predicate Holds(i: nat)
      requires i < |blocks|
      reads this, blocks[i], blocks[i].buf
    {
      var b := blocks[i];
      && b.buf.Length == BLOCK_SIZE == b.used + b.free
      && (i + 1 < |blocks| ==> b.free == 0)
      && Start(i) + b.used <= |contents|
      && b.buf[..b.used] == contents[Start(i)..Start(i) + b.used]
    }

    ghost predicate Valid()
      reads this, repr
    {
      && this !in repr
      && (forall i :: 0 <= i < |blocks| ==> blocks[i] in repr && blocks[i].buf in repr)
      && (forall i, j :: 0 <= i < j < |blocks| ==> blocks[i] != blocks[j] && blocks[i].buf != blocks[j].buf)
      && (forall i :: 0 <= i < |blocks| ==> Holds(i))
      && |contents| == if blocks == [] then 0 else Start(|blocks| - 1) + blocks[|blocks| - 1].used
    }

    constructor ()
      ensures Valid() && contents == [] && blocks == [] && repr == {}
    {
      blocks, contents, repr := [], [], {};
    }

    /** `aofRewriteBufferReset`. */
    method Reset()
      modifies this
      ensures Valid() && contents == [] && blocks == [] && repr == {}
    {
      blocks, contents, repr := [], [], {};
    }

    /** `aofRewriteBufferSize`, which counts every block but the last as full. */
    method Size() returns (n: nat)
      requires Valid()
      ensures n == |contents|
    {
      if blocks == [] {
        return 0;
      }
      n := Start(|blocks| - 1) + blocks[|blocks| - 1].used;
    }

    /** Fills the last block with the start of `s`. */
    method Extend(s: Text)
      requires Valid() && blocks != [] && |s| <= blocks[|blocks| - 1].free
      modifies this`contents, repr
      ensures Valid() && contents == old(contents) + s && repr == old(repr) && blocks == old(blocks)
      ensures blocks[|blocks| - 1].free == old(blocks[|blocks| - 1].free) - |s|
    {
      hide Start;
      var n := |blocks| - 1;
      var block := blocks[n];
      ghost var was := contents;
      assert Holds(n);
      block.Copy(s);
      contents := contents + s;
      StartsApart(|blocks|);
      forall i | 0 <= i < n ensures Holds(i) {
        assert old(Holds(i));
        assert contents[Start(i)..Start(i) + blocks[i].used] == was[Start(i)..Start(i) + blocks[i].used];
      }
    }

    method AddBlock()
      requires Valid() && (blocks != [] ==> blocks[|blocks| - 1].free == 0)
      modifies this`blocks, this`repr
      ensures Valid() && |blocks| == |old(blocks)| + 1 && blocks[|blocks| - 1].free == BLOCK_SIZE
      ensures fresh(repr - old(repr)) && old(repr) <= repr
    {
      hide Start;
      var block := new Block();
      StartsApart(|blocks| + 1);
      assert blocks != [] ==> Holds(|blocks| - 1);
      assert |contents| == Start(|blocks|);
      assert contents[|contents|..|contents|] == [];
      blocks := blocks + [block];
      repr := repr + {block, block.buf};
      forall i | 0 <= i < |blocks| ensures Holds(i) {
        if i + 1 < |blocks| {
          assert old(Holds(i));
        }
      }
    }

    /** `aofRewriteBufferAppend`. */
    method Append(s: Text)
      requires Valid()
      modifies this`blocks, this`contents, this`repr, repr
      ensures Valid() && contents == old(contents) + s && fresh(repr - old(repr))
    {
      hide Valid;
      var rest := s;
      while rest != []
        invariant Valid() && contents + rest == old(contents) + s && fresh(repr - old(repr))
        decreases |rest|, if blocks != [] && blocks[|blocks| - 1].free > 0 then 0 else 1
      {
        if blocks != [] {
          var free := blocks[|blocks| - 1].free;
          var len := if free < |rest| then free else |rest|;
          if len > 0 {
            Extend(rest[..len]);
            rest := rest[len..];
          }
        }
        if rest != [] {
          AddBlock();
        }
      }
    }

    /** `aofRewriteBufferWrite`: the blocks one after the other, when no write falls short. */
    method Write() returns (out: Text)
      requires Valid()
      ensures out == contents
    {
      out := [];
      var i := 0;
      while i < |blocks|
        invariant 0 <= i <= |blocks| && |out| == (if i < |blocks| then Start(i) else |contents|) && out == contents[..|out|]
      {
        assert Holds(i);
        if blocks[i].used > 0 {
          out := out + blocks[i].buf[..blocks[i].used];
        }
        i := i + 1;
      }
    }
  }
}
