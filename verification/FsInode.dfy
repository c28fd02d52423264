/** Inodes as they lie in inode blocks: what iupdate stores is what ilock reads back. */
module FsInode {
  import opened FsLayout
  import opened FsState

  const DINODE := 64                 // sizeof(struct dinode)

  function SplitShort(x: Short): (b: seq<Byte>)
    ensures |b| == 2
  {
    [x % 256, x / 256]
  }

  function JoinShort(b: seq<Byte>): Short
    requires |b| == 2
  {
    var lo: int, hi: int := b[0], b[1];
    lo + 256 * hi
  }

  lemma ShortRound(x: Short)
    ensures JoinShort(SplitShort(x)) == x
  {}

  /** Words one after the other. */
  function Pack(ws: seq<Word>): (b: seq<Byte>)
    ensures |b| == 4 * |ws|
  {
    if ws == [] then [] else Pack(ws[..|ws| - 1]) + Split(ws[|ws| - 1])
  }

  lemma {:induction false} PackAt(ws: seq<Word>, k: nat)
    requires k < |ws|
    ensures Pack(ws)[4 * k..4 * k + 4] == Split(ws[k])
    decreases |ws|
  {
    hide Split;
    var n := |ws| - 1;
    if k < n {
      PackAt(ws[..n], k);
      assert Pack(ws)[4 * k..4 * k + 4] == Pack(ws[..n])[4 * k..4 * k + 4];
    }
  }

  function Encode(d: Inode): (b: seq<Byte>)
    requires |d.addrs| == NDIRECT + 1
    ensures |b| == DINODE
  {
    SplitShort(d.typ) + SplitShort(d.major) + SplitShort(d.minor) + SplitShort(d.nlink) + Split(d.size) + Pack(d.addrs)
  }

  function WordAt(b: seq<Byte>, k: int): Word
    requires |b| == DINODE && 0 <= k <= NDIRECT
  {
    Join(b[12 + 4 * k..16 + 4 * k])
  }

  function Decode(b: seq<Byte>): (d: Inode)
    requires |b| == DINODE
    ensures |d.addrs| == NDIRECT + 1
  {
    Inode(JoinShort(b[0..2]), JoinShort(b[2..4]), JoinShort(b[4..6]), JoinShort(b[6..8]), Join(b[8..12]),
          seq(NDIRECT + 1, k requires 0 <= k <= NDIRECT => WordAt(b, k)))
  }

  /** Nothing of an inode is lost on the way to the disk and back. */
  lemma DecodeEncode(d: Inode)
    requires |d.addrs| == NDIRECT + 1
    ensures Decode(Encode(d)) == d
  {
    hide SplitShort, JoinShort, Split, Join, Pack;
    var b := Encode(d);
    assert b[0..2] == SplitShort(d.typ) && b[2..4] == SplitShort(d.major);
    assert b[4..6] == SplitShort(d.minor) && b[6..8] == SplitShort(d.nlink) && b[8..12] == Split(d.size);
    ShortRound(d.typ);
    ShortRound(d.major);
    ShortRound(d.minor);
    ShortRound(d.nlink);
    JoinSplit(d.size);
    forall k | 0 <= k <= NDIRECT ensures WordAt(b, k) == d.addrs[k] {
      PackAt(d.addrs, k);
      assert b[12 + 4 * k..16 + 4 * k] == Pack(d.addrs)[4 * k..4 * k + 4];
      JoinSplit(d.addrs[k]);
    }
    assert Decode(b).addrs == d.addrs;
  }

  /** The place of inode `j` of an inode block. */
  function GetDinode(b: Block, j: nat): Inode
    requires j < IPB
  {
    Decode(b[DINODE * j..DINODE * j + DINODE])
  }

  function PutDinode(b: Block, j: nat, d: Inode): Block
    requires j < IPB && |d.addrs| == NDIRECT + 1
  {
    b[..DINODE * j] + Encode(d) + b[DINODE * j + DINODE..]
  }

  lemma PutThenGet(b: Block, j: nat, d: Inode, k: nat)
    requires j < IPB && k < IPB && |d.addrs| == NDIRECT + 1
    ensures GetDinode(PutDinode(b, j, d), k) == if k == j then d else GetDinode(b, k)
  {
    hide Encode, Decode;
    var r := PutDinode(b, j, d);
    if k == j {
      DecodeEncode(d);
      assert r[DINODE * j..DINODE * j + DINODE] == Encode(d);
    } else {
      assert r[DINODE * k..DINODE * k + DINODE] == b[DINODE * k..DINODE * k + DINODE];
    }
  }

  /** The inode blocks of the disk hold the table. */
  ghost predicate Holds(sb: Super, disk: seq<Block>, table: seq<Inode>) {
    && Layout(sb) && |disk| == sb.size && |table| == sb.ninodes
    && forall i :: 0 <= i < sb.ninodes ==>
                     IBlock(sb, i) < sb.size && GetDinode(disk[IBlock(sb, i)], i % IPB) == table[i]
  }

  /** The disk with inode `i` stored in its inode block. */
  function PutInode(sb: Super, disk: seq<Block>, i: nat, d: Inode): seq<Block>
    requires IBlock(sb, i) < |disk| && |d.addrs| == NDIRECT + 1
  {
    disk[IBlock(sb, i) := PutDinode(disk[IBlock(sb, i)], i % IPB, d)]
  }

  /** Every inode read afterwards is the one last stored. */
  lemma StoredInode(sb: Super, disk: seq<Block>, table: seq<Inode>, i: nat, d: Inode)
    requires Holds(sb, disk, table) && i < sb.ninodes && |d.addrs| == NDIRECT + 1
    ensures sb.inodestart <= IBlock(sb, i) < sb.bmapstart <= |disk| && |table| == sb.ninodes
    ensures Holds(sb, PutInode(sb, disk, i, d), table[i := d])
  {
    hide GetDinode, PutDinode;
    var b := IBlock(sb, i);
    var disk' := PutInode(sb, disk, i, d);
    forall j | 0 <= j < sb.ninodes ensures GetDinode(disk'[IBlock(sb, j)], j % IPB) == table[i := d][j] {
      PutThenGet(disk[b], i % IPB, d, j % IPB);
      SamePlace(i, j);
    }
  }

  /** Inode block `m` with the first `j` of its inodes stored. */
  function Filled(table: seq<Inode>, m: nat, j: nat): Block
    requires j <= IPB
  {
    if j == 0 then ZeroBlock()
    else
      var i := IPB * m + j - 1;
      if i < |table| && |table[i].addrs| == NDIRECT + 1 then PutDinode(Filled(table, m, j - 1), j - 1, table[i])
      else Filled(table, m, j - 1)
  }

  lemma {:induction false} FilledAt(table: seq<Inode>, m: nat, j: nat, k: nat)
    requires k < j <= IPB && IPB * m + k < |table| && |table[IPB * m + k].addrs| == NDIRECT + 1
    ensures GetDinode(Filled(table, m, j), k) == table[IPB * m + k]
    decreases j
  {
    hide GetDinode, PutDinode;
    var i := IPB * m + j - 1;
    if i < |table| && |table[i].addrs| == NDIRECT + 1 {
      PutThenGet(Filled(table, m, j - 1), j - 1, table[i], k);
    }
    if k < j - 1 {
      FilledAt(table, m, j - 1, k);
    }
  }

  lemma FilledHolds(sb: Super, disk: seq<Block>, table: seq<Inode>)
    requires Layout(sb) && |disk| == sb.size && |table| == sb.ninodes
    requires forall i :: 0 <= i < |table| ==> |table[i].addrs| == NDIRECT + 1
    requires forall b :: sb.inodestart <= b < sb.bmapstart ==> disk[b] == Filled(table, b - sb.inodestart, IPB)
    ensures Holds(sb, disk, table)
  {
    hide GetDinode, Filled;
    forall i | 0 <= i < sb.ninodes
      ensures IBlock(sb, i) < sb.size && GetDinode(disk[IBlock(sb, i)], i % IPB) == table[i]
    {
      assert IPB * (i / IPB) + i % IPB == i;
      FilledAt(table, i / IPB, IPB, i % IPB);
    }
  }

  lemma HoldsKept(sb: Super, disk: seq<Block>, disk': seq<Block>, table: seq<Inode>)
    requires Holds(sb, disk, table) && |disk'| == |disk|
    requires forall b :: sb.inodestart <= b < sb.bmapstart ==> disk'[b] == disk[b]
    ensures Holds(sb, disk', table)
  {
    hide GetDinode;
  }

  lemma InodeAt(sb: Super, disk: seq<Block>, table: seq<Inode>, i: nat)
    requires Holds(sb, disk, table) && i < sb.ninodes
    ensures sb.inodestart <= IBlock(sb, i) < sb.bmapstart <= |disk|
    ensures GetDinode(disk[IBlock(sb, i)], i % IPB) == table[i]
  {
    hide GetDinode;
  }

  /** Two inodes never share a place. */
  lemma SamePlace(i: nat, j: nat)
    ensures i / IPB == j / IPB && i % IPB == j % IPB ==> i == j
  {}
}
