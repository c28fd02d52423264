/** Who owns which block: the invariant of kernel/fs.c and the steps that keep it. */
module FsState {
  import opened FsLayout

  /** The parts of struct superblock in use; `nmeta` is the first data block. */
  datatype Super = Super(size: nat, ninodes: nat, inodestart: nat, bmapstart: nat, nmeta: nat)

  /** struct dinode; the copy in memory has the same fields. */
  datatype Inode = Inode(typ: Short, major: Short, minor: Short, nlink: Short, size: Word, addrs: seq<Word>)

  /** A place that can hold a block number: addrs[k], or entry k - 13 of the indirect block. */
  datatype Slot = Slot(inum: nat, k: nat)

  const NSLOTS := NDIRECT + 1 + NINDIRECT

  datatype State = State(disk: seq<Block>, inodes: seq<Inode>, owner: map<nat, Slot>)

  /** The layout of fs.h: inode blocks, then the bitmap, then data. */
  ghost predicate Layout(sb: Super) {
    && sb.size + BPB < 0x8000_0000
    && 2 <= sb.inodestart && sb.inodestart + (sb.ninodes + IPB - 1) / IPB <= sb.bmapstart
    && sb.bmapstart + (sb.size + BPB - 1) / BPB <= sb.nmeta <= sb.size
  }

  function BBlock(sb: Super, b: nat): nat { b / BPB + sb.bmapstart }

  function IBlock(sb: Super, i: nat): nat { i / IPB + sb.inodestart }

  ghost predicate Shaped(sb: Super, s: State) {
    && Layout(sb) && |s.disk| == sb.size && |s.inodes| == sb.ninodes
    && (forall i :: 0 <= i < |s.inodes| ==> |s.inodes[i].addrs| == NDIRECT + 1)
  }

  /** The block number in slot `k` of inode `i`, 0 if none. */
  ghost function Entry(s: State, i: int, k: int): nat
    requires 0 <= i < |s.inodes| && |s.inodes[i].addrs| == NDIRECT + 1 && 0 <= k < NSLOTS
  {
    var addrs := s.inodes[i].addrs;
    if k <= NDIRECT then addrs[k]
    else if addrs[NDIRECT] == 0 || addrs[NDIRECT] >= |s.disk| then 0
    else GetWord(s.disk[addrs[NDIRECT]], k - NDIRECT - 1)
  }

  /** The slot of the `bn`th block of a file. */
  function SlotOf(bn: nat): nat {
    if bn < NDIRECT then bn else bn + 1
  }

  /** Block numbers in use are distinct data blocks: `owner` is the inverse of `Entry`. */
  ghost predicate Owners(sb: Super, s: State)
    requires Shaped(sb, s)
  {
    && (forall i, k :: 0 <= i < sb.ninodes && 0 <= k < NSLOTS && Entry(s, i, k) != 0 ==>
          Entry(s, i, k) in s.owner && s.owner[Entry(s, i, k)] == Slot(i, k))
    && (forall b :: b in s.owner ==>
          && sb.nmeta <= b < sb.size && s.owner[b].inum < sb.ninodes && s.owner[b].k < NSLOTS
          && Entry(s, s.owner[b].inum, s.owner[b].k) == b)
  }

  /** Bit `b` of the bitmap. */
  ghost predicate Used(sb: Super, disk: seq<Block>, b: int)
    requires Layout(sb) && |disk| == sb.size && 0 <= b < sb.size
  {
    BlockBit(disk[BBlock(sb, b)], b % BPB)
  }

  /** The bitmap marks the metadata blocks and `marked`. */
  ghost predicate Bits(sb: Super, disk: seq<Block>, marked: set<nat>)
    requires Layout(sb) && |disk| == sb.size
  {
    forall b :: 0 <= b < sb.size ==> (Used(sb, disk, b) <==> b < sb.nmeta || b in marked)
  }

  /** No holes: every byte below size lies in an allocated block. */
  ghost predicate NoHoles(sb: Super, s: State)
    requires Shaped(sb, s)
  {
    forall i :: 0 <= i < sb.ninodes ==> Covered(sb, s, i, s.inodes[i].size)
  }

  ghost predicate Covered(sb: Super, s: State, i: nat, n: nat)
    requires Shaped(sb, s) && i < sb.ninodes
  {
    n <= MAXFILE * BSIZE && forall bn: nat :: bn < MAXFILE && bn * BSIZE < n ==> Entry(s, i, SlotOf(bn)) != 0
  }

  ghost predicate Refs(sb: Super, s: State) {
    Shaped(sb, s) && Owners(sb, s) && NoHoles(sb, s)
  }

  /** Block ownership: what holds in every reachable state. */
  ghost predicate Inv(sb: Super, s: State) {
    Refs(sb, s) && Bits(sb, s.disk, s.owner.Keys)
  }

  ghost function DataAt(s: State, i: nat, p: nat): Byte
    requires i < |s.inodes| && |s.inodes[i].addrs| == NDIRECT + 1 && p < MAXFILE * BSIZE
  {
    var b := Entry(s, i, SlotOf(p / BSIZE));
    if b < |s.disk| then s.disk[b][p % BSIZE] else 0
  }

  /** The file as a plain byte sequence. */
  ghost function Content(sb: Super, s: State, i: nat): (c: seq<Byte>)
    requires Refs(sb, s) && i < sb.ninodes
    ensures |c| == s.inodes[i].size
    ensures forall p :: 0 <= p < |c| ==> c[p] == DataAt(s, i, p)
  {
    assert Covered(sb, s, i, s.inodes[i].size);
    seq(s.inodes[i].size, p requires 0 <= p < s.inodes[i].size => DataAt(s, i, p))
  }

  /** The data blocks are the same. */
  ghost predicate SameData(sb: Super, d: seq<Block>, d': seq<Block>) {
    |d| == |d'| == sb.size && forall b :: sb.nmeta <= b < sb.size ==> d'[b] == d[b]
  }

  /** `s'` has every block that `s` has, in the same place and with the same contents. */
  ghost predicate Extends(sb: Super, s: State, s': State)
    requires Shaped(sb, s) && Shaped(sb, s')
  {
    && (forall i, k :: 0 <= i < sb.ninodes && 0 <= k < NSLOTS && Entry(s, i, k) != 0 ==>
                         Entry(s', i, k) == Entry(s, i, k))
    && (forall i, k :: 0 <= i < sb.ninodes && 0 <= k < NSLOTS && k != NDIRECT && 0 < Entry(s, i, k) < sb.size ==>
          s'.disk[Entry(s, i, k)] == s.disk[Entry(s, i, k)])
  }

  lemma ExtendsTrans(sb: Super, s: State, s': State, s'': State)
    requires Refs(sb, s) && Shaped(sb, s') && Shaped(sb, s'') && Extends(sb, s, s') && Extends(sb, s', s'')
    ensures Extends(sb, s, s'')
  {}

  /** Growing keeps what files read. */
  lemma ExtendsKeepsData(sb: Super, s: State, s': State, i: nat, n: nat, p: nat)
    requires Refs(sb, s) && Shaped(sb, s') && Extends(sb, s, s') && i < sb.ninodes && Covered(sb, s, i, n) && p < n
    ensures DataAt(s', i, p) == DataAt(s, i, p)
  {
    var bn := p / BSIZE;
    assert Entry(s, i, SlotOf(bn)) != 0;
    assert s.owner[Entry(s, i, SlotOf(bn))] == Slot(i, SlotOf(bn));
  }

  /** A new, zeroed block `b` goes into the empty slot `k` of inode `i`. */
  ghost predicate Attached(sb: Super, s: State, s': State, i: nat, k: nat, b: nat)
    requires Shaped(sb, s) && i < sb.ninodes && k < NSLOTS && b < WORDS
  {
    var node := s.inodes[i];
    var ind := node.addrs[NDIRECT];
    && |s'.disk| == |s.disk| && sb.nmeta <= b < sb.size && b !in s.owner && Entry(s, i, k) == 0
    && (k > NDIRECT ==> 0 < ind < sb.size && s'.disk[ind] == PutWord(s.disk[ind], k - NDIRECT - 1, b))
    && s'.inodes == (if k <= NDIRECT then s.inodes[i := node.(addrs := node.addrs[k := b])] else s.inodes)
    && s'.disk[b] == ZeroBlock()
    && (forall c :: sb.nmeta <= c < sb.size && c != b && !(k > NDIRECT && c == ind) ==> s'.disk[c] == s.disk[c])
    && s'.owner == s.owner[b := Slot(i, k)]
  }

  lemma AttachedEntry(sb: Super, s: State, s': State, i: nat, k: nat, b: nat, i': nat, k': nat)
    requires Refs(sb, s) && i < sb.ninodes && k < NSLOTS && b < WORDS && Attached(sb, s, s', i, k, b)
    requires i' < sb.ninodes && k' < NSLOTS
    ensures Entry(s', i', k') == if i' == i && k' == k then b else Entry(s, i', k')
  {
    hide GetWord, PutWord, NoHoles;
    var ind := s.inodes[i'].addrs[NDIRECT];
    assert Entry(s, i', NDIRECT) == ind && Entry(s, i, NDIRECT) == s.inodes[i].addrs[NDIRECT];
    if k' > NDIRECT {
      ZeroWord(k' - NDIRECT - 1);
      if k > NDIRECT && i' == i {
        WordRoundTrip(s.disk[ind], k - NDIRECT - 1, b, k' - NDIRECT - 1);
      }
    }
  }

  lemma AttachKeeps(sb: Super, s: State, s': State, i: nat, k: nat, b: nat)
    requires Refs(sb, s) && i < sb.ninodes && k < NSLOTS && b < WORDS && Attached(sb, s, s', i, k, b)
    ensures Refs(sb, s') && Extends(sb, s, s') && Entry(s', i, k) == b
  {
    hide GetWord, PutWord, Entry, Covered, Extends, Owners;
    assert Shaped(sb, s');
    forall i', k' | 0 <= i' < sb.ninodes && 0 <= k' < NSLOTS
      ensures Entry(s', i', k') == if i' == i && k' == k then b else Entry(s, i', k')
    {
      AttachedEntry(sb, s, s', i, k, b, i', k');
    }
    forall i' | 0 <= i' < sb.ninodes ensures Covered(sb, s', i', s'.inodes[i'].size) {
      StillCovered(sb, s, s', i', s.inodes[i'].size);
    }
    AttachOwners(sb, s, s', i, k, b);
    AttachExtends(sb, s, s', i, k, b);
  }

  lemma AttachOwners(sb: Super, s: State, s': State, i: nat, k: nat, b: nat)
    requires Refs(sb, s) && i < sb.ninodes && k < NSLOTS && Shaped(sb, s') && sb.nmeta <= b < sb.size
    requires b !in s.owner && s'.owner == s.owner[b := Slot(i, k)] && Entry(s, i, k) == 0
    requires forall i', k' :: 0 <= i' < sb.ninodes && 0 <= k' < NSLOTS ==>
               Entry(s', i', k') == if i' == i && k' == k then b else Entry(s, i', k')
    ensures Owners(sb, s')
  {
    hide Entry, NoHoles;
  }

  lemma StillCovered(sb: Super, s: State, s': State, i: nat, n: nat)
    requires Shaped(sb, s) && Shaped(sb, s') && i < sb.ninodes && Covered(sb, s, i, n)
    requires forall k :: 0 <= k < NSLOTS && Entry(s, i, k) != 0 ==> Entry(s', i, k) != 0
    ensures Covered(sb, s', i, n)
  {}

  lemma AttachExtends(sb: Super, s: State, s': State, i: nat, k: nat, b: nat)
    requires Refs(sb, s) && i < sb.ninodes && k < NSLOTS && b < WORDS && Attached(sb, s, s', i, k, b) && Shaped(sb, s')
    requires forall i', k' :: 0 <= i' < sb.ninodes && 0 <= k' < NSLOTS ==>
               Entry(s', i', k') == if i' == i && k' == k then b else Entry(s, i', k')
    ensures Extends(sb, s, s')
  {
    hide GetWord, PutWord, Entry, Covered;
    EntryIsAddr(s, i, NDIRECT);
  }

  lemma EntryIsAddr(s: State, i: nat, k: nat)
    requires i < |s.inodes| && |s.inodes[i].addrs| == NDIRECT + 1 && k <= NDIRECT
    ensures Entry(s, i, k) == s.inodes[i].addrs[k]
  {}

  /** The bitmap bit of `b` is set or cleared. */
  ghost predicate Flipped(sb: Super, d: seq<Block>, d': seq<Block>, b: nat, on: bool)
    requires Layout(sb)
  {
    && |d| == |d'| == sb.size && b < sb.size
    && var bb := BBlock(sb, b);
       d' == d[bb := if on then MarkBit(d[bb], b % BPB) else ClearBit(d[bb], b % BPB)]
  }

  lemma FlippedBits(sb: Super, d: seq<Block>, d': seq<Block>, marked: set<nat>, b: nat, on: bool)
    requires Layout(sb) && Flipped(sb, d, d', b, on) && Bits(sb, d, marked) && b >= sb.nmeta
    ensures Bits(sb, d', if on then marked + {b} else marked - {b}) && SameData(sb, d, d')
  {
    hide BlockBit, MarkBit, ClearBit;
    forall c | 0 <= c < sb.size
      ensures Used(sb, d', c) == if c == b then on else Used(sb, d, c)
    {
      MarkedBit(d[BBlock(sb, b)], b % BPB, c % BPB);
    }
  }

  /** Data blocks do not hold the bitmap. */
  lemma DataKeepsBits(sb: Super, d: seq<Block>, d': seq<Block>, marked: set<nat>)
    requires Layout(sb) && |d| == |d'| == sb.size && Bits(sb, d, marked)
    requires forall b :: 0 <= b < sb.nmeta ==> d'[b] == d[b]
    ensures Bits(sb, d', marked)
  {
    hide BlockBit;
    assert forall c :: 0 <= c < sb.size ==> Used(sb, d', c) == Used(sb, d, c);
  }

  /** What the blocks before the bitmap hold does not matter to the files. */
  lemma MetaKeeps(sb: Super, s: State, s': State)
    requires Refs(sb, s) && s'.inodes == s.inodes && s'.owner == s.owner && |s'.disk| == sb.size
    requires forall b :: sb.nmeta <= b < sb.size ==> s'.disk[b] == s.disk[b]
    ensures Refs(sb, s')
    ensures forall i, k :: 0 <= i < sb.ninodes && 0 <= k < NSLOTS ==> Entry(s', i, k) == Entry(s, i, k)
    ensures forall i :: 0 <= i < sb.ninodes ==> Content(sb, s', i) == Content(sb, s, i)
  {
    hide GetWord, Content;
    forall i, k | 0 <= i < sb.ninodes && 0 <= k < NSLOTS ensures Entry(s', i, k) == Entry(s, i, k) {
      EntryIsAddr(s, i, NDIRECT);
    }
    forall i | 0 <= i < sb.ninodes ensures Covered(sb, s', i, s'.inodes[i].size) {
      assert Covered(sb, s, i, s.inodes[i].size);
    }
    assert Refs(sb, s');
    forall i | 0 <= i < sb.ninodes ensures Content(sb, s', i) == Content(sb, s, i) {
      assert Covered(sb, s, i, s.inodes[i].size);
      forall p | 0 <= p < s.inodes[i].size ensures DataAt(s', i, p) == DataAt(s, i, p) {
        assert Entry(s, i, SlotOf(p / BSIZE)) != 0;
      }
    }
  }

  lemma MetaKeepsBits(sb: Super, d: seq<Block>, d': seq<Block>, marked: set<nat>)
    requires Layout(sb) && |d| == |d'| == sb.size && Bits(sb, d, marked)
    requires forall b :: sb.bmapstart <= b < sb.nmeta ==> d'[b] == d[b]
    ensures Bits(sb, d', marked)
  {
    hide BlockBit;
    assert forall c :: 0 <= c < sb.size ==> Used(sb, d', c) == Used(sb, d, c);
  }

  /** Data block `bn` of file `i` is overwritten. */
  ghost predicate Stored(sb: Super, s: State, s': State, i: nat, bn: nat, data: Block)
    requires Shaped(sb, s) && i < sb.ninodes && bn < MAXFILE
  {
    var b := Entry(s, i, SlotOf(bn));
    0 < b < sb.size && s' == s.(disk := s.disk[b := data])
  }

  lemma StoreKeeps(sb: Super, s: State, s': State, i: nat, bn: nat, data: Block)
    requires Refs(sb, s) && i < sb.ninodes && bn < MAXFILE && Stored(sb, s, s', i, bn, data)
    ensures Refs(sb, s')
    ensures forall j, k :: 0 <= j < sb.ninodes && 0 <= k < NSLOTS ==> Entry(s', j, k) == Entry(s, j, k)
  {
    hide GetWord;
    assert s.owner[Entry(s, i, SlotOf(bn))] == Slot(i, SlotOf(bn));
    forall j, k | 0 <= j < sb.ninodes && 0 <= k < NSLOTS ensures Entry(s', j, k) == Entry(s, j, k) {
      EntryIsAddr(s, j, NDIRECT);
    }
  }

  /** The bytes of block `bn` of file `i` change and no others. */
  lemma StoredData(sb: Super, s: State, s': State, i: nat, bn: nat, data: Block, j: nat, n: nat, p: nat)
    requires Refs(sb, s) && i < sb.ninodes && bn < MAXFILE && Stored(sb, s, s', i, bn, data)
    requires j < sb.ninodes && Covered(sb, s, j, n) && p < n
    ensures DataAt(s', j, p) == if j == i && p / BSIZE == bn then data[p % BSIZE] else DataAt(s, j, p)
  {
    hide GetWord, NoHoles;
    StoreKeeps(sb, s, s', i, bn, data);
    var q := p / BSIZE;
    assert Entry(s, j, SlotOf(q)) != 0;
    assert s.owner[Entry(s, i, SlotOf(bn))] == Slot(i, SlotOf(bn));
    assert s.owner[Entry(s, j, SlotOf(q))] == Slot(j, SlotOf(q));
  }

  /** Inode `i` gives up all its blocks. */
  ghost predicate Truncated(sb: Super, s: State, s': State, i: nat)
    requires Shaped(sb, s) && i < sb.ninodes
  {
    && SameData(sb, s.disk, s'.disk)
    && s'.inodes == s.inodes[i := s.inodes[i].(size := 0, addrs := seq(NDIRECT + 1, _ => 0))]
    && s'.owner == map b | b in s.owner && s.owner[b].inum != i :: s.owner[b]
  }

  lemma TruncKeeps(sb: Super, s: State, s': State, i: nat)
    requires Refs(sb, s) && i < sb.ninodes && Truncated(sb, s, s', i)
    ensures Refs(sb, s') && forall k :: 0 <= k < NSLOTS ==> Entry(s', i, k) == 0
    ensures forall j :: 0 <= j < sb.ninodes && j != i ==> Content(sb, s', j) == Content(sb, s, j)
  {
    hide Entry, Content, Layout;
    forall j, k | 0 <= j < sb.ninodes && 0 <= k < NSLOTS
      ensures Entry(s', j, k) == if j == i then 0 else Entry(s, j, k)
    {
      TruncEntry(sb, s, s', i, j, k);
    }
    forall j | 0 <= j < sb.ninodes ensures Covered(sb, s', j, s'.inodes[j].size) {
      assert Covered(sb, s, j, s.inodes[j].size);
    }
    assert Refs(sb, s');
    forall j | 0 <= j < sb.ninodes && j != i ensures Content(sb, s', j) == Content(sb, s, j) {
      TruncOther(sb, s, s', j);
    }
  }

  lemma TruncEntry(sb: Super, s: State, s': State, i: nat, j: nat, k: nat)
    requires Refs(sb, s) && i < sb.ninodes && Truncated(sb, s, s', i) && j < sb.ninodes && k < NSLOTS
    ensures Entry(s', j, k) == if j == i then 0 else Entry(s, j, k)
  {
    hide GetWord, NoHoles;
    EntryIsAddr(s, j, NDIRECT);
  }

  lemma TruncOther(sb: Super, s: State, s': State, j: nat)
    requires Refs(sb, s) && Refs(sb, s') && j < sb.ninodes && SameData(sb, s.disk, s'.disk)
    requires s'.inodes[j] == s.inodes[j] && forall k :: 0 <= k < NSLOTS ==> Entry(s', j, k) == Entry(s, j, k)
    ensures Content(sb, s', j) == Content(sb, s, j)
  {
    hide Entry, NoHoles;
    CoveredOf(sb, s, j);
    forall p | 0 <= p < s.inodes[j].size ensures DataAt(s', j, p) == DataAt(s, j, p) {
      assert Entry(s, j, SlotOf(p / BSIZE)) != 0;
    }
  }

  lemma CoveredOf(sb: Super, s: State, j: nat)
    requires Shaped(sb, s) && NoHoles(sb, s) && j < sb.ninodes
    ensures Covered(sb, s, j, s.inodes[j].size)
  {}

  /** The first `m` data blocks of inode `i`. */
  ghost function Blocks(s: State, i: nat, m: nat): (r: set<nat>)
    requires i < |s.inodes| && |s.inodes[i].addrs| == NDIRECT + 1 && m <= MAXFILE
  {
    if m == 0 then {}
    else Blocks(s, i, m - 1) + if Entry(s, i, SlotOf(m - 1)) != 0 then {Entry(s, i, SlotOf(m - 1))} else {}
  }

  lemma {:induction false} BlocksAre(s: State, i: nat, m: nat)
    requires i < |s.inodes| && |s.inodes[i].addrs| == NDIRECT + 1 && m <= MAXFILE
    ensures forall bn: nat :: bn < m && Entry(s, i, SlotOf(bn)) != 0 ==> Entry(s, i, SlotOf(bn)) in Blocks(s, i, m)
    ensures forall b :: b in Blocks(s, i, m) ==> exists bn: nat :: bn < m && b == Entry(s, i, SlotOf(bn)) && b != 0
  {
    hide Entry;
    if m > 0 {
      BlocksAre(s, i, m - 1);
    }
  }

  /** Giving up those and the indirect block gives up everything the inode owns, each block once. */
  lemma AllBlocks(sb: Super, s: State, i: nat)
    requires Refs(sb, s) && i < sb.ninodes
    ensures (map b | b in s.owner && s.owner[b].inum != i :: s.owner[b]).Keys ==
            s.owner.Keys - Blocks(s, i, MAXFILE) - {Entry(s, i, NDIRECT)}
  {
    hide Entry, NoHoles, Blocks;
    BlocksAre(s, i, MAXFILE);
    forall b | b in s.owner && s.owner[b].inum == i
      ensures b in Blocks(s, i, MAXFILE) || b == Entry(s, i, NDIRECT)
    {
      var k := s.owner[b].k;
      if k != NDIRECT {
        var bn := if k < NDIRECT then k else k - 1;
        assert k == SlotOf(bn);
      }
    }
  }

  lemma NotYetFreed(sb: Super, s: State, i: nat, m: nat)
    requires Refs(sb, s) && i < sb.ninodes && m < MAXFILE
    ensures Entry(s, i, SlotOf(m)) !in Blocks(s, i, m)
    ensures Entry(s, i, NDIRECT) !in Blocks(s, i, MAXFILE)
  {
    hide Entry, NoHoles, Blocks;
    BlocksAre(s, i, m);
    BlocksAre(s, i, MAXFILE);
  }
}
