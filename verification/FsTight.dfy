/** A disk on which one chunk of filewrite logs MAXOPBLOCKS blocks. It has four free blocks, each under another block of
    the bitmap; all others belong to files. */
module FsTight {
  import opened FsLayout
  import opened FsState
  import opened FsWrite
  import opened FsInode
  import opened Fs
  import opened FsChunk
  import opened Mkfs

  const FSSIZE := 24577
  const NINODES := 1639
  const NLOG := 8082
  const FIRST := 8193                 // blocks FIRST to LAST - 1 are in use
  const LAST := 24575
  const FILLERS := FIRST + NDIRECT    // the first NDIRECT of them belong to inode 1
  const EACH := 10                    // blocks of each of the other files

  function Geometry(): Super { Layouted(FSSIZE, NINODES, NLOG) }

  lemma GeometryIs()
    ensures Geometry() == Super(FSSIZE, NINODES, 8084, 8187, 8191) && Layout(Geometry())
  {}

  function SlotAt(b: nat): Slot
    requires FIRST <= b
  {
    if b < FILLERS then Slot(1, b - FIRST) else Slot(2 + (b - FILLERS) / EACH, (b - FILLERS) % EACH)
  }

  function InodeAt(i: int): Inode {
    if i == 0 then Blank()
    else if i == 1 then Inode(2, 0, 0, 1, NDIRECT * BSIZE, seq(NDIRECT + 1, k => if k < NDIRECT then FIRST + k else 0))
    else Inode(2, 0, 0, 1, EACH * BSIZE,
                 seq(NDIRECT + 1, k => if k < EACH then (FILLERS + EACH * (i - 2) + k) % WORDS else 0))
  }

  /** The bitmap: the last bit of blocks 0 and 2 and the first of block 1 are clear, and all of block 3. */
  function ByteAt(m: int, j: int): Byte {
    if m == 3 then 0
    else if m == 1 then (if j == 0 then 254 else 255)
    else if j == BSIZE - 1 then 127 else 255
  }

  function Bitmap(m: int): Block { seq(BSIZE, j => ByteAt(m, j)) }

  function BlockAt(b: int): Block {
    if 8084 <= b < 8187 then Filled(Inodes(), b - 8084, IPB)
    else if 8187 <= b < 8191 then Bitmap(b - 8187)
    else ZeroBlock()
  }

  function Disk(): seq<Block> { seq(FSSIZE, b => BlockAt(b)) }

  function Inodes(): seq<Inode> { seq(NINODES, i => InodeAt(i)) }

  ghost function Owner(): map<nat, Slot> { map b: nat | FIRST <= b < LAST :: SlotAt(b) }

  ghost function Start(): State { State(Disk(), Inodes(), Owner()) }

  lemma Bytes(k: nat)
    requires k < 8
    ensures Bit(255, k) && (Bit(254, k) <==> k != 0) && (Bit(127, k) <==> k != 7) && !Bit(0, k)
  {
    assert k == 0 || k == 1 || k == 2 || k == 3 || k == 4 || k == 5 || k == 6 || k == 7;
  }

  lemma StartBits()
    ensures Layout(Geometry()) && Bits(Geometry(), Disk(), Owner().Keys)
  {
    GeometryIs();
    forall b | 0 <= b < FSSIZE ensures Used(Geometry(), Disk(), b) <==> b < 8191 || b in Owner().Keys {
      hide Bit;
      Bytes(b % BPB % 8);
    }
  }

  lemma EntryAt(i: nat, k: nat)
    requires i < NINODES && k < NSLOTS
    ensures |Inodes()[i].addrs| == NDIRECT + 1
    ensures Entry(Start(), i, k) ==
            if i == 1 && k < NDIRECT then FIRST + k else if i >= 2 && k < EACH then FILLERS + EACH * (i - 2) + k else 0
  {
    hide GetWord;
  }

  lemma StartRefs()
    ensures Refs(Geometry(), Start())
  {
    hide Entry, InodeAt, SlotAt, BlockAt;
    var s := Start();
    GeometryIs();
    forall i | 0 <= i < NINODES ensures |Inodes()[i].addrs| == NDIRECT + 1 {
      EntryAt(i, 0);
    }
    forall i, k | 0 <= i < NINODES && 0 <= k < NSLOTS && Entry(s, i, k) != 0
      ensures Entry(s, i, k) in s.owner && s.owner[Entry(s, i, k)] == Slot(i, k)
    {
      EntryAt(i, k);
      SlotBack(i, k);
    }
    forall b | b in s.owner
      ensures s.owner[b].inum < NINODES && s.owner[b].k < NSLOTS && Entry(s, s.owner[b].inum, s.owner[b].k) == b
    {
      SlotThere(b);
      EntryAt(s.owner[b].inum, s.owner[b].k);
    }
    forall i | 0 <= i < NINODES ensures Covered(Geometry(), s, i, s.inodes[i].size) {
      StartCovered(i);
    }
  }

  lemma SlotBack(i: nat, k: nat)
    ensures i == 1 && k < NDIRECT ==> FIRST + k < LAST && SlotAt(FIRST + k) == Slot(i, k)
    ensures 2 <= i < NINODES && k < EACH ==>
              FILLERS + EACH * (i - 2) + k < LAST && SlotAt(FILLERS + EACH * (i - 2) + k) == Slot(i, k)
  {}

  lemma SlotThere(b: nat)
    requires FIRST <= b < LAST
    ensures var t := SlotAt(b);
            && t.inum < NINODES && t.k < NDIRECT
            && ((t.inum == 1 && b == FIRST + t.k)
                || (t.inum >= 2 && t.k < EACH && b == FILLERS + EACH * (t.inum - 2) + t.k))
  {}

  lemma StartCovered(i: nat)
    requires i < NINODES && Shaped(Geometry(), Start())
    ensures Covered(Geometry(), Start(), i, Inodes()[i].size)
  {
    hide Entry;
    forall bn: nat | bn < MAXFILE && bn * BSIZE < Inodes()[i].size ensures Entry(Start(), i, SlotOf(bn)) != 0 {
      EntryAt(i, SlotOf(bn));
    }
  }

  lemma StartHolds()
    ensures Holds(Geometry(), Disk(), Inodes())
  {
    hide Filled;
    GeometryIs();
    forall i | 0 <= i < NINODES ensures |Inodes()[i].addrs| == NDIRECT + 1 {
      EntryAt(i, 0);
    }
    FilledHolds(Geometry(), Disk(), Inodes());
  }

  lemma StartInv()
    ensures Inv(Geometry(), Start()) && Holds(Geometry(), Disk(), Inodes()) && FreeEmpty(Inodes())
  {
    hide Refs, Bits, Bitmap, Holds;
    StartRefs();
    StartBits();
    StartHolds();
  }

  predicate IsFree(b: nat) { b == 8191 || b == 8192 || b == 24575 || b == 24576 }

  lemma FreeBlocks(b: nat)
    requires 8191 <= b < FSSIZE && b !in Owner()
    ensures IsFree(b)
  {}

  /** The new blocks of the file are the free ones, in slots 12 to 15. */
  lemma NewSlot(s': State, b: nat)
    requires Refs(Geometry(), s') && b in s'.owner && b !in Owner() && s'.owner[b].inum == 1
    requires s'.owner[b].k == NDIRECT || 11 <= BnOf(s'.owner[b].k) < 15
    requires forall c :: c in Owner() ==> c in s'.owner && s'.owner[c] == Owner()[c]
    ensures IsFree(b) && 12 <= s'.owner[b].k < 16 && Entry(s', 1, s'.owner[b].k) == b
  {
    hide Entry, NoHoles;
    GeometryIs();
    var k := s'.owner[b].k;
    assert Entry(s', 1, k) == b;
    assert s'.owner[FIRST + 11] == Slot(1, 11) && Entry(s', 1, 11) == FIRST + 11;
    FreeBlocks(b);
  }

  /** On a full disk they have found their slots. */
  lemma FourSlots(s': State, k: nat)
    requires Refs(Geometry(), s') && Full(Geometry(), s') && 12 <= k < 16
    requires forall b :: b in s'.owner && b !in Owner() ==>
               s'.owner[b].inum == 1 && (s'.owner[b].k == NDIRECT || 11 <= BnOf(s'.owner[b].k) < 15)
    requires forall c :: c in Owner() ==> c in s'.owner && s'.owner[c] == Owner()[c]
    ensures Entry(s', 1, k) != 0
  {
    hide Entry, Refs;
    GeometryIs();
    NewSlot(s', 8191);
    NewSlot(s', 8192);
    NewSlot(s', 24575);
    NewSlot(s', 24576);
    assert s'.owner[8191].k != s'.owner[8192].k && s'.owner[8191].k != s'.owner[24575].k;
    assert s'.owner[8191].k != s'.owner[24576].k && s'.owner[8192].k != s'.owner[24575].k;
    assert s'.owner[8192].k != s'.owner[24576].k && s'.owner[24575].k != s'.owner[24576].k;
  }

  const OFF := 11 * BSIZE + 1         // inside the last direct block

  ghost predicate Grew(s': State) {
    && Refs(Geometry(), s')
    && (forall c :: c in Owner() ==> c in s'.owner && s'.owner[c] == Owner()[c])
    && (forall b :: b in s'.owner && b !in Owner() ==>
          s'.owner[b].inum == 1 && (s'.owner[b].k == NDIRECT || 11 <= BnOf(s'.owner[b].k) < 15))
  }

  /** A chunk that stops short would have left one of the four blocks unused. */
  lemma Complete(s': State, r: nat)
    requires Grew(s') && Full(Geometry(), s') && r < CHUNK
    ensures Entry(s', 1, SlotOf((OFF + r) / BSIZE)) != 0
  {
    hide Entry, NoHoles, Full, BnOf;
    var bn := (OFF + r) / BSIZE;
    assert 11 <= bn < 15;
    if bn == 11 {
      assert s'.owner[FIRST + 11] == Slot(1, 11);
      assert Entry(s', 1, 11) == FIRST + 11;
    } else {
      FourSlots(s', SlotOf(bn));
    }
  }

  lemma FourMaps(s': State, k: nat)
    requires Grew(s') && 12 <= k < 16 && Entry(s', 1, k) != 0
    ensures IsFree(Entry(s', 1, k)) && Entry(s', 1, k) in s'.owner && s'.owner[Entry(s', 1, k)] == Slot(1, k)
  {
    hide Entry, NoHoles;
    var b := Entry(s', 1, k);
    assert s'.owner[b] == Slot(1, k);
    NewSlot(s', b);
  }

  lemma MapsApart(b: nat, c: nat)
    requires IsFree(b) && IsFree(c) && b != c
    ensures BBlock(Geometry(), b) != BBlock(Geometry(), c)
  {}

  lemma AllSlots(s': State, k: nat)
    requires Grew(s') && s'.inodes[1].size >= OFF + CHUNK && 12 <= k < 16
    ensures Entry(s', 1, k) != 0
  {
    hide Entry, Owners;
    SizeCovered(Geometry(), s', 1);
    assert SlotOf(12) == 13 && SlotOf(13) == 14 && SlotOf(14) == 15;
    assert Entry(s', 1, 13) != 0 && Entry(s', 1, 14) != 0 && Entry(s', 1, 15) != 0;
    IndirectUsed(s', 1, 13);
  }

  /** The bound of filewrite's chunks is reached. */
  method TightRun() returns (fs: FileSystem, r: int)
    ensures fs.Valid() && r == CHUNK && |fs.logged| == MAXOPBLOCKS
  {
    hide Entry, Owners, NoHoles, Bits, Logged, RefSet, InodeAt, Disk, Inodes, Owner, Covered, FreeEmpty, Content, Holds,
         Written, Covers, Torn, Layout, Full;
    GeometryIs();
    StartInv();
    fs := new FileSystem(Geometry(), Disk(), Inodes(), Owner());
    FileOne();
    ghost var s := fs.S();
    ghost var e: nat;
    r, e := fs.WriteI(1, seq(CHUNK, _ => 0), OFF, CHUNK);
    ghost var s' := fs.S();
    assert Hit(OFF, CHUNK) == 15 && OFF / BSIZE == 11;
    assert Grew(s');
    if r < CHUNK {
      Complete(s', r);
    }
    forall k, l | NDIRECT <= k < l < NDIRECT + 4
      ensures BBlock(Geometry(), Entry(s', 1, k)) != BBlock(Geometry(), Entry(s', 1, l))
    {
      AllSlots(s', k);
      AllSlots(s', l);
      FourMaps(s', k);
      FourMaps(s', l);
      MapsApart(Entry(s', 1, k), Entry(s', 1, l));
    }
    ChunkBoundTight(Geometry(), s, s', 1, OFF, fs.logged);
  }

  /** A write of two bytes of which the second cannot be read: writei reports that nothing was written, but the file has
      changed, in a block that was not logged. */
  method TornRun() returns (fs: FileSystem, r: int)
    ensures fs.Valid() && r == 0 && |fs.disk| == FSSIZE && FIRST !in fs.logged && fs.disk[FIRST] != Disk()[FIRST]
    ensures fs.sb == Geometry() && fs.inodes[1].size > 0 && Content(fs.sb, fs.S(), 1)[0] == 1
  {
    hide Entry, Owners, NoHoles, Bits, Logged, RefSet, InodeAt, Disk, Inodes, Owner, Covered, FreeEmpty, Content, Holds,
         Covers, Torn, Layout, Full, Hit, BnOf;
    GeometryIs();
    StartInv();
    fs := new FileSystem(Geometry(), Disk(), Inodes(), Owner());
    FileOne();
    FirstOwned();
    ghost var s := fs.S();
    ghost var e: nat;
    r, e := fs.WriteI(1, [1], 0, 2);
    ghost var s' := fs.S();
    FirstKept(s');
    assert Piece(2, 0) == 2;
    BlockByte(Geometry(), s', 1, 0);
    NotLogged(Geometry(), s, s', 1, 0, 2, r, fs.logged, 0);
  }

  lemma FirstOwned()
    ensures FIRST in Owner() && Owner()[FIRST] == Slot(1, 0) && |Disk()| == FSSIZE && Disk()[FIRST][0] == 0
  {}

  lemma FirstKept(s': State)
    requires Refs(Geometry(), s') && FIRST in s'.owner && s'.owner[FIRST] == Slot(1, 0)
    ensures Entry(s', 1, SlotOf(0)) == FIRST && Hit(0, 0) == 0
  {
    hide Entry, NoHoles;
    GeometryIs();
  }

  lemma FileOne()
    ensures |Inodes()| == NINODES && Inodes()[1].typ != 0 && Inodes()[1].size == NDIRECT * BSIZE
    ensures |Inodes()[1].addrs| == NDIRECT + 1 && Inodes()[1].addrs[NDIRECT] == 0
  {}
}
