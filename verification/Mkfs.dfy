/** mkfs/mkfs.c: the initial image, as the base case of the file-system invariant. */
module Mkfs {
  import opened FsLayout
  import opened FsState
  import opened FsWrite
  import opened FsInode
  import opened Fs

  /** The layout arithmetic of mkfs. */
  function Layouted(fssize: nat, ninodes: nat, nlog: nat): Super {
    var ninodeblocks := ninodes / IPB + 1;
    var nbitmap := fssize / BPB + 1;
    Super(fssize, ninodes, 2 + nlog, 2 + nlog + ninodeblocks, 2 + nlog + ninodeblocks + nbitmap)
  }

  lemma LayoutHolds(fssize: nat, ninodes: nat, nlog: nat)
    requires Layouted(fssize, ninodes, nlog).nmeta <= fssize && fssize + BPB < 0x8000_0000
    ensures Layout(Layouted(fssize, ninodes, nlog))
  {}

  /** No block of file `i` lies past byte `n`, and the indirect block is there only if it is needed. */
  ghost predicate Tight(sb: Super, s: State, i: nat, n: nat)
    requires Shaped(sb, s) && i < sb.ninodes
  {
    && (forall bn: nat :: bn < MAXFILE && Entry(s, i, SlotOf(bn)) != 0 ==> bn * BSIZE < n)
    && (Entry(s, i, NDIRECT) != 0 ==> NDIRECT * BSIZE < n)
  }

  /** Blocks are handed out in order. Those past `free` are still zero, and so is the bitmap, except for its first
      block, which will be written as a whole. */
  ghost predicate Sequential(sb: Super, s: State, free: nat) {
    && Refs(sb, s) && sb.nmeta <= free <= sb.size
    && (forall b :: b in s.owner <==> sb.nmeta <= b < free)
    && (forall b :: free <= b < sb.size || sb.bmapstart < b < sb.nmeta ==> s.disk[b] == ZeroBlock())
  }

  class Image {
    const sb: Super
    var disk: seq<Block>
    var inodes: seq<Inode>           // with the changes that are still in memory
    ghost var dinodes: seq<Inode>    // as stored in the inode blocks
    var freeblock: nat
    var freeinode: nat
    ghost var owner: map<nat, Slot>

    ghost function S(): State
      reads this
    {
      State(disk, inodes, owner)
    }

    ghost predicate Valid()
      reads this
    {
      && Sequential(sb, S(), freeblock) && FreeEmpty(inodes) && Holds(sb, disk, dinodes) && dinodes == inodes
      && sb.bmapstart < sb.nmeta && (freeinode > 0 ==> IBlock(sb, freeinode - 1) <= sb.bmapstart)
      && (forall i :: 0 <= i < sb.ninodes ==> Tight(sb, S(), i, inodes[i].size))
      && (forall i :: freeinode <= i < sb.ninodes ==> inodes[i] == Blank())
    }

    /** The zeroed image. */
    constructor (fssize: nat, ninodes: nat, nlog: nat)
      requires Layouted(fssize, ninodes, nlog).nmeta <= fssize && fssize + BPB < 0x8000_0000
      ensures Valid() && sb == Layouted(fssize, ninodes, nlog) && freeinode == 1 && freeblock == sb.nmeta
      ensures forall i :: 0 <= i < sb.ninodes ==> inodes[i] == Blank()
    {
      LayoutHolds(fssize, ninodes, nlog);
      sb := Layouted(fssize, ninodes, nlog);
      disk := seq(fssize, _ => ZeroBlock());
      inodes := seq(ninodes, _ => Blank());
      dinodes := seq(ninodes, _ => Blank());
      freeblock, freeinode := Layouted(fssize, ninodes, nlog).nmeta, 1;
      owner := map[];
      ZeroHolds(Layouted(fssize, ninodes, nlog));
    }

    /** ialloc. It stores the inode wherever its number leads, and dies only past the end of the image. As far as the
        first bitmap block that is harmless. Behind it, it overwrites what is there: the image keeps its form and every
        file its contents if and only if the place is `Spared`. */
    method IAlloc(typ: Short) returns (inum: nat, ok: bool)
      requires Valid() && 0 < typ < sb.nmeta
      modifies this`disk, this`inodes, this`dinodes, this`freeinode
      ensures inum == old(freeinode) && freeinode == inum + 1 && (ok <==> IBlock(sb, inum) < sb.size)
      ensures ok ==> disk == PutInode(sb, old(disk), inum, NewInode(typ))
      ensures ok ==> dinodes == inodes == if inum < sb.ninodes then old(inodes)[inum := NewInode(typ)] else old(inodes)
      ensures ok && IBlock(sb, inum) <= sb.bmapstart ==> Valid()
      ensures ok ==> var b := IBlock(sb, inum);
                     Sequential(sb, S(), freeblock) && SameContents(sb, old(S()), S()) <==>
                     b <= sb.bmapstart || Spared(old(S()), b, inum % IPB, NewInode(typ))
    {
      hide Owners, NoHoles, Entry, Tight, Layout, Holds, PutDinode, Content, Spared;
      ghost var s0 := S();
      inum := freeinode;
      freeinode := freeinode + 1;
      var b := IBlock(sb, inum);
      if b >= sb.size {
        return inum, false;
      }
      var node := NewInode(typ);
      disk := PutInode(sb, disk, inum, node);
      Where(sb, inum);
      if b > sb.bmapstart {
        Stray(sb, s0, S(), freeblock, inum, typ);
      } else {
        Harmless(sb, s0, S(), freeblock, b);
        ghost var s1 := S();
        if inum < sb.ninodes {
          StoredInode(sb, s0.disk, dinodes, inum, node);
          inodes := inodes[inum := node];
          dinodes := inodes;
          SameBlocks(sb, s1, S());
        } else {
          SpareInode(sb, s0.disk, dinodes, inum, node);
        }
        SameEntries(sb, s1, S());
        TightKept(sb, s0, S());
      }
      ok := true;
    }

    /** `freeblock++` into an empty slot; `false` when the image has no such sector and mkfs dies. */
    method NewBlock(i: nat, k: nat) returns (ok: bool)
      requires Sequential(sb, S(), freeblock) && i < sb.ninodes && k < NSLOTS && Entry(S(), i, k) == 0
      requires k > NDIRECT ==> inodes[i].addrs[NDIRECT] != 0
      modifies this`disk, this`inodes, this`owner, this`freeblock
      ensures SameMeta(sb, old(disk), disk)
      ensures (ok <==> old(freeblock) < sb.size) && freeblock == old(freeblock) + 1
      ensures k > NDIRECT ==> inodes == old(inodes)
      ensures ok ==> Sequential(sb, S(), freeblock) && Extends(sb, old(S()), S())
                     && Entry(S(), i, k) == old(freeblock) < WORDS
      ensures ok ==> Attached(sb, old(S()), S(), i, k, old(freeblock))
    {
      hide Owners, NoHoles, GetWord, PutWord, Extends;
      ghost var s0 := S();
      SlotBounds(sb, s0, i, NDIRECT);
      var b := freeblock;
      freeblock := freeblock + 1;
      if b >= sb.size {
        return false;
      }
      if k <= NDIRECT {
        inodes := inodes[i := inodes[i].(addrs := inodes[i].addrs[k := b])];
      } else {
        var ind := inodes[i].addrs[NDIRECT];
        disk := disk[ind := PutWord(disk[ind], k - NDIRECT - 1, b)];
      }
      owner := owner[b := Slot(i, k)];
      AttachKeeps(sb, s0, S(), i, k, b);
      ok := true;
    }

    /** The sector of block `fbn`, allocated if need be. */
    method Place(i: nat, fbn: nat) returns (ok: bool, x: nat)
      requires Sequential(sb, S(), freeblock) && i < sb.ninodes && fbn < MAXFILE
      modifies this`disk, this`inodes, this`owner, this`freeblock
      ensures SameMeta(sb, old(disk), disk) && freeblock <= old(freeblock) + 2
      ensures ok ==> Sequential(sb, S(), freeblock) && Extends(sb, old(S()), S())
                     && Grown(sb, old(S()), S(), i, fbn, fbn + 1)
      ensures !ok ==> freeblock > sb.size
      ensures ok ==> 0 != x == Entry(S(), i, SlotOf(fbn))
      ensures ok && fbn < NDIRECT ==> Entry(S(), i, NDIRECT) == old(Entry(S(), i, NDIRECT))
    {
      hide Owners, NoHoles, GetWord, PutWord, Extends, Attached, Grown, Entry;
      ghost var s0 := S();
      Same(sb, s0, i, fbn, fbn + 1);
      SlotBounds(sb, s0, i, NDIRECT);
      SlotBounds(sb, s0, i, SlotOf(fbn));
      if fbn < NDIRECT {
        if inodes[i].addrs[fbn] == 0 {
          ok := NewBlock(i, fbn);
          if !ok {
            return false, 0;
          }
          GrownBy(sb, s0, S(), i, fbn, freeblock - 1);
          AttachedEntry(sb, s0, S(), i, fbn, freeblock - 1, i, NDIRECT);
        }
        SlotBounds(sb, S(), i, fbn);
        return true, inodes[i].addrs[fbn];
      }
      if inodes[i].addrs[NDIRECT] == 0 {
        ok := NewBlock(i, NDIRECT);
        if !ok {
          return false, 0;
        }
        ghost var s1 := S();
        GrownBy(sb, s0, s1, i, NDIRECT, freeblock - 1);
        ok, x := PlaceIndirect(i, fbn);
        if ok {
          ExtendsTrans(sb, s0, s1, S());
          GrownTrans(sb, s0, s1, S(), i, fbn, fbn + 1, fbn + 1);
        }
      } else {
        ok, x := PlaceIndirect(i, fbn);
      }
    }

    method PlaceIndirect(i: nat, fbn: nat) returns (ok: bool, x: nat)
      requires Sequential(sb, S(), freeblock) && i < sb.ninodes && NDIRECT <= fbn < MAXFILE
               && Entry(S(), i, NDIRECT) != 0
      modifies this`disk, this`inodes, this`owner, this`freeblock
      ensures SameMeta(sb, old(disk), disk) && freeblock <= old(freeblock) + 1
      ensures ok ==> Sequential(sb, S(), freeblock) && Extends(sb, old(S()), S())
                     && Grown(sb, old(S()), S(), i, fbn, fbn + 1)
      ensures !ok ==> freeblock > sb.size
      ensures ok ==> 0 != x == Entry(S(), i, SlotOf(fbn))
    {
      hide Owners, NoHoles, GetWord, PutWord, Extends, Attached, Grown, Entry;
      ghost var s0 := S();
      Same(sb, s0, i, fbn, fbn + 1);
      SlotBounds(sb, s0, i, NDIRECT);
      IndirectEntry(s0, i, fbn);
      if GetWord(disk[inodes[i].addrs[NDIRECT]], fbn - NDIRECT) == 0 {
        ok := NewBlock(i, fbn + 1);
        if !ok {
          return false, 0;
        }
        GrownBy(sb, s0, S(), i, fbn + 1, freeblock - 1);
        IndirectEntry(S(), i, fbn);
      }
      return true, GetWord(disk[inodes[i].addrs[NDIRECT]], fbn - NDIRECT);
    }

    /** rsect, bcopy, wsect */
    method StoreSector(i: nat, at: nat, x: nat, bytes: seq<Byte>)
      requires Sequential(sb, S(), freeblock) && i < sb.ninodes && bytes != [] && at / BSIZE < MAXFILE
               && at % BSIZE + |bytes| <= BSIZE
      requires 0 != x == Entry(S(), i, SlotOf(at / BSIZE))
      modifies this`disk
      ensures SameMeta(sb, old(disk), disk)
      ensures Sequential(sb, S(), freeblock) && Chunk(sb, old(S()), S(), i, at, bytes)
    {
      hide Owners, NoHoles, Entry, Patch, Layout;
      ghost var s0 := S();
      SlotBounds(sb, s0, i, SlotOf(at / BSIZE));
      disk := disk[x := Patch(disk[x], at % BSIZE, bytes)];
      StoreKeeps(sb, s0, S(), i, at / BSIZE, disk[x]);
    }

    /** iappend; `false` when mkfs dies: the file or the image is full. */
    method IAppend(i: nat, p: seq<Byte>) returns (ok: bool)
      requires Valid() && i < sb.ninodes && inodes[i].typ != 0
      modifies this`disk, this`inodes, this`dinodes, this`owner, this`freeblock
      ensures !ok ==> old(inodes)[i].size + |p| > MAXFILE * BSIZE || freeblock > sb.size
      ensures freeblock <= old(freeblock) + 2 * Touched(old(inodes)[i].size, |p|)
      ensures ok ==> Valid() && Content(sb, S(), i) == old(Content(sb, S(), i)) + p
      ensures ok ==> forall j :: 0 <= j < sb.ninodes && j != i ==>
                                   Content(sb, S(), j) == old(Content(sb, S(), j)) && inodes[j] == old(inodes)[j]
      ensures ok ==> inodes[i].size == old(inodes)[i].size + |p| && inodes[i].typ == old(inodes)[i].typ
      ensures ok ==> forall b :: b in old(owner) ==> b in owner && owner[b] == old(owner)[b]
    {
      hide Owners, NoHoles, Entry, Progress, Covered, Tight, Content, Written, Layout, Holds, Grown;
      ghost var s0 := S();
      var off0 := inodes[i].size;
      ok := AppendLoop(i, p, off0);
      if !ok {
        return;
      }
      ghost var s3 := S();
      GrewAt(sb, s0, s3, i, 0, MAXFILE);
      SizeAt(sb, s0, s3, i, off0, p);
      inodes := inodes[i := inodes[i].(size := off0 + |p|)];
      ghost var s4 := S();
      Appending(sb, s0, s3, s4, i, p);
      Resequenced(sb, s3, s4, freeblock);
      MetaHolds(sb, s0.disk, disk, dinodes);
      WInode(i);
      Typed(s0.inodes, inodes, i);
    }

    /** The loop of iappend. */
    method AppendLoop(i: nat, p: seq<Byte>, off0: nat) returns (ok: bool)
      requires Sequential(sb, S(), freeblock) && i < sb.ninodes && off0 == inodes[i].size
      requires forall j :: 0 <= j < sb.ninodes ==> Tight(sb, S(), j, inodes[j].size)
      modifies this`disk, this`inodes, this`owner, this`freeblock
      ensures !ok ==> off0 + |p| > MAXFILE * BSIZE || freeblock > sb.size
      ensures SameMeta(sb, old(disk), disk) && freeblock <= old(freeblock) + 2 * Touched(off0, |p|)
      ensures ok ==> Sequential(sb, S(), freeblock) && Progress(sb, old(S()), S(), i, off0, p)
                     && Grown(sb, old(S()), S(), i, 0, MAXFILE)
      ensures ok ==> forall j :: 0 <= j < sb.ninodes ==>
                                   Tight(sb, S(), j, if j == i then off0 + |p| else old(inodes)[j].size)
    {
      hide Owners, NoHoles, Entry, Extends, Grown, Progress, Covered, Tight, Chunk, Content, Written, Layout, Piece,
           Touched;
      ghost var s0 := S();
      var done := 0;
      ProgressStart(sb, s0, i, off0);
      Same(sb, s0, i, 0, MAXFILE);
      assert p[..0] == [];
      while done < |p|
        invariant 0 <= done <= |p| && Sequential(sb, S(), freeblock) && SameMeta(sb, s0.disk, disk)
        invariant 0 < done < |p| ==> (off0 + done) % BSIZE == 0
        invariant freeblock <= old(freeblock) + 2 * Touched(off0, done)
        invariant Progress(sb, s0, S(), i, off0, p[..done]) && Grown(sb, s0, S(), i, 0, MAXFILE)
        invariant forall j :: 0 <= j < sb.ninodes ==>
                                Tight(sb, S(), j, if j == i then off0 + done else s0.inodes[j].size)
      {
        var fbn := (off0 + done) / BSIZE;
        TouchMore(off0, done, Piece(|p| - done, off0 + done), |p|);
        if fbn >= MAXFILE {
          return false;
        }
        ghost var s1 := S();
        var x;
        ok, x := Place(i, fbn);
        if !ok {
          return;
        }
        var n1 := Piece(|p| - done, off0 + done);
        ghost var s2 := S();
        StoreSector(i, off0 + done, x, p[done..done + n1]);
        Appended(sb, s0, s1, s2, S(), i, off0, p, done, n1);
        done := done + n1;
      }
      assert p[..|p|] == p;
      ok := true;
    }

    /** winode of an inode in the table. */
    method WInode(i: nat)
      requires Sequential(sb, S(), freeblock) && Holds(sb, disk, dinodes) && i < sb.ninodes
      requires forall j :: 0 <= j < sb.ninodes ==> Tight(sb, S(), j, inodes[j].size)
      modifies this`disk, this`dinodes
      ensures Sequential(sb, S(), freeblock) && Holds(sb, disk, dinodes) && dinodes == old(dinodes)[i := inodes[i]]
      ensures forall j :: 0 <= j < sb.ninodes ==> Tight(sb, S(), j, inodes[j].size)
      ensures SameContents(sb, old(S()), S())
    {
      hide Owners, NoHoles, Entry, Tight, Layout, Holds, PutDinode, Content;
      ghost var s0 := S();
      StoredInode(sb, disk, dinodes, i, inodes[i]);
      disk := PutInode(sb, disk, i, inodes[i]);
      dinodes := dinodes[i := inodes[i]];
      Regions(sb);
      Harmless(sb, s0, S(), freeblock, IBlock(sb, i));
      TightKept(sb, s0, S());
    }

    /** balloc: marks the first `used` blocks; `false` when its assertion fails. */
    method BAlloc(used: nat) returns (ok: bool)
      requires Layout(sb) && |disk| == sb.size && used <= sb.size
      requires sb.bmapstart < sb.nmeta && forall b :: sb.bmapstart < b < sb.nmeta ==> disk[b] == ZeroBlock()
      modifies this`disk
      ensures (ok <==> used < BPB) && |disk| == sb.size && SameData(sb, old(disk), disk)
      ensures disk == old(disk)[sb.bmapstart := disk[sb.bmapstart]]
      ensures ok ==> forall b :: 0 <= b < sb.size ==> (Used(sb, disk, b) <==> b < used)
    {
      hide MarkBit, BlockBit;
      if used >= BPB {
        return false;
      }
      var buf := ZeroBlock();
      var i := 0;
      ZeroBits();
      while i < used
        invariant 0 <= i <= used && |buf| == BSIZE
        invariant forall j: nat :: j < BPB ==> (BlockBit(buf, j) <==> j < i)
      {
        ghost var buf0 := buf;
        buf := MarkBit(buf, i);
        forall j: nat | j < BPB ensures BlockBit(buf, j) <==> j < i + 1 {
          MarkedBit(buf0, i, j);
        }
        i := i + 1;
      }
      disk := disk[sb.bmapstart := buf];
      forall b | 0 <= b < sb.size ensures Used(sb, disk, b) <==> b < used {
        FirstMapBlock(sb, b);
      }
      ok := true;
    }

    /** The last lines of main: round up the size of the root directory, then write the bitmap. The image satisfies the
        file-system invariant exactly when the root directory did not end on a block boundary. */
    method Finish() returns (ok: bool)
      requires Valid() && sb.ninodes > 1 && inodes[1].typ != 0
      modifies this`disk, this`inodes, this`dinodes
      ensures ok <==> freeblock < BPB
      ensures ok ==> (Inv(sb, S()) <==> old(inodes)[1].size % BSIZE != 0)
      ensures ok ==> Holds(sb, disk, dinodes) && dinodes == inodes && FreeEmpty(inodes)
      ensures ok ==> inodes == old(inodes)[1 := old(inodes)[1].(size := inodes[1].size)]
                     && inodes[1].size == (old(inodes)[1].size / BSIZE + 1) * BSIZE && SameData(sb, old(disk), disk)
    {
      hide Owners, NoHoles, Entry, Tight, Layout, Holds, PutDinode, Content;
      ghost var s0 := S();
      var off := inodes[1].size;
      RoundedSize(sb, s0);
      off := (off / BSIZE + 1) * BSIZE;
      inodes := inodes[1 := inodes[1].(size := off)];
      RootRounding(sb, s0, S());
      ghost var s1 := S();
      StoredInode(sb, disk, dinodes, 1, inodes[1]);
      disk := PutInode(sb, disk, 1, inodes[1]);
      dinodes := dinodes[1 := inodes[1]];
      Regions(sb);
      ghost var d2 := disk;
      ok := BAlloc(freeblock);
      if ok {
        HoldsKept(sb, d2, disk, dinodes);
        SameDataHoles(sb, s1, S());
      }
    }
  }

  lemma ZeroBits()
    ensures forall j: nat :: j < BPB ==> !BlockBit(ZeroBlock(), j)
  {}

  lemma FirstMapBlock(sb: Super, b: nat)
    requires Layout(sb) && b < sb.size
    ensures b < BPB ==> BBlock(sb, b) == sb.bmapstart && b % BPB == b
    ensures b >= BPB ==> sb.bmapstart < BBlock(sb, b) < sb.nmeta
  {}

  /** Rounding the root directory up leaves a hole exactly when there was nothing to round. */
  lemma RootRounding(sb: Super, s: State, s': State)
    requires Refs(sb, s) && sb.ninodes > 1 && Tight(sb, s, 1, s.inodes[1].size)
    requires SizeSet(sb, s, s', 1, (s.inodes[1].size / BSIZE + 1) * BSIZE)
    ensures Shaped(sb, s') && Owners(sb, s') && (NoHoles(sb, s') <==> s.inodes[1].size % BSIZE != 0)
  {
    hide GetWord;
    var n := s.inodes[1].size;
    assert Covered(sb, s, 1, n);
    assert forall j, k :: 0 <= j < sb.ninodes && 0 <= k < NSLOTS ==> Entry(s', j, k) == Entry(s, j, k);
    forall j | 0 <= j < sb.ninodes && j != 1 ensures Covered(sb, s', j, s'.inodes[j].size) {
      assert Covered(sb, s, j, s.inodes[j].size);
    }
    RoundedCover(sb, s, s');
    assert NoHoles(sb, s') <==> Covered(sb, s', 1, s'.inodes[1].size);
  }

  lemma RoundedCover(sb: Super, s: State, s': State)
    requires Shaped(sb, s) && Shaped(sb, s') && sb.ninodes > 1 && Covered(sb, s, 1, s.inodes[1].size)
    requires Tight(sb, s, 1, s.inodes[1].size)
    requires forall k :: 0 <= k < NSLOTS ==> Entry(s', 1, k) == Entry(s, 1, k)
    ensures Covered(sb, s', 1, (s.inodes[1].size / BSIZE + 1) * BSIZE) <==> s.inodes[1].size % BSIZE != 0
  {
    hide Entry;
    var n := s.inodes[1].size;
    var last := n / BSIZE;
    if n % BSIZE != 0 {
      forall bn: nat | bn < MAXFILE && bn * BSIZE < (last + 1) * BSIZE ensures Entry(s', 1, SlotOf(bn)) != 0 {
        assert bn * BSIZE < n;
      }
    } else if last < MAXFILE {
      assert Entry(s', 1, SlotOf(last)) == 0;
    }
  }

  lemma SameDataHoles(sb: Super, s: State, s': State)
    requires Shaped(sb, s) && Owners(sb, s) && SameData(sb, s.disk, s'.disk) && s'.inodes == s.inodes
             && s'.owner == s.owner
    ensures Shaped(sb, s') && Owners(sb, s') && (NoHoles(sb, s') <==> NoHoles(sb, s))
  {
    hide GetWord;
    forall i, k | 0 <= i < sb.ninodes && 0 <= k < NSLOTS ensures Entry(s', i, k) == Entry(s, i, k) {
      EntryIsAddr(s, i, NDIRECT);
    }
    assert forall i :: 0 <= i < sb.ninodes ==>
                         (Covered(sb, s', i, s.inodes[i].size) <==> Covered(sb, s, i, s.inodes[i].size));
  }

  /** One round of iappend. */
  lemma Appended(sb: Super, s: State, s1: State, s2: State, s3: State, i: nat, off: nat, p: seq<Byte>, done: nat,
      n: nat)
    requires done + n <= |p| && Progress(sb, s, s1, i, off, p[..done]) && Grown(sb, s, s1, i, 0, MAXFILE)
    requires (off + done) / BSIZE < MAXFILE
    requires Refs(sb, s2) && Extends(sb, s1, s2) && Grown(sb, s1, s2, i, (off + done) / BSIZE, (off + done) / BSIZE + 1)
    requires Chunk(sb, s2, s3, i, off + done, p[done..done + n])
    requires (off + done) / BSIZE < NDIRECT ==> Entry(s2, i, NDIRECT) == Entry(s1, i, NDIRECT)
    requires forall j :: 0 <= j < sb.ninodes ==> Tight(sb, s1, j, if j == i then off + done else s.inodes[j].size)
    ensures Progress(sb, s, s3, i, off, p[..done + n]) && Grown(sb, s, s3, i, 0, MAXFILE)
    ensures forall j :: 0 <= j < sb.ninodes ==> Tight(sb, s3, j, if j == i then off + done + n else s.inodes[j].size)
  {
    hide Entry, DataAt, Owners, NoHoles, Covered, Patch, Tight;
    var fbn := (off + done) / BSIZE;
    var bytes := p[done..done + n];
    assert p[..done] + bytes == p[..done + n];
    ProgressGrow(sb, s, s1, s2, i, off, p[..done], fbn, fbn + 1);
    GrownWider(sb, s1, s2, i, fbn, fbn + 1, 0, MAXFILE);
    GrownTrans(sb, s, s1, s2, i, 0, MAXFILE, MAXFILE);
    ProgressStore(sb, s, s2, s3, i, off, p[..done], bytes);
    ChunkGrown(sb, s, s2, s3, i, off + done, bytes, 0, MAXFILE);
    StoreKeeps(sb, s2, s3, i, fbn, Patch(s2.disk[Entry(s2, i, SlotOf(fbn))], (off + done) % BSIZE, bytes));
    forall j | 0 <= j < sb.ninodes ensures Tight(sb, s3, j, if j == i then off + done + n else s.inodes[j].size) {
      TightGrown(sb, s1, s2, s3, i, fbn, j, if j == i then off + done else s.inodes[j].size,
                 if j == i then off + done + n else s.inodes[j].size);
    }
  }

  lemma TightGrown(sb: Super, s1: State, s2: State, s3: State, i: nat, fbn: nat, j: nat, n: nat, n': nat)
    requires Refs(sb, s1) && Refs(sb, s2) && Shaped(sb, s3) && Grown(sb, s1, s2, i, fbn, fbn + 1) && j < sb.ninodes
    requires Tight(sb, s1, j, n) && n <= n' && (j == i ==> fbn * BSIZE < n')
    requires forall k :: 0 <= k < NSLOTS ==> Entry(s3, j, k) == Entry(s2, j, k)
    requires fbn < NDIRECT ==> Entry(s2, i, NDIRECT) == Entry(s1, i, NDIRECT)
    ensures Tight(sb, s3, j, n')
  {
    hide Entry, NoHoles;
    if Entry(s3, j, NDIRECT) != 0 && (j != i || fbn < NDIRECT) {
      var b := Entry(s2, j, NDIRECT);
      assert s2.owner[b] == Slot(j, NDIRECT);
      assert Entry(s1, j, NDIRECT) == b;
    }
    forall bn: nat | bn < MAXFILE && Entry(s3, j, SlotOf(bn)) != 0 ensures bn * BSIZE < n' {
      var b := Entry(s2, j, SlotOf(bn));
      assert s2.owner[b] == Slot(j, SlotOf(bn)) && BnOf(SlotOf(bn)) == bn;
      if b in s1.owner {
        assert Entry(s1, j, SlotOf(bn)) == b;
      }
    }
  }

  lemma AppendIs(c: seq<Byte>, p: seq<Byte>)
    ensures Written(c, |c|, p)[..Max(|c|, |c| + |p|)] == c + p
  {}

  /** The size update at the end of iappend. */
  lemma Appending(sb: Super, s: State, s': State, s'': State, i: nat, p: seq<Byte>)
    requires i < sb.ninodes && Shaped(sb, s) && Progress(sb, s, s', i, s.inodes[i].size, p)
    requires SizeSet(sb, s', s'', i, s.inodes[i].size + |p|)
    requires forall j :: 0 <= j < sb.ninodes ==>
                           Tight(sb, s', j, if j == i then s.inodes[i].size + |p| else s.inodes[j].size)
    ensures Refs(sb, s'') && Content(sb, s'', i) == Content(sb, s, i) + p
    ensures forall j :: 0 <= j < sb.ninodes && j != i ==> Content(sb, s'', j) == Content(sb, s, j)
    ensures forall j :: 0 <= j < sb.ninodes ==> Tight(sb, s'', j, s''.inodes[j].size)
  {
    hide Entry, DataAt, Owners, NoHoles, Covered, Content, RefSet, Logged, Hit;
    Resized(sb, s, s', s'', i, s.inodes[i].size, p, |p|);
    AppendIs(Content(sb, s, i), p);
    SameEntries(sb, s', s'');
  }

  function Blank(): Inode { Inode(0, 0, 0, 0, 0, seq(NDIRECT + 1, _ => 0)) }

  /** The inode that ialloc stores. */
  function NewInode(typ: Short): (node: Inode)
    ensures |node.addrs| == NDIRECT + 1
  {
    Blank().(typ := typ, nlink := 1)
  }

  /** The blocks before the data are the same. */
  ghost predicate SameMeta(sb: Super, d: seq<Block>, d': seq<Block>) {
    |d'| == |d| && forall b :: 0 <= b < sb.nmeta && b < |d| ==> d'[b] == d[b]
  }

  ghost predicate SameContents(sb: Super, s: State, s': State)
    requires Refs(sb, s) && Refs(sb, s')
  {
    forall j :: 0 <= j < sb.ninodes ==> Content(sb, s', j) == Content(sb, s, j)
  }

  lemma ZeroHolds(sb: Super)
    requires Layout(sb)
    ensures Holds(sb, seq(sb.size, _ => ZeroBlock()), seq(sb.ninodes, _ => Blank()))
  {
    hide GetDinode;
    forall k: nat | k < IPB ensures GetDinode(ZeroBlock(), k) == Blank() {
      ZeroInode(k);
    }
  }

  lemma ZeroInode(k: nat)
    requires k < IPB
    ensures GetDinode(ZeroBlock(), k) == Blank()
  {
    var z := ZeroBlock()[DINODE * k..DINODE * k + DINODE];
    assert forall p :: 0 <= p < DINODE ==> z[p] == 0;
    assert forall p :: 0 <= p <= NDIRECT ==> WordAt(z, p) == 0;
    assert z[0..2] == [0, 0] && z[2..4] == [0, 0] && z[4..6] == [0, 0] && z[6..8] == [0, 0];
    assert Decode(z).addrs == Blank().addrs;
  }

  lemma MetaHolds(sb: Super, d: seq<Block>, d': seq<Block>, table: seq<Inode>)
    requires Holds(sb, d, table) && SameMeta(sb, d, d')
    ensures Holds(sb, d', table)
  {
    HoldsKept(sb, d, d', table);
  }

  /** An inode past the table lies behind those in it. */
  lemma Where(sb: Super, inum: nat)
    requires Layout(sb)
    ensures inum < sb.ninodes ==> IBlock(sb, inum) < sb.bmapstart
    ensures sb.inodestart <= sb.bmapstart <= sb.nmeta <= sb.size && sb.inodestart <= IBlock(sb, inum)
  {}

  lemma SpareInode(sb: Super, d: seq<Block>, table: seq<Inode>, inum: nat, node: Inode)
    requires Holds(sb, d, table) && sb.ninodes <= inum && IBlock(sb, inum) < |d| && |node.addrs| == NDIRECT + 1
    ensures Holds(sb, PutInode(sb, d, inum, node), table)
  {
    hide GetDinode, PutDinode;
    var b := IBlock(sb, inum);
    var d' := PutInode(sb, d, inum, node);
    forall j | 0 <= j < sb.ninodes ensures GetDinode(d'[IBlock(sb, j)], j % IPB) == table[j] {
      PutThenGet(d[b], inum % IPB, node, j % IPB);
      SamePlace(inum, j);
    }
  }

  /** A block up to the first one of the bitmap is of no concern to the files. */
  lemma Harmless(sb: Super, s: State, s': State, free: nat, b: nat)
    requires Sequential(sb, s, free) && b <= sb.bmapstart && b < sb.size
             && (b == sb.bmapstart ==> sb.bmapstart < sb.nmeta)
    requires |s'.disk| == |s.disk| && s' == s.(disk := s.disk[b := s'.disk[b]])
    ensures Sequential(sb, s', free) && SameContents(sb, s, s')
    ensures forall i, k :: 0 <= i < sb.ninodes && 0 <= k < NSLOTS ==> Entry(s', i, k) == Entry(s, i, k)
  {
    hide Owners, NoHoles, Entry, Content;
    Regions(sb);
    MetaKeeps(sb, s, s');
  }

  lemma TightKept(sb: Super, s: State, s': State)
    requires Shaped(sb, s) && Shaped(sb, s') && forall i :: 0 <= i < sb.ninodes ==> Tight(sb, s, i, s.inodes[i].size)
    requires forall i :: 0 <= i < sb.ninodes ==> s'.inodes[i].size == s.inodes[i].size
    requires forall i, k :: 0 <= i < sb.ninodes && 0 <= k < NSLOTS ==> Entry(s', i, k) == Entry(s, i, k)
    ensures forall i :: 0 <= i < sb.ninodes ==> Tight(sb, s', i, s'.inodes[i].size)
  {
    hide Entry;
  }

  /** How many blocks `n` bytes at `off` touch. */
  function Touched(off: nat, n: nat): nat { Hit(off, n) - off / BSIZE }

  lemma TouchMore(off: nat, done: nat, m: nat, n: nat)
    requires 0 < m <= BSIZE - (off + done) % BSIZE && (done > 0 ==> (off + done) % BSIZE == 0) && done + m <= n
    ensures Touched(off, done + m) == Touched(off, done) + 1 <= Touched(off, n)
  {}

  /** A size is not about which blocks are in use. */
  lemma Resequenced(sb: Super, s: State, s': State, free: nat)
    requires Sequential(sb, s, free) && Refs(sb, s') && s'.disk == s.disk && s'.owner == s.owner
    ensures Sequential(sb, s', free)
  {
    hide Refs;
  }

  lemma Typed(inodes: seq<Inode>, inodes': seq<Inode>, i: nat)
    requires FreeEmpty(inodes) && i < |inodes| == |inodes'| && inodes' == inodes[i := inodes'[i]] && inodes'[i].typ != 0
    ensures FreeEmpty(inodes')
  {}

  lemma RoundedSize(sb: Super, s: State)
    requires Refs(sb, s) && sb.ninodes > 1
    ensures s.inodes[1].size <= MAXFILE * BSIZE && (s.inodes[1].size / BSIZE + 1) * BSIZE < WORDS
  {
    hide Entry, Owners;
    SizeCovered(sb, s, 1);
  }

  /** Storing `node` at place `j` of block `b` shows in no file: the block is a data block of one, and those of its
      bytes that the file has are the same already. */
  ghost predicate Spared(s: State, b: nat, j: nat, node: Inode)
    requires j < IPB && |node.addrs| == NDIRECT + 1
  {
    && b in s.owner && b < |s.disk| && s.owner[b].k != NDIRECT && s.owner[b].inum < |s.inodes|
    && forall p :: 0 <= p < DINODE && BnOf(s.owner[b].k) * BSIZE + DINODE * j + p < s.inodes[s.owner[b].inum].size ==>
                     s.disk[b][DINODE * j + p] == Encode(node)[p]
  }

  /** An inode stored behind the first bitmap block. */
  lemma Stray(sb: Super, s: State, s': State, free: nat, inum: nat, typ: Short)
    requires Sequential(sb, s, free) && 0 < typ < sb.nmeta && sb.bmapstart < IBlock(sb, inum) < sb.size
    requires s' == s.(disk := PutInode(sb, s.disk, inum, NewInode(typ)))
    ensures Sequential(sb, s', free) && SameContents(sb, s, s') <==>
            Spared(s, IBlock(sb, inum), inum % IPB, NewInode(typ))
  {
    hide Owners, NoHoles, Entry, Content, Spared, PutDinode, NewInode, Layout;
    var b, j := IBlock(sb, inum), inum % IPB;
    var node := NewInode(typ);
    if b !in s.owner {
      NotZero(s.disk[b], j, typ);
      NotSpared(s, b, j, node);
      assert s'.disk[b] != ZeroBlock();
    } else if s.owner[b].k == NDIRECT {
      NotSpared(s, b, j, node);
      BadEntry(sb, s, s', b, j, typ);
    } else {
      DataStray(sb, s, s', free, b, j, node);
    }
  }

  lemma NotSpared(s: State, b: nat, j: nat, node: Inode)
    requires j < IPB && |node.addrs| == NDIRECT + 1 && (b !in s.owner || s.owner[b].k == NDIRECT)
    ensures !Spared(s, b, j, node)
  {}

  lemma NotZero(b: Block, j: nat, typ: Short)
    requires j < IPB
    ensures PutDinode(b, j, NewInode(typ)) != ZeroBlock()
  {
    hide Pack, Split;
    var node := NewInode(typ);
    assert Encode(node)[6] == 1 by { assert SplitShort(1) == [1, 0]; }
    assert PutDinode(b, j, node)[DINODE * j + 6] == Encode(node)[6];
  }

  /** Stored over an indirect block the type of the inode is taken for the number of a block. */
  lemma BadEntry(sb: Super, s: State, s': State, b: nat, j: nat, typ: Short)
    requires Refs(sb, s) && b in s.owner && s.owner[b].k == NDIRECT && j < IPB && 0 < typ < sb.nmeta && b < |s.disk|
    requires s' == s.(disk := s.disk[b := PutDinode(s.disk[b], j, NewInode(typ))])
    ensures Shaped(sb, s') && !Owners(sb, s')
  {
    hide NoHoles, GetWord, PutDinode, NewInode;
    var i := s.owner[b].inum;
    assert Entry(s, i, NDIRECT) == b;
    EntryIsAddr(s, i, NDIRECT);
    FirstWord(s.disk[b], j, typ);
    assert Entry(s', i, NDIRECT + 1 + 16 * j) == typ;
  }

  lemma FirstWord(b: Block, j: nat, typ: Short)
    requires j < IPB
    ensures GetWord(PutDinode(b, j, NewInode(typ)), 16 * j) == typ
  {
    hide Pack, Split;
    var r := PutDinode(b, j, NewInode(typ));
    assert r[4 * (16 * j)..4 * (16 * j) + 4] == Encode(NewInode(typ))[..4];
    assert Encode(NewInode(typ))[..4] == [typ % 256, typ / 256, 0, 0];
  }

  lemma DataStray(sb: Super, s: State, s': State, free: nat, b: nat, j: nat, node: Inode)
    requires Sequential(sb, s, free) && b in s.owner && s.owner[b].k != NDIRECT && j < IPB && b < |s.disk|
    requires |node.addrs| == NDIRECT + 1 && s' == s.(disk := s.disk[b := PutDinode(s.disk[b], j, node)])
    ensures Sequential(sb, s', free) && (SameContents(sb, s, s') <==> Spared(s, b, j, node))
  {
    hide NoHoles, Entry, Content, Layout, Encode, DataAt;
    var i, k := s.owner[b].inum, s.owner[b].k;
    var bn := BnOf(k);
    assert SlotOf(bn) == k && Entry(s, i, k) == b;
    var data := PutDinode(s.disk[b], j, node);
    Regions(sb);
    StoreKeeps(sb, s, s', i, bn, data);
    forall o | 0 <= o < sb.ninodes && o != i ensures Content(sb, s', o) == Content(sb, s, o) {
      OtherContent(sb, s, s', i, bn, data, o);
    }
    SizeCovered(sb, s, i);
    forall p: nat | p < s.inodes[i].size
      ensures Content(sb, s', i)[p] == if p / BSIZE == bn then data[p % BSIZE] else Content(sb, s, i)[p]
      ensures p / BSIZE == bn ==> Content(sb, s, i)[p] == s.disk[b][p % BSIZE]
    {
      StoredData(sb, s, s', i, bn, data, i, s.inodes[i].size, p);
      BlockByte(sb, s, i, p);
    }
    PatchedSame(Content(sb, s, i), Content(sb, s', i), s.disk[b], bn, j, node);
  }

  lemma PatchedSame(c: seq<Byte>, c': seq<Byte>, d: Block, bn: nat, j: nat, node: Inode)
    requires j < IPB && |node.addrs| == NDIRECT + 1 && |c'| == |c|
    requires forall p: nat :: p < |c| ==>
               && c'[p] == (if p / BSIZE == bn then PutDinode(d, j, node)[p % BSIZE] else c[p])
               && (p / BSIZE == bn ==> c[p] == d[p % BSIZE])
    ensures c' == c <==> forall q :: 0 <= q < DINODE && bn * BSIZE + DINODE * j + q < |c| ==>
                                       d[DINODE * j + q] == Encode(node)[q]
  {
    hide Encode;
    forall q: nat | q < DINODE && bn * BSIZE + DINODE * j + q < |c|
      ensures c'[bn * BSIZE + DINODE * j + q] == Encode(node)[q]
              && c[bn * BSIZE + DINODE * j + q] == d[DINODE * j + q]
    {
      var p := bn * BSIZE + DINODE * j + q;
      assert p / BSIZE == bn && p % BSIZE == DINODE * j + q;
    }
    if forall q :: 0 <= q < DINODE && bn * BSIZE + DINODE * j + q < |c| ==> d[DINODE * j + q] == Encode(node)[q] {
      forall p: nat | p < |c| ensures c'[p] == c[p] {
        if p / BSIZE == bn {
          var o := p % BSIZE;
          assert p == bn * BSIZE + o;
          if DINODE * j <= o < DINODE * j + DINODE {
            assert p == bn * BSIZE + DINODE * j + (o - DINODE * j);
          }
        }
      }
    }
  }
}
