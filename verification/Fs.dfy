/** Blocks and inodes of kernel/fs.c, and the chunked write of kernel/file.c. */
module Fs {
  import opened FsLayout
  import opened FsState
  import opened FsWrite
  import opened FsInode

  function Min(a: nat, b: nat): nat { if a < b then a else b }

  /** Bytes `off` to `off + |data|` of a file replaced. */
  ghost function Written(c: seq<Byte>, off: nat, data: seq<Byte>): seq<Byte>
    requires off <= |c|
  {
    c[..off] + data + (if off + |data| < |c| then c[off + |data|..] else [])
  }

  /** `off + n < off` on 32-bit words. */
  predicate Wraps(off: Word, n: Word): (b: bool)
    ensures b <==> off + n >= WORDS
  {
    (off + n) % WORDS < off
  }

  /** How many of `left` bytes go into the block that holds byte `at`. */
  function Piece(left: nat, at: nat): (m: nat)
    ensures m <= left && at % BSIZE + m <= BSIZE
    ensures left > 0 ==> m > 0
    ensures m < left ==> (at + m) % BSIZE == 0
  {
    Min(left, BSIZE - at % BSIZE)
  }

  /** An inode without type has no blocks. */
  ghost predicate FreeEmpty(inodes: seq<Inode>) {
    forall i :: 0 <= i < |inodes| && inodes[i].typ == 0 ==>
      inodes[i].size == 0 && forall b :: b in inodes[i].addrs ==> b == 0
  }

  /** Data blocks are all in use. */
  ghost predicate Full(sb: Super, s: State) {
    forall b :: sb.nmeta <= b < sb.size ==> b in s.owner
  }

  /** The blocks that going from `s` to `s'` by allocations for inode `i` hands to log_write. */
  ghost function Logged(sb: Super, s: State, s': State, i: nat): set<nat>
    requires i < |s'.inodes| && |s'.inodes[i].addrs| == NDIRECT + 1
  {
    (s'.owner.Keys - s.owner.Keys)
    + (set b | b in s'.owner.Keys - s.owner.Keys :: BBlock(sb, b))
    + (if exists b :: b in s'.owner && b !in s.owner
                      && s'.owner[b].k > NDIRECT then {s'.inodes[i].addrs[NDIRECT]} else {})
  }

  /** Every block that changed is among those handed to log_write, which only become more, and none lies before `lo`. */
  ghost predicate Covers(lo: nat, l: set<nat>, l': set<nat>, d: seq<Block>, d': seq<Block>) {
    l <= l' && |d'| == |d| && forall b :: 0 <= b < |d| && d'[b] != d[b] ==> lo <= b && b in l'
  }

  lemma CoversRefl(lo: nat, l: set<nat>, d: seq<Block>)
    ensures Covers(lo, l, l, d, d)
  {}

  lemma CoversTrans(lo: nat, l: set<nat>, l1: set<nat>, l2: set<nat>, d: seq<Block>, d1: seq<Block>, d2: seq<Block>)
    requires Covers(lo, l, l1, d, d1) && Covers(lo, l1, l2, d1, d2)
    ensures Covers(lo, l, l2, d, d2)
  {}

  /** What is done to blocks from the bitmap on does not change what the inode blocks hold. */
  lemma CoversHolds(sb: Super, l: set<nat>, l': set<nat>, d: seq<Block>, d': seq<Block>, table: seq<Inode>)
    requires Holds(sb, d, table) && Covers(sb.bmapstart, l, l', d, d')
    ensures Holds(sb, d', table)
  {
    HoldsKept(sb, d, d', table);
  }

  /** A block that was changed without log_write: `e > r` bytes of the source got into blocks, `r` count as written. */
  ghost function Torn(s: State, i: nat, off: nat, r: nat, e: nat): set<nat>
    requires i < |s.inodes| && |s.inodes[i].addrs| == NDIRECT + 1 && (e > r ==> off + r < MAXFILE * BSIZE)
  {
    if e > r then {Entry(s, i, SlotOf((off + r) / BSIZE))} else {}
  }

  class FileSystem {
    const sb: Super
    var disk: seq<Block>             // as seen through the buffer cache
    var inodes: seq<Inode>           // as last read or changed in memory
    ghost var dinodes: seq<Inode>    // as stored in the inode blocks of the disk
    ghost var owner: map<nat, Slot>
    var logged: set<nat>             // handed to log_write in this transaction

    ghost function S(): State
      reads this
    {
      State(disk, inodes, owner)
    }

    ghost predicate Valid()
      reads this
    {
      Inv(sb, S()) && Holds(sb, disk, dinodes) && dinodes == inodes && FreeEmpty(inodes)
    }

    constructor (sb: Super, disk: seq<Block>, inodes: seq<Inode>, ghost owner: map<nat, Slot>)
      requires Inv(sb, State(disk, inodes, owner)) && Holds(sb, disk, inodes) && FreeEmpty(inodes)
      ensures Valid() && S() == State(disk, inodes, owner) && this.sb == sb && logged == {}
    {
      this.sb, this.disk, this.inodes, this.dinodes, this.owner, this.logged := sb, disk, inodes, inodes, owner, {};
    }

    /** balloc: the lowest free block, marked and zeroed; 0 if there is none. */
    method BAlloc(ghost marked: set<nat>) returns (r: nat)
      requires Layout(sb) && |disk| == sb.size && Bits(sb, disk, marked)
      modifies this`disk, this`logged
      ensures |disk| == sb.size
      ensures r == 0 ==>
                disk == old(disk) && logged == old(logged) && forall b :: sb.nmeta <= b < sb.size ==> b in marked
      ensures r != 0 ==> sb.nmeta <= r < sb.size && r !in marked && forall b :: sb.nmeta <= b < r ==> b in marked
      ensures r != 0 ==> Bits(sb, disk, marked + {r}) && disk[r] == ZeroBlock()
      ensures r != 0 ==> forall c :: sb.nmeta <= c < sb.size && c != r ==> disk[c] == old(disk)[c]
      ensures r != 0 ==> logged == old(logged) + {BBlock(sb, r), r}
      ensures Covers(sb.bmapstart, old(logged), logged, old(disk), disk)
    {
      hide MarkBit, Bits, BlockBit;
      var b := 0;
      while b < sb.size
        invariant 0 <= b && b % BPB == 0
        invariant forall c :: 0 <= c < b && c < sb.size ==> Used(sb, disk, c)
      {
        var bi := 0;
        while bi < BPB && b + bi < sb.size
          invariant 0 <= bi <= BPB && b + bi <= sb.size
          invariant forall c :: 0 <= c < b + bi ==> Used(sb, disk, c)
        {
          assert BBlock(sb, b + bi) == BBlock(sb, b) && (b + bi) % BPB == bi;
          if !BlockBit(disk[BBlock(sb, b)], bi) {
            assert !Used(sb, disk, b + bi);
            Take(marked, b + bi);
            return b + bi;
          }
          assert Used(sb, disk, b + bi);
          bi := bi + 1;
        }
        b := b + BPB;
      }
      BitsOf(sb, disk, marked);
      return 0;
    }

    /** Marks block `b` in the bitmap, then zeroes it. */
    method Take(ghost marked: set<nat>, b: nat)
      requires Layout(sb) && |disk| == sb.size && Bits(sb, disk, marked) && b < sb.size && !Used(sb, disk, b)
      requires forall c :: 0 <= c < b ==> Used(sb, disk, c)
      modifies this`disk, this`logged
      ensures |disk| == sb.size && sb.nmeta <= b && b !in marked && forall c :: sb.nmeta <= c < b ==> c in marked
      ensures Bits(sb, disk, marked + {b}) && disk[b] == ZeroBlock()
      ensures forall c :: sb.nmeta <= c < sb.size && c != b ==> disk[c] == old(disk)[c]
      ensures logged == old(logged) + {BBlock(sb, b), b}
      ensures Covers(sb.bmapstart, old(logged), logged, old(disk), disk)
    {
      hide MarkBit, Bits, BlockBit, Used;
      BitsOf(sb, disk, marked);
      var bb := BBlock(sb, b);
      disk := disk[bb := MarkBit(disk[bb], b % BPB)];
      logged := logged + {bb};
      FlippedBits(sb, old(disk), disk, marked, b, true);
      ghost var d := disk;
      disk := disk[b := ZeroBlock()];
      logged := logged + {b};
      DataKeepsBits(sb, d, disk, marked + {b});
    }

    /** bfree; `false` is the panic "freeing free block". */
    method BFree(ghost marked: set<nat>, b: nat) returns (ok: bool)
      requires Layout(sb) && |disk| == sb.size && Bits(sb, disk, marked) && sb.nmeta <= b < sb.size
      modifies this`disk, this`logged
      ensures |disk| == sb.size && (ok <==> b in marked)
      ensures !ok ==> disk == old(disk) && logged == old(logged)
      ensures ok ==> Bits(sb, disk, marked - {b}) && SameData(sb, old(disk), disk)
                     && logged == old(logged) + {BBlock(sb, b)}
      ensures Covers(sb.bmapstart, old(logged), logged, old(disk), disk)
    {
      hide ClearBit, Bits, BlockBit;
      BitsOf(sb, disk, marked);
      var bb := BBlock(sb, b);
      assert Used(sb, disk, b) == BlockBit(disk[bb], b % BPB);
      if !BlockBit(disk[bb], b % BPB) {
        return false;
      }
      disk := disk[bb := ClearBit(disk[bb], b % BPB)];
      logged := logged + {bb};
      FlippedBits(sb, old(disk), disk, marked, b, false);
      return true;
    }

    /** An empty slot gets a new block: the allocating branches of bmap. */
    method AllocInto(i: nat, k: nat) returns (r: nat)
      requires Inv(sb, S()) && i < sb.ninodes && k < NSLOTS && Entry(S(), i, k) == 0
      requires k > NDIRECT ==> inodes[i].addrs[NDIRECT] != 0
      modifies this`disk, this`inodes, this`owner, this`logged
      ensures Inv(sb, S())
      ensures r == 0 ==> S() == old(S()) && logged == old(logged) && Full(sb, S())
      ensures r != 0 ==>
                r < WORDS && Attached(sb, old(S()), S(), i, k, r) && Extends(sb, old(S()), S()) && Entry(S(), i, k) == r
      ensures r != 0 ==>
                logged == old(logged) + {BBlock(sb, r), r} + (if k > NDIRECT then {inodes[i].addrs[NDIRECT]} else {})
      ensures Covers(sb.bmapstart, old(logged), logged, old(disk), disk)
    {
      hide Bits, Owners, NoHoles, GetWord, PutWord, Extends;
      ghost var s0 := S();
      SlotBounds(sb, s0, i, NDIRECT);
      r := BAlloc(owner.Keys);
      if r == 0 {
        return;
      }
      if k <= NDIRECT {
        inodes := inodes[i := inodes[i].(addrs := inodes[i].addrs[k := r])];
      } else {
        ghost var d := disk;
        var ind := inodes[i].addrs[NDIRECT];
        disk := disk[ind := PutWord(disk[ind], k - NDIRECT - 1, r)];
        logged := logged + {ind};
        DataKeepsBits(sb, d, disk, owner.Keys + {r});
      }
      owner := owner[r := Slot(i, k)];
      assert owner.Keys == old(owner).Keys + {r};
      AttachKeeps(sb, s0, S(), i, k, r);
    }

    /** bmap: the address of block `bn`, allocated if need be; 0 if the disk is full. */
    method BMap(i: nat, bn: nat) returns (r: nat)
      requires Inv(sb, S()) && i < sb.ninodes && bn < MAXFILE
      modifies this`disk, this`inodes, this`owner, this`logged
      ensures Inv(sb, S()) && Extends(sb, old(S()), S()) && Grown(sb, old(S()), S(), i, bn, bn + 1)
      ensures r == Entry(S(), i, SlotOf(bn)) && (r == 0 ==> Full(sb, S()))
      ensures logged == old(logged) + Logged(sb, old(S()), S(), i)
      ensures old(Entry(S(), i, SlotOf(bn))) != 0 ==> S() == old(S()) && logged == old(logged)
      ensures Covers(sb.bmapstart, old(logged), logged, old(disk), disk)
    {
      hide Bits, Owners, NoHoles, GetWord, PutWord, Extends, Attached, Grown, Logged, Entry, Covers;
      CoversRefl(sb.bmapstart, logged, disk);
      ghost var s0 := S();
      Same(sb, s0, i, bn, bn + 1);
      SlotBounds(sb, s0, i, NDIRECT);
      SlotBounds(sb, s0, i, SlotOf(bn));
      LoggedSame(sb, s0, i);
      if bn < NDIRECT {
        r := inodes[i].addrs[bn];
        if r == 0 {
          r := AllocInto(i, bn);
          if r != 0 {
            GrownBy(sb, s0, S(), i, bn, r);
            LoggedOne(sb, s0, S(), i, bn, r);
          }
        }
        return;
      }
      if inodes[i].addrs[NDIRECT] == 0 {
        NoIndirect(s0, i, bn);
        r := AllocInto(i, NDIRECT);
        if r == 0 {
          return;
        }
        ghost var s1 := S();
        GrownBy(sb, s0, s1, i, NDIRECT, r);
        LoggedOne(sb, s0, s1, i, NDIRECT, r);
        ghost var l1 := logged;
        r := BMapIndirect(i, bn);
        CoversTrans(sb.bmapstart, old(logged), l1, logged, s0.disk, s1.disk, disk);
        ExtendsTrans(sb, s0, s1, S());
        GrownTrans(sb, s0, s1, S(), i, bn, bn + 1, bn + 1);
        LoggedTrans(sb, s0, s1, S(), i, bn, bn + 1);
      } else {
        r := BMapIndirect(i, bn);
      }
    }

    /** bmap once the indirect block exists. */
    method BMapIndirect(i: nat, bn: nat) returns (r: nat)
      requires Inv(sb, S()) && i < sb.ninodes && NDIRECT <= bn < MAXFILE && Entry(S(), i, NDIRECT) != 0
      modifies this`disk, this`inodes, this`owner, this`logged
      ensures Inv(sb, S()) && Extends(sb, old(S()), S()) && Grown(sb, old(S()), S(), i, bn, bn + 1)
      ensures r == Entry(S(), i, SlotOf(bn)) && (r == 0 ==> Full(sb, S()))
      ensures logged == old(logged) + Logged(sb, old(S()), S(), i)
      ensures old(Entry(S(), i, SlotOf(bn))) != 0 ==> S() == old(S()) && logged == old(logged)
      ensures Covers(sb.bmapstart, old(logged), logged, old(disk), disk)
    {
      hide Bits, Owners, NoHoles, GetWord, PutWord, Extends, Attached, Grown, Logged, Entry, Covers;
      CoversRefl(sb.bmapstart, logged, disk);
      ghost var s0 := S();
      Same(sb, s0, i, bn, bn + 1);
      SlotBounds(sb, s0, i, NDIRECT);
      LoggedSame(sb, s0, i);
      IndirectEntry(s0, i, bn);
      r := GetWord(disk[inodes[i].addrs[NDIRECT]], bn - NDIRECT);
      if r == 0 {
        r := AllocInto(i, bn + 1);
        if r != 0 {
          GrownBy(sb, s0, S(), i, bn + 1, r);
          LoggedOne(sb, s0, S(), i, bn + 1, r);
        }
      }
    }

    /** readi; only the first `writable` bytes of the destination can be stored to. The file system is untouched. */
    method ReadI(i: nat, off: Word, n: Word, writable: nat) returns (r: int, data: seq<Byte>)
      requires Inv(sb, S()) && i < sb.ninodes
      modifies this`disk, this`inodes, this`owner, this`logged
      ensures S() == old(S()) && logged == old(logged)
      ensures off > inodes[i].size || off + n >= WORDS ==> r == 0 && data == []
      ensures off <= inodes[i].size && off + n < WORDS ==>
                var n1 := Min(n, inodes[i].size - off);
                if n1 <= writable then r == n1 && data == Content(sb, S(), i)[off..off + n1]
                else r == -1
    {
      hide Bits, Owners, NoHoles, Entry, Extends, Grown, Logged, DataAt, Wraps, Piece, Content, Full, Covers;
      ghost var s0 := S();
      data := [];
      if off > inodes[i].size || Wraps(off, n) {
        return 0, [];
      }
      var n1 := if off + n > inodes[i].size then inodes[i].size - off else n;
      SizeCovered(sb, s0, i);
      var tot := 0;
      while tot < n1
        invariant 0 <= tot <= n1 && S() == s0 && logged == old(logged)
        invariant tot <= writable && data == Content(sb, s0, i)[off..off + tot]
      {
        var at := off + tot;
        var addr := BMap(i, at / BSIZE);
        var m := Piece(n1 - tot, at);
        if tot + m > writable {
          return -1, data;
        }
        SlotBounds(sb, s0, i, SlotOf(at / BSIZE));
        BlockOfContent(sb, s0, i, at, m);
        Slices(Content(sb, s0, i), off, at, at + m);
        data := data + disk[addr][at % BSIZE..at % BSIZE + m];
        tot := tot + m;
      }
      r := tot;
    }

    /** writei; only the first `|src|` bytes of the source can be read. The copy of a block whose source ends early puts
        what there is into the buffer, but does not log it and counts none of it: `e` bytes got into blocks and `r`
        count. */
    method WriteI(i: nat, src: seq<Byte>, off: Word, n: Word) returns (r: int, ghost e: nat)
      requires Valid() && i < sb.ninodes && inodes[i].typ != 0 && |src| <= n
      modifies this
      ensures Valid()
      ensures r == -1 <==> off > old(inodes)[i].size || off + n >= WORDS || off + n > MAXFILE * BSIZE
      ensures r == -1 ==> S() == old(S()) && logged == old(logged)
      ensures r != -1 ==> 0 <= r <= e <= |src|
      ensures 0 <= r < n ==>
                || (e == r && Full(sb, S()) && Entry(S(), i, SlotOf((off + r) / BSIZE)) == 0)
                || (e == |src| < r + Piece(n - r, off + r) && Entry(S(), i, SlotOf((off + r) / BSIZE)) != 0)
      ensures 0 < r < n ==> (off + r) % BSIZE == 0
      ensures r != -1 ==> inodes[i].size == Max(old(inodes)[i].size, off + r)
      ensures r != -1 ==>
                var c := Written(old(Content(sb, S(), i)), off, src[..e]);
                Content(sb, S(), i) == c[..Max(old(inodes)[i].size, off + r)]
      ensures forall j :: 0 <= j < sb.ninodes && j != i ==> Content(sb, S(), j) == old(Content(sb, S(), j))
      ensures r != -1 ==> inodes == old(inodes)[i := old(inodes)[i].(size := inodes[i].size, addrs := inodes[i].addrs)]
      ensures r != -1 ==> forall b :: b in old(owner) ==> b in owner && owner[b] == old(owner)[b]
      ensures r != -1 ==> forall b :: b in owner && b !in old(owner) ==>
                owner[b].inum == i && (owner[b].k == NDIRECT || off / BSIZE <= BnOf(owner[b].k) < Hit(off, n))
      ensures r != -1 ==> logged == old(logged) + Logged(sb, old(S()), S(), i)
                                   + RefSet(S(), i, off / BSIZE, Hit(off, r)) + {IBlock(sb, i)}
      ensures r != -1 ==>
                Covers(sb.inodestart, old(logged), logged + Torn(S(), i, off, r, e), old(disk), disk)
    {
      hide Bits, Owners, NoHoles, Entry, Extends, Grown, Logged, DataAt, Progress, RefSet, Attached, Covered, Hit,
           Wraps, Written, Layout, Covers, Holds, Torn, Piece;
      if off > inodes[i].size || Wraps(off, n) {
        return -1, 0;
      }
      if off + n > MAXFILE * BSIZE {
        return -1, 0;
      }
      ghost var s0 := S();
      var tot;
      tot, e := WriteLoop(i, src, off, n);
      ghost var s1, l1 := S(), logged;
      CoversHolds(sb, old(logged), l1 + Torn(s1, i, off, tot, e), s0.disk, disk, dinodes);
      GrewAt(sb, s0, s1, i, off / BSIZE, Hit(off, n));
      SizeAt(sb, s0, s1, i, off, src[..e]);
      SetSize(i, off + tot);
      ghost var s2 := S();
      Resized(sb, s0, s1, s2, i, off, src[..e], tot);
      IUpdate(i);
      Updated(sb, s0, s1, s2, S(), i, off, tot, e, n);
      CoversUpdate(sb, old(logged), l1, Torn(s1, i, off, tot, e), s0.disk, s1.disk, disk, IBlock(sb, i));
      r := tot;
    }

    /** `if(off > ip->size) ip->size = off` */
    method SetSize(i: nat, n: nat)
      requires Shaped(sb, S()) && i < sb.ninodes && n < WORDS
      modifies this`inodes
      ensures SizeSet(sb, old(S()), S(), i, Max(old(inodes)[i].size, n))
    {
      hide Layout;
      if n > inodes[i].size {
        inodes := inodes[i := inodes[i].(size := n)];
      } else {
        assert inodes == inodes[i := inodes[i].(size := inodes[i].size)];
      }
    }

    method WriteLoop(i: nat, src: seq<Byte>, off: nat, n: nat) returns (tot: nat, ghost e: nat)
      requires Inv(sb, S()) && i < sb.ninodes && |src| <= n && off <= inodes[i].size && off + n <= MAXFILE * BSIZE
      modifies this`disk, this`inodes, this`owner, this`logged
      ensures Inv(sb, S()) && tot <= e <= |src| && (0 < tot < n ==> (off + tot) % BSIZE == 0)
      ensures tot < n ==>
                || (e == tot && Full(sb, S()) && Entry(S(), i, SlotOf((off + tot) / BSIZE)) == 0)
                || (e == |src| < tot + Piece(n - tot, off + tot) && Entry(S(), i, SlotOf((off + tot) / BSIZE)) != 0)
      ensures Progress(sb, old(S()), S(), i, off, src[..e]) && Grown(sb, old(S()), S(), i, off / BSIZE, Hit(off, n))
      ensures logged == old(logged) + Logged(sb, old(S()), S(), i) + RefSet(S(), i, off / BSIZE, Hit(off, tot))
      ensures Covers(sb.bmapstart, old(logged), logged + Torn(S(), i, off, tot, e), old(disk), disk)
    {
      hide Bits, Owners, NoHoles, Entry, Extends, Grown, Logged, DataAt, Progress, RefSet, Attached, Covered, Chunk,
           Hit, Piece, Covers;
      CoversRefl(sb.bmapstart, logged, disk);
      ghost var s0, lo, hi := S(), off / BSIZE, Hit(off, n);
      tot, e := 0, 0;
      ProgressStart(sb, s0, i, off);
      Same(sb, s0, i, lo, hi);
      LoggedSame(sb, s0, i);
      RefSetEmpty(s0, i, off);
      while tot < n
        invariant 0 <= tot <= n && tot == e <= |src| && Inv(sb, S())
        invariant 0 < tot < n ==> (off + tot) % BSIZE == 0
        invariant Progress(sb, s0, S(), i, off, src[..tot]) && Grown(sb, s0, S(), i, lo, hi)
        invariant logged == old(logged) + Logged(sb, s0, S(), i) + RefSet(S(), i, lo, Hit(off, tot))
        invariant Covers(sb.bmapstart, old(logged), logged, s0.disk, disk)
      {
        ghost var s1, l1 := S(), logged;
        var addr := BMap(i, (off + tot) / BSIZE);
        Mapped(sb, s0, s1, S(), i, off, tot, n, src[..tot]);
        CoversTrans(sb.bmapstart, old(logged), l1, logged, s0.disk, s1.disk, disk);
        if addr == 0 {
          assert logged + Torn(S(), i, off, tot, e) == logged;
          return;
        }
        var m := Piece(n - tot, off + tot);
        if tot + m > |src| {
          e := |src|;
          ShortCopy(s0, old(logged), i, src, off, tot, addr, lo, hi);
          return;
        }
        ghost var s2, l2 := S(), logged;
        StoreChunk(i, off + tot, addr, src[tot..tot + m]);
        CoversTrans(sb.bmapstart, old(logged), l2, logged, s0.disk, s2.disk, disk);
        Copied(sb, s0, s2, S(), i, off, src, tot, m, lo, hi);
        tot, e := tot + m, tot + m;
      }
      assert logged + Torn(S(), i, off, tot, e) == logged;
    }

    /** The copy whose source ends inside the block. */
    method ShortCopy(ghost s0: State, ghost l0: set<nat>, i: nat, src: seq<Byte>, off: nat, tot: nat, addr: nat,
        ghost lo: nat, ghost hi: nat)
      requires Inv(sb, S()) && i < sb.ninodes && tot <= |src| && off + |src| <= MAXFILE * BSIZE
      requires (off + tot) % BSIZE + (|src| - tot) <= BSIZE && off + tot < MAXFILE * BSIZE
      requires tot > 0 ==> (off + tot) % BSIZE == 0
      requires 0 != addr == Entry(S(), i, SlotOf((off + tot) / BSIZE))
      requires Progress(sb, s0, S(), i, off, src[..tot]) && Grown(sb, s0, S(), i, lo, hi)
      requires Covers(sb.bmapstart, l0, logged, s0.disk, disk)
      modifies this`disk
      ensures Inv(sb, S()) && Progress(sb, s0, S(), i, off, src[..|src|]) && Grown(sb, s0, S(), i, lo, hi)
      ensures Logged(sb, s0, S(), i) == Logged(sb, s0, old(S()), i)
      ensures Hit(off, tot) <= MAXFILE
              && RefSet(S(), i, off / BSIZE, Hit(off, tot)) == RefSet(old(S()), i, off / BSIZE, Hit(off, tot))
      ensures Entry(S(), i, SlotOf((off + tot) / BSIZE)) == addr
      ensures Covers(sb.bmapstart, l0, logged + Torn(S(), i, off, tot, |src|), s0.disk, disk)
    {
      hide Bits, Owners, NoHoles, Entry, Grown, Logged, Progress, RefSet, Chunk, Hit, Covers;
      ghost var s2 := S();
      if tot < |src| {
        CopyIn(i, off + tot, addr, src[tot..]);
        TornCopy(sb, s0, s2, S(), i, off, src, tot, lo, hi);
        Regions(sb);
        CoversTorn(sb.bmapstart, l0, logged, s0.disk, s2.disk, disk, addr);
      } else {
        HitBound(off, tot);
        assert logged + Torn(S(), i, off, tot, |src|) == logged;
      }
    }

    /** either_copyin into the buffer of the block. */
    method CopyIn(i: nat, at: nat, addr: nat, bytes: seq<Byte>)
      requires Inv(sb, S()) && i < sb.ninodes && bytes != [] && at + |bytes| <= MAXFILE * BSIZE
               && at % BSIZE + |bytes| <= BSIZE
      requires 0 != addr == Entry(S(), i, SlotOf(at / BSIZE))
      modifies this`disk
      ensures Inv(sb, S()) && Chunk(sb, old(S()), S(), i, at, bytes)
      ensures sb.nmeta <= addr < sb.size && disk == old(disk)[addr := disk[addr]]
    {
      hide Bits, Owners, NoHoles, Entry, Patch;
      ghost var s0 := S();
      SlotBounds(sb, s0, i, SlotOf(at / BSIZE));
      disk := disk[addr := Patch(disk[addr], at % BSIZE, bytes)];
      StoreKeeps(sb, s0, S(), i, at / BSIZE, disk[addr]);
      DataKeepsBits(sb, s0.disk, disk, owner.Keys);
    }

    /** The copy into the buffer, and log_write. */
    method StoreChunk(i: nat, at: nat, addr: nat, bytes: seq<Byte>)
      requires Inv(sb, S()) && i < sb.ninodes && bytes != [] && at + |bytes| <= MAXFILE * BSIZE
               && at % BSIZE + |bytes| <= BSIZE
      requires 0 != addr == Entry(S(), i, SlotOf(at / BSIZE))
      modifies this`disk, this`logged
      ensures Inv(sb, S()) && Chunk(sb, old(S()), S(), i, at, bytes) && logged == old(logged) + {addr}
      ensures Covers(sb.bmapstart, old(logged), logged, old(disk), disk)
    {
      hide Bits, Owners, NoHoles, Entry, Chunk;
      CopyIn(i, at, addr, bytes);
      logged := logged + {addr};
    }

    /** iupdate: the inode goes into its place in its inode block; all others are still there. */
    method IUpdate(i: nat)
      requires Inv(sb, S()) && Holds(sb, disk, dinodes) && i < sb.ninodes
      modifies this`disk, this`dinodes, this`logged
      ensures Inv(sb, S()) && Holds(sb, disk, dinodes) && dinodes == old(dinodes)[i := inodes[i]]
      ensures logged == old(logged) + {IBlock(sb, i)} && sb.inodestart <= IBlock(sb, i) < sb.bmapstart
      ensures disk == old(disk)[IBlock(sb, i) := disk[IBlock(sb, i)]]
      ensures forall j :: 0 <= j < sb.ninodes ==> Content(sb, S(), j) == old(Content(sb, S(), j))
      ensures forall j, k :: 0 <= j < sb.ninodes && 0 <= k < NSLOTS ==> Entry(S(), j, k) == old(Entry(S(), j, k))
    {
      hide Bits, Owners, NoHoles, Entry, Holds, PutDinode, Content, Layout;
      StoredInode(sb, disk, dinodes, i, inodes[i]);
      ghost var s0 := S();
      disk := PutInode(sb, disk, i, inodes[i]);
      dinodes := dinodes[i := inodes[i]];
      logged := logged + {IBlock(sb, i)};
      Regions(sb);
      MetaKeeps(sb, s0, S());
      MetaKeepsBits(sb, s0.disk, disk, owner.Keys);
    }

    /** ilock: the inode as it was stored last; `false` is the panic on an inode without type. */
    method ILock(i: nat) returns (ok: bool)
      requires Holds(sb, disk, dinodes) && |inodes| == sb.ninodes && i < sb.ninodes
      modifies this`inodes
      ensures inodes == old(inodes)[i := dinodes[i]] && (ok <==> dinodes[i].typ != 0)
    {
      hide Holds, GetDinode, Layout;
      InodeAt(sb, disk, dinodes, i);
      inodes := inodes[i := GetDinode(disk[IBlock(sb, i)], i % IPB)];
      ok := inodes[i].typ != 0;
    }

    /** itrunc: every block of the inode is freed once; `ok` says that no bfree panicked. */
    method ITrunc(i: nat) returns (ok: bool)
      requires Valid() && i < sb.ninodes
      modifies this
      ensures ok && Valid() && Truncated(sb, old(S()), S(), i)
      ensures Covers(sb.inodestart, old(logged), logged, old(disk), disk)
      ensures Content(sb, S(), i) == []
      ensures forall j :: 0 <= j < sb.ninodes && j != i ==> Content(sb, S(), j) == old(Content(sb, S(), j))
    {
      hide Bits, Owners, NoHoles, Entry, Covered, SameData, Content, FreeEmpty, Layout, Covers, Holds, Blocks;
      ghost var s0 := S();
      ok := FreeAll(s0, i);
      ghost var l1 := logged;
      inodes := inodes[i := inodes[i].(size := 0, addrs := inodes[i].addrs[NDIRECT := 0])];
      owner := map b | b in owner && owner[b].inum != i :: owner[b];
      AllBlocks(sb, s0, i);
      assert inodes[i].addrs == seq(NDIRECT + 1, _ => 0);
      ghost var s1 := S();
      TruncKeeps(sb, s0, s1, i);
      Emptied(s0.inodes, i, inodes[i]);
      CoversHolds(sb, old(logged), l1, s0.disk, disk, dinodes);
      IUpdate(i);
      assert l1 + {} == l1 && logged + {} == logged;
      CoversUpdate(sb, old(logged), l1, {}, s0.disk, s1.disk, disk, IBlock(sb, i));
      TruncAfter(sb, s0, s1, S(), i, IBlock(sb, i));
    }

    /** The loops of itrunc. */
    method FreeAll(ghost s0: State, i: nat) returns (ok: bool)
      requires s0 == S() && Inv(sb, s0) && i < sb.ninodes
      modifies this`disk, this`inodes, this`logged
      ensures ok && SameData(sb, s0.disk, disk)
      ensures Bits(sb, disk, s0.owner.Keys - Blocks(s0, i, MAXFILE) - {Entry(s0, i, NDIRECT)})
      ensures Covers(sb.bmapstart, old(logged), logged, old(disk), disk)
      ensures |inodes| == |s0.inodes| && |inodes[i].addrs| == NDIRECT + 1
      ensures inodes == s0.inodes[i := s0.inodes[i].(addrs := inodes[i].addrs)]
      ensures forall k :: 0 <= k < NDIRECT ==> inodes[i].addrs[k] == 0
    {
      hide Bits, Owners, NoHoles, Entry, Covered, SameData, Layout, Covers, Blocks;
      var node := inodes[i];
      ok := FreeDirect(s0, i);
      ghost var l1, d1 := logged, disk;
      CoversRefl(sb.bmapstart, l1, d1);
      var ind := node.addrs[NDIRECT];
      SlotBounds(sb, s0, i, NDIRECT);
      if ind != 0 {
        var ok1 := FreeIndirect(s0, i, ind);
        ok := ok && ok1;
      } else {
        NoMore(sb, s0, i);
      }
      CoversTrans(sb.bmapstart, old(logged), l1, logged, s0.disk, d1, disk);
    }

    /** The search of ialloc: the lowest free inode, emptied and given a type; 0 if there is none. */
    method IAlloc(typ: Short) returns (inum: nat)
      requires Valid() && typ != 0
      modifies this
      ensures Valid() && owner == old(owner) && Covers(sb.inodestart, old(logged), logged, old(disk), disk)
      ensures logged == old(logged) + if inum == 0 then {} else {IBlock(sb, inum)}
      ensures inum == 0 ==> inodes == old(inodes) && forall i :: 1 <= i < sb.ninodes ==> inodes[i].typ != 0
      ensures inum != 0 ==> inum < sb.ninodes && old(inodes)[inum].typ == 0
      ensures inum != 0 ==> forall i :: 1 <= i < inum ==> old(inodes)[i].typ != 0
      ensures inum != 0 ==>
                inodes == old(inodes)[inum := Inode(typ, 0, 0, 0, 0, seq(NDIRECT + 1, _ => 0))]
                && Content(sb, S(), inum) == []
      ensures forall j :: 0 <= j < sb.ninodes && j != inum ==> Content(sb, S(), j) == old(Content(sb, S(), j))
    {
      hide Bits, Owners, NoHoles, Content, Holds, GetDinode, Layout, Entry, PutDinode;
      ghost var s0 := S();
      inum := 1;
      while inum < sb.ninodes
        invariant 1 <= inum && S() == s0 && dinodes == inodes && logged == old(logged)
        invariant forall i :: 1 <= i < inum && i < sb.ninodes ==> inodes[i].typ != 0
      {
        InodeAt(sb, disk, dinodes, inum);
        if GetDinode(disk[IBlock(sb, inum)], inum % IPB).typ == 0 {
          var node := Inode(typ, 0, 0, 0, 0, seq(NDIRECT + 1, _ => 0));
          assert forall k :: 0 <= k <= NDIRECT ==> inodes[inum].addrs[k] in inodes[inum].addrs;
          assert inodes[inum].addrs == node.addrs;
          inodes := inodes[inum := node];
          SameBlocks(sb, s0, S());
          IUpdate(inum);
          return;
        }
        inum := inum + 1;
      }
      inum := 0;
    }

    /** The branch of iput that drops an inode nobody links to. */
    method IFree(i: nat) returns (ok: bool)
      requires Valid() && i < sb.ninodes && inodes[i].nlink == 0
      modifies this
      ensures ok && Valid() && Content(sb, S(), i) == [] && inodes[i].typ == 0
      ensures Covers(sb.inodestart, old(logged), logged, old(disk), disk)
      ensures owner == map b | b in old(owner) && old(owner)[b].inum != i :: old(owner)[b]
      ensures forall j :: 0 <= j < sb.ninodes && j != i ==>
                            Content(sb, S(), j) == old(Content(sb, S(), j)) && inodes[j] == old(inodes)[j]
    {
      hide Bits, Owners, NoHoles, SameData, Content, Holds, Layout, Entry;
      ok := ITrunc(i);
      ghost var s1 := S();
      inodes := inodes[i := inodes[i].(typ := 0)];
      SameBlocks(sb, s1, S());
      IUpdate(i);
    }

    /** The loop over addrs[0..NDIRECT]. */
    method FreeDirect(ghost s0: State, i: nat) returns (ok: bool)
      requires s0 == S() && Inv(sb, s0) && i < sb.ninodes
      modifies this`disk, this`inodes, this`logged
      ensures ok && SameData(sb, s0.disk, disk) && Bits(sb, disk, s0.owner.Keys - Blocks(s0, i, NDIRECT))
      ensures Covers(sb.bmapstart, old(logged), logged, old(disk), disk)
      ensures |inodes| == |s0.inodes| && |inodes[i].addrs| == NDIRECT + 1
      ensures inodes == s0.inodes[i := s0.inodes[i].(addrs := inodes[i].addrs)]
      ensures forall k :: 0 <= k < NDIRECT ==> inodes[i].addrs[k] == 0
      ensures inodes[i].addrs[NDIRECT] == s0.inodes[i].addrs[NDIRECT]
    {
      hide Bits, Owners, NoHoles, Entry, Blocks, Covers;
      BlocksNone(sb, s0, i);
      CoversRefl(sb.bmapstart, logged, disk);
      ok := true;
      for k := 0 to NDIRECT
        invariant ok && SameData(sb, s0.disk, disk) && Bits(sb, disk, s0.owner.Keys - Blocks(s0, i, k))
        invariant Covers(sb.bmapstart, old(logged), logged, old(disk), disk)
        invariant |inodes| == |s0.inodes| && |inodes[i].addrs| == NDIRECT + 1
        invariant inodes == s0.inodes[i := s0.inodes[i].(addrs := inodes[i].addrs)]
        invariant forall j :: 0 <= j < k ==> inodes[i].addrs[j] == 0
        invariant forall j :: k <= j <= NDIRECT ==> inodes[i].addrs[j] == s0.inodes[i].addrs[j]
      {
        SlotBounds(sb, s0, i, k);
        ghost var l1, d1 := logged, disk;
        var ok1 := FreeOne(s0, i, k, inodes[i].addrs[k]);
        ok := ok && ok1;
        CoversTrans(sb.bmapstart, old(logged), l1, logged, old(disk), d1, disk);
        if inodes[i].addrs[k] != 0 {
          inodes := inodes[i := inodes[i].(addrs := inodes[i].addrs[k := 0])];
        }
      }
    }

    /** The loop over the indirect block, and the block itself. */
    method FreeIndirect(ghost s0: State, i: nat, ind: nat) returns (ok: bool)
      requires Refs(sb, s0) && i < sb.ninodes && ind == s0.inodes[i].addrs[NDIRECT] != 0
      requires SameData(sb, s0.disk, disk) && Bits(sb, disk, s0.owner.Keys - Blocks(s0, i, NDIRECT))
      modifies this`disk, this`logged
      ensures ok && SameData(sb, s0.disk, disk)
      ensures Bits(sb, disk, s0.owner.Keys - Blocks(s0, i, MAXFILE) - {Entry(s0, i, NDIRECT)})
      ensures Covers(sb.bmapstart, old(logged), logged, old(disk), disk)
    {
      hide Bits, Owners, NoHoles, Entry, Blocks, Covers;
      CoversRefl(sb.bmapstart, logged, disk);
      SlotBounds(sb, s0, i, NDIRECT);
      ok := true;
      for j := 0 to NINDIRECT
        invariant ok && SameData(sb, s0.disk, disk) && Bits(sb, disk, s0.owner.Keys - Blocks(s0, i, NDIRECT + j))
        invariant Covers(sb.bmapstart, old(logged), logged, old(disk), disk)
      {
        IndirectEntry(s0, i, NDIRECT + j);
        ghost var l1, d1 := logged, disk;
        var ok1 := FreeOne(s0, i, NDIRECT + j, GetWord(disk[ind], j));
        ok := ok && ok1;
        CoversTrans(sb.bmapstart, old(logged), l1, logged, old(disk), d1, disk);
      }
      NotYetFreed(sb, s0, i, 0);
      ghost var l2, d2 := logged, disk;
      var ok2 := BFree(s0.owner.Keys - Blocks(s0, i, MAXFILE), ind);
      ok := ok && ok2;
      CoversTrans(sb.bmapstart, old(logged), l2, logged, old(disk), d2, disk);
    }

    method FreeOne(ghost s0: State, i: nat, ghost m: nat, b: nat) returns (ok: bool)
      requires Refs(sb, s0) && i < sb.ninodes && m < MAXFILE && b == Entry(s0, i, SlotOf(m))
      requires SameData(sb, s0.disk, disk) && Bits(sb, disk, s0.owner.Keys - Blocks(s0, i, m))
      modifies this`disk, this`logged
      ensures ok && SameData(sb, s0.disk, disk) && Bits(sb, disk, s0.owner.Keys - Blocks(s0, i, m + 1))
      ensures logged == old(logged) + if b == 0 then {} else {BBlock(sb, b)}
      ensures Covers(sb.bmapstart, old(logged), logged, old(disk), disk)
    {
      hide Bits, Owners, NoHoles, Entry;
      SlotBounds(sb, s0, i, SlotOf(m));
      NotYetFreed(sb, s0, i, m);
      ok := true;
      if b != 0 {
        assert s0.owner.Keys - Blocks(s0, i, m) - {b} == s0.owner.Keys - Blocks(s0, i, m + 1);
        ok := BFree(s0.owner.Keys - Blocks(s0, i, m), b);
      } else {
        assert Blocks(s0, i, m + 1) == Blocks(s0, i, m);
      }
    }
  }

  /** Types and link counts are not about blocks. */
  lemma SameBlocks(sb: Super, s: State, s': State)
    requires Refs(sb, s) && s'.disk == s.disk && s'.owner == s.owner && |s'.inodes| == |s.inodes|
    requires forall i :: 0 <= i < sb.ninodes ==>
                           s'.inodes[i].size == s.inodes[i].size && s'.inodes[i].addrs == s.inodes[i].addrs
    ensures Refs(sb, s')
    ensures forall j :: 0 <= j < sb.ninodes ==> Content(sb, s', j) == Content(sb, s, j)
  {
    hide Entry, Content, Covered;
    SameEntries(sb, s, s');
    forall j | 0 <= j < sb.ninodes ensures Covered(sb, s', j, s'.inodes[j].size) {
      StillCovered(sb, s, s', j, s.inodes[j].size);
    }
    assert Refs(sb, s');
    forall j | 0 <= j < sb.ninodes ensures Content(sb, s', j) == Content(sb, s, j) {
      SameContent(sb, s, s', j);
    }
  }

  lemma SameEntries(sb: Super, s: State, s': State)
    requires Shaped(sb, s) && Shaped(sb, s') && s'.disk == s.disk
    requires forall i :: 0 <= i < sb.ninodes ==> s'.inodes[i].addrs == s.inodes[i].addrs
    ensures forall j, k :: 0 <= j < sb.ninodes && 0 <= k < NSLOTS ==> Entry(s', j, k) == Entry(s, j, k)
  {
    hide GetWord;
  }

  lemma SameContent(sb: Super, s: State, s': State, j: nat)
    requires Refs(sb, s) && Refs(sb, s') && j < sb.ninodes && s'.disk == s.disk && s'.inodes[j].size == s.inodes[j].size
    requires forall k :: 0 <= k < NSLOTS ==> Entry(s', j, k) == Entry(s, j, k)
    ensures Content(sb, s', j) == Content(sb, s, j)
  {
    hide Entry, Owners, NoHoles;
    SizeCovered(sb, s, j);
  }

  lemma Emptied(inodes: seq<Inode>, i: nat, node: Inode)
    requires FreeEmpty(inodes) && i < |inodes| && node.size == 0 && node.addrs == seq(NDIRECT + 1, _ => 0)
    ensures FreeEmpty(inodes[i := node])
  {}

  lemma BlocksNone(sb: Super, s: State, i: nat)
    requires Refs(sb, s) && i < sb.ninodes
    ensures s.owner.Keys - Blocks(s, i, 0) == s.owner.Keys
  {
    hide Entry;
  }

  /** Without an indirect block there are only the direct ones. */
  lemma NoMore(sb: Super, s: State, i: nat)
    requires Refs(sb, s) && i < sb.ninodes && s.inodes[i].addrs[NDIRECT] == 0
    ensures s.owner.Keys - Blocks(s, i, MAXFILE) - {Entry(s, i, NDIRECT)} == s.owner.Keys - Blocks(s, i, NDIRECT)
  {
    hide NoHoles, Blocks, GetWord;
    BlocksAre(s, i, MAXFILE);
    BlocksAre(s, i, NDIRECT);
    forall b | b in Blocks(s, i, MAXFILE) ensures b in Blocks(s, i, NDIRECT) {
      var bn: nat :| bn < MAXFILE && b == Entry(s, i, SlotOf(bn)) && b != 0;
    }
    forall b | b in Blocks(s, i, NDIRECT) ensures b in Blocks(s, i, MAXFILE) {
      var bn: nat :| bn < NDIRECT && b == Entry(s, i, SlotOf(bn)) && b != 0;
    }
  }

  /** One past the last block that `n` bytes at `off` touch. */
  function Hit(off: nat, n: nat): (h: nat)
    ensures off / BSIZE <= h
    ensures off + n <= MAXFILE * BSIZE ==> h <= MAXFILE
  {
    if n == 0 then off / BSIZE else (off + n - 1) / BSIZE + 1
  }

  lemma SizeCovered(sb: Super, s: State, i: nat)
    requires Refs(sb, s) && i < sb.ninodes
    ensures Covered(sb, s, i, s.inodes[i].size)
    ensures forall p: nat :: p < s.inodes[i].size ==> p / BSIZE < MAXFILE && Entry(s, i, SlotOf(p / BSIZE)) != 0
  {
    hide Entry;
    assert Covered(sb, s, i, s.inodes[i].size);
  }

  lemma Slices(c: seq<Byte>, a: nat, b: nat, d: nat)
    requires a <= b <= d <= |c|
    ensures c[a..b] + c[b..d] == c[a..d]
  {}

  /** The bytes of a file inside one of its blocks. */
  lemma BlockOfContent(sb: Super, s: State, i: nat, at: nat, m: nat)
    requires Refs(sb, s) && i < sb.ninodes && at + m <= s.inodes[i].size && 0 < m <= BSIZE - at % BSIZE
    ensures at / BSIZE < MAXFILE && 0 < Entry(s, i, SlotOf(at / BSIZE)) < sb.size
    ensures Content(sb, s, i)[at..at + m] == s.disk[Entry(s, i, SlotOf(at / BSIZE))][at % BSIZE..at % BSIZE + m]
  {
    hide Entry, NoHoles, Covered, Owners;
    SizeCovered(sb, s, i);
    SlotBounds(sb, s, i, SlotOf(at / BSIZE));
    forall p | at <= p < at + m ensures Content(sb, s, i)[p] ==
      s.disk[Entry(s, i, SlotOf(at / BSIZE))][p - at + at % BSIZE] {
      assert p / BSIZE == at / BSIZE && p % BSIZE == p - at + at % BSIZE;
    }
  }

  lemma BlockByte(sb: Super, s: State, i: nat, p: nat)
    requires Refs(sb, s) && i < sb.ninodes && p < s.inodes[i].size
    ensures p / BSIZE < MAXFILE && Entry(s, i, SlotOf(p / BSIZE)) < |s.disk|
    ensures Content(sb, s, i)[p] == s.disk[Entry(s, i, SlotOf(p / BSIZE))][p % BSIZE]
  {
    hide Entry, NoHoles;
    SizeCovered(sb, s, i);
    SlotBounds(sb, s, i, SlotOf(p / BSIZE));
  }

  lemma OtherContent(sb: Super, s: State, s': State, i: nat, bn: nat, data: Block, j: nat)
    requires Refs(sb, s) && Refs(sb, s') && i < sb.ninodes && bn < MAXFILE && Stored(sb, s, s', i, bn, data)
    requires j < sb.ninodes && j != i
    ensures Content(sb, s', j) == Content(sb, s, j)
  {
    hide Entry, Owners, NoHoles, DataAt, Stored;
    SizeCovered(sb, s, j);
    StoredInodes(sb, s, s', i, bn, data);
    forall p | 0 <= p < s.inodes[j].size ensures DataAt(s', j, p) == DataAt(s, j, p) {
      StoredData(sb, s, s', i, bn, data, j, s.inodes[j].size, p);
    }
  }

  lemma StoredInodes(sb: Super, s: State, s': State, i: nat, bn: nat, data: Block)
    requires Shaped(sb, s) && i < sb.ninodes && bn < MAXFILE && Stored(sb, s, s', i, bn, data)
    ensures s'.inodes == s.inodes
  {
    hide Entry;
  }

  lemma RefSetEmpty(s: State, i: nat, off: nat)
    requires i < |s.inodes| && |s.inodes[i].addrs| == NDIRECT + 1 && off <= MAXFILE * BSIZE
    ensures Hit(off, 0) <= MAXFILE && RefSet(s, i, off / BSIZE, Hit(off, 0)) == {}
  {}

  /** After bmap in the loop of writei. */
  lemma Mapped(sb: Super, s: State, s': State, s'': State, i: nat, off: nat, tot: nat, n: nat, done: seq<Byte>)
    requires tot < n && off + n <= MAXFILE * BSIZE && |done| == tot && (tot > 0 ==> (off + tot) % BSIZE == 0)
    requires Refs(sb, s') && Refs(sb, s'')
    requires Progress(sb, s, s', i, off, done) && Grown(sb, s, s', i, off / BSIZE, Hit(off, n))
    requires Extends(sb, s', s'') && Grown(sb, s', s'', i, (off + tot) / BSIZE, (off + tot) / BSIZE + 1)
    ensures Progress(sb, s, s'', i, off, done) && Grown(sb, s, s'', i, off / BSIZE, Hit(off, n))
    ensures Logged(sb, s, s'', i) == Logged(sb, s, s', i) + Logged(sb, s', s'', i)
    ensures RefSet(s'', i, off / BSIZE, Hit(off, tot)) == RefSet(s', i, off / BSIZE, Hit(off, tot))
  {
    hide Entry, DataAt, Logged, RefSet, Owners, NoHoles;
    var lo, hi, bn := off / BSIZE, Hit(off, n), (off + tot) / BSIZE;
    ProgressGrow(sb, s, s', s'', i, off, done, bn, bn + 1);
    GrownWider(sb, s', s'', i, bn, bn + 1, lo, hi);
    GrownTrans(sb, s, s', s'', i, lo, hi, hi);
    LoggedTrans(sb, s, s', s'', i, lo, hi);
    forall b: nat | lo <= b < Hit(off, tot) ensures Entry(s'', i, SlotOf(b)) == Entry(s', i, SlotOf(b)) {
      assert b * BSIZE < off + tot;
      assert Entry(s', i, SlotOf(b)) != 0;
    }
    RefSetKept(s', s'', i, lo, Hit(off, tot));
  }

  /** After the store in the loop of writei. */
  lemma Copied(sb: Super, s: State, s': State, s'': State, i: nat, off: nat, src: seq<Byte>, tot: nat, m: nat, lo: nat,
      hi: nat)
    requires Refs(sb, s') && i < sb.ninodes && off + tot + m <= MAXFILE * BSIZE && tot + m <= |src|
             && (tot > 0 ==> (off + tot) % BSIZE == 0)
    requires Progress(sb, s, s', i, off, src[..tot]) && Grown(sb, s, s', i, lo, hi)
    requires Chunk(sb, s', s'', i, off + tot, src[tot..tot + m])
    ensures Progress(sb, s, s'', i, off, src[..tot + m]) && Grown(sb, s, s'', i, lo, hi)
    ensures Logged(sb, s, s'', i) == Logged(sb, s, s', i)
    ensures RefSet(s'', i, off / BSIZE, Hit(off, tot + m)) ==
            RefSet(s', i, off / BSIZE, Hit(off, tot)) + {Entry(s', i, SlotOf((off + tot) / BSIZE))}
  {
    hide Entry, Owners, NoHoles, Progress, Grown, Logged, RefSet, Patch, Hit;
    var bytes := src[tot..tot + m];
    assert src[..tot] + bytes == src[..tot + m];
    ProgressStore(sb, s, s', s'', i, off, src[..tot], bytes);
    ChunkGrown(sb, s, s', s'', i, off + tot, bytes, lo, hi);
    LoggedStore(sb, s, s', s'', i);
    HitNext(sb, s', s'', i, off, tot, bytes);
  }

  /** After a copy that was cut short. */
  lemma TornCopy(sb: Super, s: State, s': State, s'': State, i: nat, off: nat, src: seq<Byte>, tot: nat, lo: nat,
      hi: nat)
    requires Refs(sb, s') && i < sb.ninodes && off + |src| <= MAXFILE * BSIZE && tot < |src|
             && (tot > 0 ==> (off + tot) % BSIZE == 0)
    requires Progress(sb, s, s', i, off, src[..tot]) && Grown(sb, s, s', i, lo, hi)
    requires Chunk(sb, s', s'', i, off + tot, src[tot..])
    ensures Progress(sb, s, s'', i, off, src[..|src|]) && Grown(sb, s, s'', i, lo, hi)
    ensures Logged(sb, s, s'', i) == Logged(sb, s, s', i)
    ensures Hit(off, tot) <= MAXFILE
            && RefSet(s'', i, off / BSIZE, Hit(off, tot)) == RefSet(s', i, off / BSIZE, Hit(off, tot))
    ensures forall k :: 0 <= k < NSLOTS ==> Entry(s'', i, k) == Entry(s', i, k)
  {
    hide Entry, Owners, NoHoles, Progress, Grown, Logged, RefSet, Patch, Hit;
    var bn := (off + tot) / BSIZE;
    assert src[tot..] == src[tot..tot + (|src| - tot)] && src[..tot + (|src| - tot)] == src[..|src|];
    Copied(sb, s, s', s'', i, off, src, tot, |src| - tot, lo, hi);
    StoreKeeps(sb, s', s'', i, bn, Patch(s'.disk[Entry(s', i, SlotOf(bn))], (off + tot) % BSIZE, src[tot..]));
    assert off + tot <= MAXFILE * BSIZE;
    RefSetKept(s', s'', i, off / BSIZE, Hit(off, tot));
  }

  lemma LoggedStore(sb: Super, s: State, s': State, s'': State, i: nat)
    requires i < |s'.inodes| && |s'.inodes[i].addrs| == NDIRECT + 1
    requires s''.owner == s'.owner && |s''.inodes| == |s'.inodes| && s''.inodes[i].addrs == s'.inodes[i].addrs
    ensures Logged(sb, s, s'', i) == Logged(sb, s, s', i)
  {}

  lemma HitBound(off: nat, n: nat)
    requires off + n <= MAXFILE * BSIZE
    ensures Hit(off, n) <= MAXFILE
  {}

  lemma HitMore(off: nat, tot: nat, m: nat)
    requires 0 < m <= BSIZE - (off + tot) % BSIZE && (tot > 0 ==> (off + tot) % BSIZE == 0)
    ensures Hit(off, tot) == (off + tot) / BSIZE && Hit(off, tot + m) == (off + tot) / BSIZE + 1
  {}

  lemma HitNext(sb: Super, s: State, s': State, i: nat, off: nat, tot: nat, bytes: seq<Byte>)
    requires Refs(sb, s) && i < sb.ninodes && off + tot + |bytes| <= MAXFILE * BSIZE
             && (tot > 0 ==> (off + tot) % BSIZE == 0)
    requires Chunk(sb, s, s', i, off + tot, bytes)
    ensures Shaped(sb, s')
    ensures RefSet(s', i, off / BSIZE, Hit(off, tot + |bytes|)) ==
            RefSet(s, i, off / BSIZE, Hit(off, tot)) + {Entry(s, i, SlotOf((off + tot) / BSIZE))}
  {
    hide Entry, Owners, NoHoles, Patch, RefSet, Hit;
    var bn := (off + tot) / BSIZE;
    StoreKeeps(sb, s, s', i, bn, Patch(s.disk[Entry(s, i, SlotOf(bn))], (off + tot) % BSIZE, bytes));
    HitMore(off, tot, |bytes|);
    RefSetKept(s, s', i, off / BSIZE, bn + 1);
    RefSetNext(s, i, off / BSIZE, bn);
  }

  lemma RefSetNext(s: State, i: nat, lo: nat, hi: nat)
    requires i < |s.inodes| && |s.inodes[i].addrs| == NDIRECT + 1 && lo <= hi < MAXFILE
    ensures RefSet(s, i, lo, hi + 1) == RefSet(s, i, lo, hi) + {Entry(s, i, SlotOf(hi))}
  {
    hide Entry;
  }

  /** The size update at the end of writei. */
  ghost predicate SizeSet(sb: Super, s: State, s': State, i: nat, n: nat)
    requires Shaped(sb, s) && i < sb.ninodes
  {
    n < WORDS && s' == s.(inodes := s.inodes[i := s.inodes[i].(size := n)])
  }

  /** Nothing but the inode block of `i` changes after the size is set. */
  lemma Updated(sb: Super, s: State, s1: State, s2: State, s3: State, i: nat, off: nat, tot: nat, e: nat, n: nat)
    requires Refs(sb, s1) && Refs(sb, s2) && Refs(sb, s3) && i < sb.ninodes && tot <= e <= n
             && off + n <= MAXFILE * BSIZE
    requires SizeSet(sb, s1, s2, i, Max(s1.inodes[i].size, off + tot)) && s3 == s2.(disk := s3.disk)
    requires forall j, k :: 0 <= j < sb.ninodes && 0 <= k < NSLOTS ==> Entry(s3, j, k) == Entry(s2, j, k)
    ensures Logged(sb, s, s3, i) == Logged(sb, s, s2, i)
    ensures RefSet(s3, i, off / BSIZE, Hit(off, tot)) == RefSet(s2, i, off / BSIZE, Hit(off, tot))
    ensures Torn(s3, i, off, tot, e) == Torn(s1, i, off, tot, e)
    ensures tot < n ==> Entry(s3, i, SlotOf((off + tot) / BSIZE)) == Entry(s1, i, SlotOf((off + tot) / BSIZE))
  {
    hide Entry, Owners, NoHoles, Logged, RefSet, Hit;
    LoggedStore(sb, s, s2, s3, i);
    RefSetKept(s2, s3, i, off / BSIZE, Hit(off, tot));
    if tot < n {
      SizeSetEntry(sb, s1, s2, i, Max(s1.inodes[i].size, off + tot), SlotOf((off + tot) / BSIZE));
    }
  }

  lemma CoversUpdate(sb: Super, l: set<nat>, l1: set<nat>, torn: set<nat>, d: seq<Block>, d1: seq<Block>,
      d2: seq<Block>, b: nat)
    requires Covers(sb.bmapstart, l, l1 + torn, d, d1) && sb.inodestart <= b < sb.bmapstart && b < |d1|
             && |d2| == |d1| && d2 == d1[b := d2[b]]
    ensures Covers(sb.inodestart, l, l1 + {b} + torn, d, d2)
  {}

  lemma CoversTorn(lo: nat, l: set<nat>, l1: set<nat>, d: seq<Block>, d1: seq<Block>, d2: seq<Block>, b: nat)
    requires Covers(lo, l, l1, d, d1) && lo <= b < |d1| && |d2| == |d1| && d2 == d1[b := d2[b]]
    ensures Covers(lo, l, l1 + {b}, d, d2)
  {}

  lemma TruncAfter(sb: Super, s: State, s1: State, s2: State, i: nat, b: nat)
    requires Shaped(sb, s) && i < sb.ninodes && Truncated(sb, s, s1, i) && b < sb.bmapstart
             && s2 == s1.(disk := s2.disk) && |s2.disk| == |s1.disk| && s2.disk == s1.disk[b := s2.disk[b]]
    ensures Truncated(sb, s, s2, i)
  {}

  lemma Regions(sb: Super)
    requires Layout(sb)
    ensures 2 <= sb.inodestart <= sb.bmapstart <= sb.nmeta <= sb.size
  {}

  lemma SizeSetEntry(sb: Super, s: State, s': State, i: nat, n: nat, k: nat)
    requires Shaped(sb, s) && i < sb.ninodes && SizeSet(sb, s, s', i, n) && k < NSLOTS
    ensures Shaped(sb, s') && Entry(s', i, k) == Entry(s, i, k)
  {}

  lemma SizeSetKeeps(sb: Super, s: State, s': State, i: nat, n: nat)
    requires Refs(sb, s) && i < sb.ninodes && Covered(sb, s, i, n) && SizeSet(sb, s, s', i, n)
    ensures Refs(sb, s')
    ensures forall j, k :: 0 <= j < sb.ninodes && 0 <= k < NSLOTS ==> Entry(s', j, k) == Entry(s, j, k)
  {
    hide GetWord;
    assert forall j, k :: 0 <= j < sb.ninodes && 0 <= k < NSLOTS ==> Entry(s', j, k) == Entry(s, j, k);
    assert Owners(sb, s');
    forall j | 0 <= j < sb.ninodes ensures Covered(sb, s', j, s'.inodes[j].size) {
      assert Covered(sb, s, j, s.inodes[j].size);
    }
  }

  lemma Resized(sb: Super, s: State, s': State, s'': State, i: nat, off: nat, done: seq<Byte>, k: nat)
    requires Progress(sb, s, s', i, off, done) && k <= |done|
    requires SizeSet(sb, s', s'', i, Max(s.inodes[i].size, off + k))
    ensures Refs(sb, s'')
    ensures Content(sb, s'', i) == Written(Content(sb, s, i), off, done)[..Max(s.inodes[i].size, off + k)]
    ensures forall j :: 0 <= j < sb.ninodes && j != i ==> Content(sb, s'', j) == Content(sb, s, j)
    ensures Logged(sb, s, s'', i) == Logged(sb, s, s', i)
    ensures off + k <= MAXFILE * BSIZE
            && RefSet(s'', i, off / BSIZE, Hit(off, k)) == RefSet(s', i, off / BSIZE, Hit(off, k))
  {
    hide Entry, DataAt, RefSet, Bits, Owners, NoHoles, Content, Written, Logged, SameBytes;
    var n := Max(s.inodes[i].size, off + k);
    CoveredLess(sb, s', i, Max(s.inodes[i].size, off + |done|), n);
    SizeSetKeeps(sb, s', s'', i, n);
    LoggedStore(sb, s, s', s'', i);
    RefSetKept(s', s'', i, off / BSIZE, Hit(off, k));
    ResizedContent(sb, s, s', s'', i, off, done, k);
    forall j | 0 <= j < sb.ninodes && j != i ensures Content(sb, s'', j) == Content(sb, s, j) {
      ResizedOther(sb, s, s', s'', j);
    }
  }

  lemma CoveredLess(sb: Super, s: State, i: nat, n: nat, m: nat)
    requires Shaped(sb, s) && i < sb.ninodes && Covered(sb, s, i, n) && m <= n
    ensures Covered(sb, s, i, m)
  {
    hide Entry;
  }

  lemma ResizedContent(sb: Super, s: State, s': State, s'': State, i: nat, off: nat, done: seq<Byte>, k: nat)
    requires Progress(sb, s, s', i, off, done) && Refs(sb, s'') && s''.disk == s'.disk && k <= |done|
    requires s''.inodes[i].size == Max(s.inodes[i].size, off + k)
    requires forall k :: 0 <= k < NSLOTS ==> Entry(s'', i, k) == Entry(s', i, k)
    ensures |Written(Content(sb, s, i), off, done)| == Max(s.inodes[i].size, off + |done|)
    ensures Content(sb, s'', i) == Written(Content(sb, s, i), off, done)[..Max(s.inodes[i].size, off + k)]
  {
    hide Entry, Owners, NoHoles;
    SizeCovered(sb, s, i);
    SizeCovered(sb, s'', i);
    var c, c' := Written(Content(sb, s, i), off, done), Content(sb, s'', i);
    forall p | 0 <= p < |c'| ensures c[p] == c'[p] {
      assert DataAt(s'', i, p) == DataAt(s', i, p);
    }
  }

  lemma ResizedOther(sb: Super, s: State, s': State, s'': State, j: nat)
    requires Refs(sb, s) && Refs(sb, s') && Refs(sb, s'') && j < sb.ninodes && SameBytes(sb, s, s', j)
    requires s''.disk == s'.disk && s''.inodes[j].size == s.inodes[j].size
    requires forall k :: 0 <= k < NSLOTS ==> Entry(s'', j, k) == Entry(s', j, k)
    ensures Content(sb, s'', j) == Content(sb, s, j)
  {
    hide Entry, Owners, NoHoles;
    SizeCovered(sb, s, j);
  }

  lemma GrewAt(sb: Super, s: State, s': State, i: nat, lo: nat, hi: nat)
    requires Grown(sb, s, s', i, lo, hi)
    ensures s'.inodes == s.inodes[i := s.inodes[i].(addrs := s'.inodes[i].addrs)]
    ensures forall b :: b in s.owner ==> b in s'.owner && s'.owner[b] == s.owner[b]
    ensures forall b :: b in s'.owner && b !in s.owner ==>
              s'.owner[b].inum == i && (s'.owner[b].k == NDIRECT || lo <= BnOf(s'.owner[b].k) < hi)
  {}

  lemma SizeAt(sb: Super, s: State, s': State, i: nat, off: nat, done: seq<Byte>)
    requires Progress(sb, s, s', i, off, done)
    ensures s'.inodes[i].size == s.inodes[i].size && off + |done| <= MAXFILE * BSIZE
  {}

  lemma LoggedSame(sb: Super, s: State, i: nat)
    requires i < |s.inodes| && |s.inodes[i].addrs| == NDIRECT + 1
    ensures Logged(sb, s, s, i) == {}
  {}

  lemma LoggedOne(sb: Super, s: State, s': State, i: nat, k: nat, b: nat)
    requires Refs(sb, s) && Shaped(sb, s') && i < sb.ninodes && k < NSLOTS && b < WORDS && Attached(sb, s, s', i, k, b)
    ensures Logged(sb, s, s', i) == {BBlock(sb, b), b} + (if k > NDIRECT then {s'.inodes[i].addrs[NDIRECT]} else {})
  {
    hide GetWord, PutWord, Owners, NoHoles;
    assert s'.owner.Keys - s.owner.Keys == {b};
    assert s'.owner[b].k == k;
  }

  lemma LoggedTrans(sb: Super, s: State, s': State, s'': State, i: nat, lo: nat, hi: nat)
    requires Refs(sb, s') && Grown(sb, s, s', i, lo, hi) && Grown(sb, s', s'', i, lo, hi)
    ensures Logged(sb, s, s'', i) == Logged(sb, s, s', i) + Logged(sb, s', s'', i)
  {
    hide Entry, NoHoles, Layout;
    var n1, n2 := s'.owner.Keys - s.owner.Keys, s''.owner.Keys - s'.owner.Keys;
    assert s''.owner.Keys - s.owner.Keys == n1 + n2;
    BBlocksUnion(sb, n1, n2);
    if b :| b in s'.owner && b !in s.owner && s'.owner[b].k > NDIRECT {
      SameIndirect(sb, s', s'', i, b);
      assert b in s''.owner && s''.owner[b].k > NDIRECT;
    }
  }

  lemma BBlocksUnion(sb: Super, a: set<nat>, b: set<nat>)
    ensures (set x | x in a + b :: BBlock(sb, x)) == (set x | x in a :: BBlock(sb, x))
              + (set x | x in b :: BBlock(sb, x))
  {}

  lemma SameIndirect(sb: Super, s: State, s': State, i: nat, b: nat)
    requires Refs(sb, s) && Shaped(sb, s') && i < sb.ninodes && b in s.owner && s.owner[b].inum == i
             && s.owner[b].k > NDIRECT
    requires forall k :: 0 <= k < NSLOTS && Entry(s, i, k) != 0 ==> Entry(s', i, k) == Entry(s, i, k)
    ensures s'.inodes[i].addrs[NDIRECT] == s.inodes[i].addrs[NDIRECT]
  {
    hide Entry, NoHoles;
    assert Entry(s, i, s.owner[b].k) == b;
    IndirectKept(sb, s, s', i, s.owner[b].k);
  }

  lemma IndirectKept(sb: Super, s: State, s': State, i: nat, k: nat)
    requires Shaped(sb, s) && Shaped(sb, s') && i < sb.ninodes && NDIRECT < k < NSLOTS && Entry(s, i, k) != 0
    requires Entry(s, i, NDIRECT) != 0 ==> Entry(s', i, NDIRECT) == Entry(s, i, NDIRECT)
    ensures s'.inodes[i].addrs[NDIRECT] == s.inodes[i].addrs[NDIRECT]
  {}

  lemma NoIndirect(s: State, i: nat, bn: nat)
    requires i < |s.inodes| && |s.inodes[i].addrs| == NDIRECT + 1 && NDIRECT <= bn < MAXFILE
             && s.inodes[i].addrs[NDIRECT] == 0
    ensures Entry(s, i, SlotOf(bn)) == 0
  {}

  lemma IndirectEntry(s: State, i: nat, bn: nat)
    requires i < |s.inodes| && |s.inodes[i].addrs| == NDIRECT + 1 && NDIRECT <= bn < MAXFILE
    requires 0 < s.inodes[i].addrs[NDIRECT] < |s.disk|
    ensures Entry(s, i, SlotOf(bn)) == GetWord(s.disk[s.inodes[i].addrs[NDIRECT]], bn - NDIRECT)
  {}

  lemma BitsOf(sb: Super, disk: seq<Block>, marked: set<nat>)
    requires Layout(sb) && |disk| == sb.size && Bits(sb, disk, marked)
    ensures forall b :: 0 <= b < sb.size ==> (Used(sb, disk, b) <==> b < sb.nmeta || b in marked)
  {}

  lemma SlotBounds(sb: Super, s: State, i: nat, k: nat)
    requires Refs(sb, s) && i < sb.ninodes && k < NSLOTS
    ensures Entry(s, i, k) != 0 ==> sb.nmeta <= Entry(s, i, k) < sb.size && Entry(s, i, k) in s.owner
    ensures k <= NDIRECT ==> Entry(s, i, k) == s.inodes[i].addrs[k]
  {}
}
