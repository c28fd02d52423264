/** filewrite of kernel/file.c: how many blocks one transaction can log. */
module FsChunk {
  import opened FsLayout
  import opened FsState
  import opened FsWrite
  import opened FsInode
  import opened Fs

  const MAXOPBLOCKS := 10
  const CHUNK := (MAXOPBLOCKS - 1 - 1 - 2) / 2 * BSIZE

  /** What writei tells about a write of `n` bytes at `off` to file `i`, `r` of which got through. */
  ghost predicate Wrote(sb: Super, s: State, s': State, i: nat, off: nat, n: nat, r: nat, logged: set<nat>) {
    && Refs(sb, s) && Refs(sb, s') && i < sb.ninodes && r <= n && off <= s.inodes[i].size && off + n <= MAXFILE * BSIZE
    && off + r <= s'.inodes[i].size
    && (forall b :: b in s.owner ==> b in s'.owner && s'.owner[b] == s.owner[b])
    && (forall b :: b in s'.owner && b !in s.owner ==>
          s'.owner[b].inum == i && (s'.owner[b].k == NDIRECT || off / BSIZE <= BnOf(s'.owner[b].k) < Hit(off, n)))
    && logged == Logged(sb, s, s', i) + RefSet(s', i, off / BSIZE, Hit(off, r)) + {IBlock(sb, i)}
  }

  /** The first block of the range that can be new: a block that is written from its middle exists already. */
  function FirstNew(off: nat): nat { if off % BSIZE == 0 then off / BSIZE else off / BSIZE + 1 }

  /** Everything that such a write can log. */
  ghost function Names(sb: Super, s: State, i: nat, off: nat, n: nat): seq<int>
    requires Shaped(sb, s) && i < sb.ninodes && 0 < n && off + n <= MAXFILE * BSIZE && FirstNew(off) <= Hit(off, n)
  {
    var lo, mid, hi := off / BSIZE, FirstNew(off), Hit(off, n);
    var ind := s.inodes[i].addrs[NDIRECT];
    var data := seq(hi - lo, x requires 0 <= x < hi - lo => Entry(s, i, SlotOf(lo + x)));
    var maps := seq(hi - mid, x requires 0 <= x < hi - mid => BBlock(sb, Entry(s, i, SlotOf(mid + x))));
    [IBlock(sb, i), ind, BBlock(sb, ind)] + data + maps
  }

  lemma RangeBound(off: nat, n: nat)
    requires 0 < n <= CHUNK
    ensures off / BSIZE <= FirstNew(off) <= Hit(off, n)
    ensures 3 + (Hit(off, n) - off / BSIZE) + (Hit(off, n) - FirstNew(off)) <= MAXOPBLOCKS
  {}

  lemma {:induction false} RefSetAre(s: State, i: nat, lo: nat, hi: nat, b: nat)
    requires i < |s.inodes| && |s.inodes[i].addrs| == NDIRECT + 1 && lo <= hi <= MAXFILE
    ensures b in RefSet(s, i, lo, hi) <==> exists bn: nat :: lo <= bn < hi && b == Entry(s, i, SlotOf(bn))
    decreases hi
  {
    hide Entry;
    if lo < hi {
      RefSetAre(s, i, lo, hi - 1, b);
      if b == Entry(s, i, SlotOf(hi - 1)) {
        assert lo <= hi - 1 < hi;
      }
    }
  }

  /** A new block is not one that the file already had. */
  lemma NewBlock(sb: Super, s: State, s': State, i: nat, off: nat, n: nat, r: nat, logged: set<nat>, b: nat)
    requires Wrote(sb, s, s', i, off, n, r, logged) && n > 0 && b in s'.owner && b !in s.owner
    ensures s'.owner[b].k == NDIRECT ==> b == s'.inodes[i].addrs[NDIRECT]
    ensures s'.owner[b].k != NDIRECT ==>
              var bn := BnOf(s'.owner[b].k);
              FirstNew(off) <= bn < Hit(off, n) && bn < MAXFILE && b == Entry(s', i, SlotOf(bn))
  {
    hide Entry, Logged, RefSet;
    var k := s'.owner[b].k;
    assert Entry(s', i, k) == b;
    EntryIsAddr(s', i, NDIRECT);
    SizeCovered(sb, s, i);
    SlotBounds(sb, s, i, k);
    if k != NDIRECT {
      assert SlotOf(BnOf(k)) == k;
    }
    if off % BSIZE != 0 {
      assert Entry(s, i, SlotOf((off - 1) / BSIZE)) != 0;
    }
  }

  lemma AllNamed(sb: Super, s: State, s': State, i: nat, off: nat, n: nat, r: nat, logged: set<nat>, x: nat)
    requires Wrote(sb, s, s', i, off, n, r, logged) && 0 < n <= CHUNK && x in logged
    ensures FirstNew(off) <= Hit(off, n) && x in Names(sb, s', i, off, n)
  {
    hide Entry, Owners, NoHoles, RefSet, Hit, FirstNew;
    RangeBound(off, n);
    var lo, mid, hi := off / BSIZE, FirstNew(off), Hit(off, n);
    var names, ind := Names(sb, s', i, off, n), s'.inodes[i].addrs[NDIRECT];
    assert names[0] == IBlock(sb, i) && names[1] == ind && names[2] == BBlock(sb, ind);
    if x in s'.owner && x !in s.owner {
      NewBlock(sb, s, s', i, off, n, r, logged, x);
      if s'.owner[x].k != NDIRECT {
        assert names[3 + BnOf(s'.owner[x].k) - lo] == x;
      }
    } else if b :| b in s'.owner && b !in s.owner && x == BBlock(sb, b) {
      NewBlock(sb, s, s', i, off, n, r, logged, b);
      if s'.owner[b].k != NDIRECT {
        assert names[3 + (hi - lo) + BnOf(s'.owner[b].k) - mid] == x;
      }
    } else if x in RefSet(s', i, lo, Hit(off, r)) {
      RefSetAre(s', i, lo, Hit(off, r), x);
      HitMono(off, r, n);
      var bn: nat :| lo <= bn < Hit(off, r) && x == Entry(s', i, SlotOf(bn));
      assert names[3 + bn - lo] == x;
    }
  }

  lemma HitMono(off: nat, r: nat, n: nat)
    requires r <= n
    ensures Hit(off, r) <= Hit(off, n)
  {}

  lemma {:induction false} CountNames<T>(a: set<T>, names: seq<T>)
    requires forall x :: x in a ==> x in names
    ensures |a| <= |names|
    decreases |names|
  {
    if |a| > 0 {
      var x :| x in a;
      assert x in names;
      var k := |names| - 1;
      CountNames(a - {names[k]}, names[..k]);
    }
  }

  /** One chunk of filewrite logs at most MAXOPBLOCKS blocks. */
  lemma ChunkBound(sb: Super, s: State, s': State, i: nat, off: nat, n: nat, r: nat, logged: set<nat>)
    requires Wrote(sb, s, s', i, off, n, r, logged) && 0 < n <= CHUNK
    ensures |logged| <= MAXOPBLOCKS
  {
    hide Entry, Owners, NoHoles, RefSet, Logged, Hit, FirstNew;
    RangeBound(off, n);
    forall x | x in logged ensures x in Names(sb, s', i, off, n) {
      AllNamed(sb, s, s', i, off, n, r, logged, x);
    }
    CountNames(logged, Names(sb, s', i, off, n));
  }

  /** The bound is reached: a full chunk that starts inside block 11 and needs the indirect block, when the four
      new blocks lie under four different bitmap blocks. */
  lemma ChunkBoundTight(sb: Super, s: State, s': State, i: nat, off: nat, logged: set<nat>)
    requires Wrote(sb, s, s', i, off, CHUNK, CHUNK, logged)
    requires (NDIRECT - 1) * BSIZE < off < NDIRECT * BSIZE && s.inodes[i].addrs[NDIRECT] == 0
    requires forall k, l :: NDIRECT <= k < l < NDIRECT + 4 ==>
                              BBlock(sb, Entry(s', i, k)) != BBlock(sb, Entry(s', i, l))
    ensures |logged| == MAXOPBLOCKS
  {
    hide Entry, Owners, NoHoles, RefSet, Logged;
    var ind := Entry(s', i, NDIRECT);
    var d := [Entry(s', i, 11), Entry(s', i, 13), Entry(s', i, 14), Entry(s', i, 15)];
    assert off / BSIZE == 11 && Hit(off, CHUNK) == 15;
    SizeCovered(sb, s', i);
    forall bn: nat | 11 <= bn < 15 ensures Entry(s', i, SlotOf(bn)) in logged && Entry(s', i, SlotOf(bn)) != 0 {
      RefSetAre(s', i, 11, 15, Entry(s', i, SlotOf(bn)));
      assert SlotOf(bn * BSIZE / BSIZE) == SlotOf(bn);
    }
    assert SlotOf(11) == 11 && SlotOf(12) == 13 && SlotOf(13) == 14 && SlotOf(14) == 15;
    IndirectUsed(s', i, 13);
    forall k | 12 <= k < 16 ensures Entry(s', i, k) in logged && BBlock(sb, Entry(s', i, k)) in logged {
      NewHere(sb, s, s', i, k);
      InLogged(sb, s, s', i, Entry(s', i, k));
    }
    var names := d + [ind]
      + ([BBlock(sb, ind), BBlock(sb, d[1]), BBlock(sb, d[2]), BBlock(sb, d[3])] + [IBlock(sb, i)]);
    Apart(sb, s', i, names);
    CountDistinct(logged, names);
    ChunkBound(sb, s, s', i, off, CHUNK, CHUNK, logged);
  }

  lemma IndirectUsed(s: State, i: nat, k: nat)
    requires i < |s.inodes| && |s.inodes[i].addrs| == NDIRECT + 1 && NDIRECT < k < NSLOTS && Entry(s, i, k) != 0
    ensures Entry(s, i, NDIRECT) != 0
  {}

  lemma NewHere(sb: Super, s: State, s': State, i: nat, k: nat)
    requires Refs(sb, s) && Refs(sb, s') && i < sb.ninodes && s.inodes[i].addrs[NDIRECT] == 0 && NDIRECT <= k < NSLOTS
    requires forall b :: b in s.owner ==> b in s'.owner && s'.owner[b] == s.owner[b]
    requires Entry(s', i, k) != 0
    ensures Entry(s', i, k) in s'.owner && Entry(s', i, k) !in s.owner
  {
    hide NoHoles, GetWord;
  }

  lemma InLogged(sb: Super, s: State, s': State, i: nat, b: nat)
    requires i < |s'.inodes| && |s'.inodes[i].addrs| == NDIRECT + 1 && b in s'.owner && b !in s.owner
    ensures b in Logged(sb, s, s', i) && BBlock(sb, b) in Logged(sb, s, s', i)
  {}

  ghost predicate Distinct(names: seq<nat>) {
    forall x, y :: 0 <= x < y < |names| ==> names[x] != names[y]
  }

  lemma DistinctJoin(a: seq<nat>, b: seq<nat>, m: nat)
    requires Distinct(a) && Distinct(b) && (forall x :: x in a ==> x >= m) && (forall x :: x in b ==> x < m)
    ensures Distinct(a + b)
  {
    forall x, y | 0 <= x < y < |a + b| ensures (a + b)[x] != (a + b)[y] {
      assert x < |a| ==> a[x] in a;
      assert y >= |a| ==> b[y - |a|] in b;
    }
  }

  /** Inode blocks, bitmap blocks and data blocks do not overlap. */
  lemma Apart(sb: Super, s: State, i: nat, names: seq<nat>)
    requires Refs(sb, s) && i < sb.ninodes && (forall k :: 11 <= k < 16 ==> Entry(s, i, k) != 0)
    requires forall k, l :: NDIRECT <= k < l < NDIRECT + 4 ==> BBlock(sb, Entry(s, i, k)) != BBlock(sb, Entry(s, i, l))
    requires names == [Entry(s, i, 11), Entry(s, i, 13), Entry(s, i, 14), Entry(s, i, 15)] + [Entry(s, i, 12)]
                      + ([BBlock(sb, Entry(s, i, 12)), BBlock(sb, Entry(s, i, 13)), BBlock(sb, Entry(s, i, 14)),
                            BBlock(sb, Entry(s, i, 15))]
                         + [IBlock(sb, i)])
    ensures Distinct(names)
  {
    hide NoHoles, Entry, BBlock;
    forall k | 11 <= k < 16 ensures sb.bmapstart <= BBlock(sb, Entry(s, i, k)) < sb.nmeta <= Entry(s, i, k) {
      SlotBounds(sb, s, i, k);
      BBlockBounds(sb, Entry(s, i, k));
    }
    forall k, l | 11 <= k < l < 16 ensures Entry(s, i, k) != Entry(s, i, l) {
      assert s.owner[Entry(s, i, k)] == Slot(i, k) && s.owner[Entry(s, i, l)] == Slot(i, l);
    }
    var data: seq<nat> := [Entry(s, i, 11), Entry(s, i, 13), Entry(s, i, 14), Entry(s, i, 15)] + [Entry(s, i, 12)];
    var maps := [BBlock(sb, Entry(s, i, 12)), BBlock(sb, Entry(s, i, 13)), BBlock(sb, Entry(s, i, 14)),
                   BBlock(sb, Entry(s, i, 15))];
    DistinctJoin(maps, [IBlock(sb, i)], sb.bmapstart);
    DistinctJoin(data, maps + [IBlock(sb, i)], sb.nmeta);
  }

  lemma BBlockBounds(sb: Super, b: nat)
    requires Layout(sb) && b < sb.size
    ensures sb.bmapstart <= BBlock(sb, b) < sb.nmeta
  {}

  lemma {:induction false} CountDistinct(a: set<nat>, names: seq<nat>)
    requires Distinct(names) && forall x :: x in names ==> x in a
    ensures |names| <= |a|
    decreases |names|
  {
    if names != [] {
      var k := |names| - 1;
      assert names[k] in names;
      CountDistinct(a - {names[k]}, names[..k]);
    }
  }

  /** Two writes in a row are one. */
  lemma WrittenTwice(c: seq<Byte>, off: nat, a: seq<Byte>, b: seq<Byte>)
    requires off <= |c|
    ensures off + |a| <= |Written(c, off, a)|
    ensures Written(Written(c, off, a), off + |a|, b) == Written(c, off, a + b)
  {}

  lemma Parts(src: seq<Byte>, k: nat, m: nat, r: nat)
    requires k <= m <= |src| && r <= m - k
    ensures src[..k] + src[k..m][..r] == src[..k + r]
  {}

  lemma WrittenNothing(c: seq<Byte>, off: nat)
    requires off <= |c|
    ensures Written(c, off, []) == c
  {}

  /** The disk with the blocks of a transaction in place. */
  ghost function Put(disk: seq<Block>, writes: seq<(nat, Block)>): (r: seq<Block>)
    requires forall w :: w in writes ==> w.0 < |disk|
    ensures |r| == |disk|
    decreases |writes|
  {
    if writes == [] then disk
    else
      var k := |writes| - 1;
      assert writes[k] in writes;
      Put(disk, writes[..k])[writes[k].0 := writes[k].1]
  }

  /** `writes` are the blocks `l` of the disk `d`. */
  ghost predicate BlocksOf(writes: seq<(nat, Block)>, l: set<nat>, d: seq<Block>) {
    && (forall w :: w in writes ==> w.0 in l && w.0 < |d| && w.1 == d[w.0])
    && (forall b :: b in l ==> exists j :: 0 <= j < |writes| && writes[j].0 == b)
  }

  lemma {:induction false} PutAt(disk: seq<Block>, writes: seq<(nat, Block)>, d: seq<Block>, b: nat)
    requires |d| == |disk| && b < |disk| && forall w :: w in writes ==> w.0 < |d| && w.1 == d[w.0]
    ensures (forall j :: 0 <= j < |writes| ==> writes[j].0 != b) ==> Put(disk, writes)[b] == disk[b]
    ensures (exists j :: 0 <= j < |writes| && writes[j].0 == b) ==> Put(disk, writes)[b] == d[b]
    decreases |writes|
  {
    if writes != [] {
      var k := |writes| - 1;
      assert writes[k] in writes;
      PutAt(disk, writes[..k], d, b);
    }
  }

  lemma BlocksMore(writes: seq<(nat, Block)>, l: set<nat>, d: seq<Block>, b: nat)
    requires BlocksOf(writes, l, d) && b < |d|
    ensures BlocksOf(writes + [(b, d[b])], l + {b}, d)
  {
    var more := writes + [(b, d[b])];
    assert more[|writes|].0 == b;
    forall c | c in l ensures exists j :: 0 <= j < |more| && more[j].0 == c {
      var j :| 0 <= j < |writes| && writes[j].0 == c;
      assert more[j].0 == c;
    }
  }

  /** The blocks of a set one after the other, with their contents. */
  method Collect(l: set<nat>, d: seq<Block>) returns (writes: seq<(nat, Block)>)
    requires forall b :: b in l ==> b < |d|
    ensures BlocksOf(writes, l, d) && |writes| == |l|
  {
    writes := [];
    var rest := l;
    while rest != {}
      invariant rest <= l && BlocksOf(writes, l - rest, d) && |writes| + |rest| == |l|
      decreases |rest|
    {
      var b := Some(rest);
      BlocksMore(writes, l - rest, d, b);
      assert l - rest + {b} == l - (rest - {b});
      writes := writes + [(b, d[b])];
      rest := rest - {b};
    }
    assert l - {} == l;
  }

  method Some<T(==)>(s: set<T>) returns (x: T)
    requires s != {}
    ensures x in s
  {
    x :| x in s;
  }

  /** A consistent disk on which file `i` holds what it held in `s0` with `done` written at `off`. */
  ghost predicate Sound(sb: Super, s0: State, s: State, i: nat, off: nat, done: seq<Byte>) {
    && Refs(sb, s0) && Inv(sb, s) && Holds(sb, s.disk, s.inodes) && FreeEmpty(s.inodes) && i < sb.ninodes
    && (if done == [] then Content(sb, s, i) == Content(sb, s0, i)
        else off <= s0.inodes[i].size && Content(sb, s, i) == Written(Content(sb, s0, i), off, done))
    && (forall j :: 0 <= j < sb.ninodes && j != i ==> Content(sb, s, j) == Content(sb, s0, j))
  }

  /** Through the cache file `i` reads as before with `done` written at `off`, as far as byte `m`. */
  ghost predicate Seen(sb: Super, s0: State, s: State, i: nat, off: nat, done: seq<Byte>, m: nat)
    requires Refs(sb, s0) && Refs(sb, s) && i < sb.ninodes && off <= s0.inodes[i].size
  {
    var c := Written(Content(sb, s0, i), off, done);
    m <= |c| && Content(sb, s, i) == c[..m]
  }

  /** What is on disk after each transaction of a write: the blocks it logged, and nothing else. */
  ghost predicate Steps(sb: Super, ops: seq<seq<(nat, Block)>>, after: seq<State>) {
    && |after| == |ops| + 1
    && forall k :: 0 <= k < |ops| ==> Step(sb, after[k], ops[k], after[k + 1])
  }

  ghost predicate Step(sb: Super, s: State, writes: seq<(nat, Block)>, s': State) {
    && |s.disk| == sb.size && |writes| <= MAXOPBLOCKS
    && (forall w :: w in writes ==> sb.inodestart <= w.0 < sb.size)
    && s'.disk == Put(s.disk, writes)
  }

  /** filewrite on an inode: chunks of at most CHUNK bytes, each a transaction of its own. `ops` are the blocks that
      each transaction hands to the log, `after` the states of the disk once it has committed, `off1` is the new
      f->off. Each of them is sound and has the bytes of some more chunks. It stops short only at a bad range, at the
      end of a source that is too short, or on a full disk. */
  method FileWrite(fs: FileSystem, i: nat, off: Word, src: seq<Byte>, n: int)
    returns (ret: int, off1: Word, ops: seq<seq<(nat, Block)>>, ghost after: seq<State>, ghost got: seq<nat>,
      ghost e: nat)
    requires fs.Valid() && i < fs.sb.ninodes && fs.inodes[i].typ != 0 && (n >= 0 ==> |src| <= n) && n < 0x8000_0000
    modifies fs
    ensures fs.Valid() && off <= off1
    ensures Trail(fs.sb, old(fs.S()), ops, after, got, i, off, src)
    ensures got[|ops|] == off1 - off <= e <= |src| && (e == off1 - off ==> after[|ops|] == fs.S())
    ensures ret == if n >= 0 && off1 - off == n then n else -1
    ensures 0 <= n && off1 - off < n ==>
              off > old(fs.inodes)[i].size || off + n > MAXFILE * BSIZE || |src| < n || Full(fs.sb, fs.S())
    ensures off > old(fs.inodes)[i].size ==> off1 == off && fs.S() == old(fs.S())
    ensures off <= old(fs.inodes)[i].size ==>
              Seen(fs.sb, old(fs.S()), fs.S(), i, off, src[..e], Max(old(fs.inodes)[i].size, off1))
    ensures forall j :: 0 <= j < fs.sb.ninodes && j != i ==> Content(fs.sb, fs.S(), j) == old(Content(fs.sb, fs.S(), j))
  {
    hide Owners, NoHoles, Bits, Layout, Content, Logged, RefSet, Hit, Written, BnOf, Full, Entry, Covers, Holds, Sound,
         Step, Trail, Seen, FreeEmpty;
    ghost var s0 := fs.S();
    off1, ops, after, got, e := off, [], [s0], [0], 0;
    var k := 0;
    SoundStart(fs.sb, s0, i, off);
    TrailStart(fs.sb, s0, i, off, src);
    assert src[..0] == [];
    if off <= fs.inodes[i].size {
      SeenStart(fs.sb, s0, i, off);
    }
    while k < n
      invariant fs.Valid() && fs.inodes[i].typ != 0 && 0 <= k && off1 == off + k
      invariant (n >= 0 ==> k <= n) && k == e <= |src|
      invariant k > 0 ==> off <= s0.inodes[i].size && off1 <= fs.inodes[i].size
      invariant k == 0 ==> fs.S() == s0
      invariant forall j :: 0 <= j < fs.sb.ninodes && j != i ==> Content(fs.sb, fs.S(), j) == Content(fs.sb, s0, j)
      invariant Sound(fs.sb, s0, fs.S(), i, off, src[..k])
      invariant off <= s0.inodes[i].size ==> Seen(fs.sb, s0, fs.S(), i, off, src[..e], Max(s0.inodes[i].size, off1))
      invariant |after| == |got| == |ops| + 1 && after[|ops|] == fs.S() && got[|ops|] == k
      invariant Trail(fs.sb, s0, ops, after, got, i, off, src)
    {
      var n1 := if n - k > CHUNK then CHUNK else n - k;
      ghost var s1 := fs.S();
      var part := src[k..Min(|src|, k + n1)];
      var r, writes, e1, kept := OneChunk(fs, i, part, off1, n1);
      ghost var r1 := if r == -1 then 0 else r;
      assert r == -1 ==> part[..r1] == [];
      SoundMore(fs.sb, s0, s1, kept, i, off, src, k, part, r1);
      e := k + e1;
      if r != -1 {
        SeenMore(fs.sb, s0, s1, fs.S(), i, off, src, k, part, r, e1);
      }
      TrailMore(fs.sb, s0, ops, after, got, i, off, src, writes, kept, k + r1);
      ops, after, got := ops + [writes], after + [kept], got + [k + r1];
      if r > 0 {
        off1 := off1 + r;
      }
      if r != n1 {
        break;
      }
      k := k + r;
    }
    ret := if k == n then n else -1;
  }

  /** The states of the disk from commit to commit: each is sound and has at most CHUNK more bytes. */
  ghost predicate Trail(sb: Super, s0: State, ops: seq<seq<(nat, Block)>>, after: seq<State>, got: seq<nat>, i: nat,
      off: nat, src: seq<Byte>)
  {
    && Steps(sb, ops, after) && after[0] == s0 && |got| == |after| && got[0] == 0
    && (forall k :: 0 <= k < |after| ==> got[k] <= |src| && Sound(sb, s0, after[k], i, off, src[..got[k]]))
    && (forall k :: 0 <= k < |ops| ==> got[k] <= got[k + 1] <= got[k] + CHUNK)
  }

  lemma TrailStart(sb: Super, s: State, i: nat, off: nat, src: seq<Byte>)
    requires Sound(sb, s, s, i, off, [])
    ensures Trail(sb, s, [], [s], [0], i, off, src)
  {
    assert src[..0] == [];
  }

  lemma TrailMore(sb: Super, s0: State, ops: seq<seq<(nat, Block)>>, after: seq<State>, got: seq<nat>, i: nat,
      off: nat, src: seq<Byte>, writes: seq<(nat, Block)>, s: State, n: nat)
    requires Trail(sb, s0, ops, after, got, i, off, src) && Step(sb, after[|ops|], writes, s)
    requires n <= |src| && Sound(sb, s0, s, i, off, src[..n]) && got[|ops|] <= n <= got[|ops|] + CHUNK
    ensures Trail(sb, s0, ops + [writes], after + [s], got + [n], i, off, src)
  {
    hide Sound, Step;
  }

  lemma SoundOthers(sb: Super, s0: State, s: State, i: nat, off: nat, done: seq<Byte>)
    requires Sound(sb, s0, s, i, off, done)
    ensures forall j :: 0 <= j < sb.ninodes && j != i ==> Content(sb, s, j) == Content(sb, s0, j)
  {
    hide Inv, Refs, Written, Content;
  }

  lemma SeenStart(sb: Super, s: State, i: nat, off: nat)
    requires Refs(sb, s) && i < sb.ninodes && off <= s.inodes[i].size
    ensures Seen(sb, s, s, i, off, [], s.inodes[i].size)
  {
    hide Refs, Written;
    WrittenSame(sb, s, i, off, []);
  }

  /** What a write told about itself, with the bytes that got into blocks although they do not count. */
  ghost predicate Left(sb: Super, s: State, s': State, i: nat, off: nat, n: nat, r: nat, e: nat, src: seq<Byte>,
      l: set<nat>)
  {
    && Wrote(sb, s, s', i, off, n, r, l) && Inv(sb, s') && Holds(sb, s'.disk, s'.inodes) && FreeEmpty(s'.inodes)
    && 0 < n && r <= e <= |src| <= n && (e > r ==> r < n && e <= r + Piece(n - r, off + r)) && |s.disk| == |s'.disk|
    && (0 < r < n ==> (off + r) % BSIZE == 0) && (e > r ==> Entry(s', i, SlotOf((off + r) / BSIZE)) != 0)
    && s'.inodes[i].size == Max(s.inodes[i].size, off + r)
    && Content(sb, s', i) == Written(Content(sb, s, i), off, src[..e])[..Max(s.inodes[i].size, off + r)]
    && (forall j :: 0 <= j < sb.ninodes && j != i ==> Content(sb, s', j) == Content(sb, s, j))
    && Covers(sb.inodestart, {}, l + Torn(s', i, off, r, e), s.disk, s'.disk)
  }

  /** A block that was torn and is in the log all the same is new, and what was torn lies past the end. */
  lemma TornNew(sb: Super, s: State, s': State, i: nat, off: nat, n: nat, r: nat, e: nat, src: seq<Byte>, l: set<nat>)
    requires Left(sb, s, s', i, off, n, r, e, src, l) && e > r
    ensures var t := Entry(s', i, SlotOf((off + r) / BSIZE));
            && sb.nmeta <= t < sb.size && t in s'.owner && s'.owner[t] == Slot(i, SlotOf((off + r) / BSIZE))
            && (if t in l then s'.inodes[i].size == off + r else Entry(s, i, SlotOf((off + r) / BSIZE)) == t)
  {
    hide Entry, NoHoles, RefSet, Bits, Written, Content, Covers, Holds, Piece, Hit, BBlock;
    var bn := (off + r) / BSIZE;
    HitEnd(off, r);
    var t := Entry(s', i, SlotOf(bn));
    assert s'.owner[t] == Slot(i, SlotOf(bn));
    if t in s.owner {
      assert Entry(s, i, SlotOf(bn)) == t;
      NotLogged(sb, s, s', i, off, n, r, l, bn);
    } else {
      SizeCovered(sb, s, i);
      NewIsLogged(sb, s, s', i, off, n, r, l, t);
    }
  }

  lemma NewIsLogged(sb: Super, s: State, s': State, i: nat, off: nat, n: nat, r: nat, l: set<nat>, t: nat)
    requires Wrote(sb, s, s', i, off, n, r, l) && t in s'.owner && t !in s.owner
    ensures t in l
  {
    hide Owners, NoHoles, RefSet, Hit, Logged;
    InLogged(sb, s, s', i, t);
  }

  /** A block behind those written that was there before is not logged. */
  lemma NotLogged(sb: Super, s: State, s': State, i: nat, off: nat, n: nat, r: nat, l: set<nat>, bn: nat)
    requires Wrote(sb, s, s', i, off, n, r, l) && bn < MAXFILE && Hit(off, r) <= bn
    requires Entry(s', i, SlotOf(bn)) in s.owner
    ensures Entry(s', i, SlotOf(bn)) !in l
  {
    hide Entry, NoHoles, RefSet, Hit;
    var t: nat := Entry(s', i, SlotOf(bn));
    assert s'.owner[t] == Slot(i, SlotOf(bn)) && t >= sb.nmeta;
    RefSetAre(s', i, off / BSIZE, Hit(off, r), t);
    forall bn1: nat | off / BSIZE <= bn1 < Hit(off, r) ensures Entry(s', i, SlotOf(bn1)) != t {
      assert SlotOf(bn1) != SlotOf(bn);
    }
    forall b | b in s'.owner ensures t != BBlock(sb, b) {
      BBlockBounds(sb, b);
    }
    EntryIsAddr(s', i, NDIRECT);
    assert Entry(s', i, NDIRECT) != t;
  }

  lemma HitEnd(off: nat, r: nat)
    requires r > 0 ==> (off + r) % BSIZE == 0
    ensures Hit(off, r) == (off + r) / BSIZE
  {}

  lemma {:induction false} PutIs(s: State, s': State, writes: seq<(nat, Block)>, l: set<nat>, t: nat, torn: bool)
    requires BlocksOf(writes, l, s'.disk) && |s.disk| == |s'.disk|
    requires Covers(0, {}, l + (if torn then {t} else {}), s.disk, s'.disk)
    ensures forall w :: w in writes ==> w.0 < |s.disk|
    ensures !torn || t in l ==> Put(s.disk, writes) == s'.disk
    ensures torn && t !in l && t < |s.disk| ==> Put(s.disk, writes) == s'.disk[t := s.disk[t]]
  {
    hide Put;
    assert forall w :: w in writes ==> w.0 < |s.disk|;
    forall b | 0 <= b < |s.disk| ensures Put(s.disk, writes)[b] == if b in l then s'.disk[b] else s.disk[b] {
      PutAt(s.disk, writes, s'.disk, b);
      if j :| 0 <= j < |writes| && writes[j].0 == b {
        assert writes[j] in writes;
      }
    }
  }

  /** Without the torn bytes the file is as if the write had ended after those that count. */
  lemma Untorn(sb: Super, s: State, s': State, s'': State, i: nat, off: nat, n: nat, r: nat, e: nat, src: seq<Byte>,
      l: set<nat>)
    requires Left(sb, s, s', i, off, n, r, e, src, l) && e > r
    requires var t := Entry(s', i, SlotOf((off + r) / BSIZE));
             && t < sb.size && t !in l && s'' == s'.(disk := s'.disk[t := s.disk[t]])
    ensures Sound(sb, s, s'', i, off, src[..r])
  {
    hide Entry, Owners, NoHoles, RefSet, Logged, Bits, Covers, Holds, Hit, Piece, Layout, Wrote, Written, Content, Torn,
         FreeEmpty;
    assert Wrote(sb, s, s', i, off, n, r, l);
    WroteFacts(sb, s, s', i, off, n, r, l);
    var bn := (off + r) / BSIZE;
    var t := Entry(s', i, SlotOf(bn));
    TornNew(sb, s, s', i, off, n, r, e, src, l);
    StoreKeeps(sb, s', s'', i, bn, s.disk[t]);
    Regions(sb);
    DataKeepsBits(sb, s'.disk, s''.disk, s'.owner.Keys);
    HoldsKept(sb, s'.disk, s''.disk, s'.inodes);
    forall j | 0 <= j < sb.ninodes && j != i ensures Content(sb, s'', j) == Content(sb, s, j) {
      OtherContent(sb, s', s'', i, bn, s.disk[t], j);
    }
    UntornContent(sb, s, s', s'', i, off, n, r, e, src, l);
    WrittenSame(sb, s, i, off, src[..r]);
  }

  lemma WroteFacts(sb: Super, s: State, s': State, i: nat, off: nat, n: nat, r: nat, l: set<nat>)
    requires Wrote(sb, s, s', i, off, n, r, l)
    ensures Refs(sb, s) && Refs(sb, s') && i < sb.ninodes && r <= n && off <= s.inodes[i].size
            && off + n <= MAXFILE * BSIZE
  {
    hide Refs, RefSet, Logged;
  }

  lemma WrittenSame(sb: Super, s: State, i: nat, off: nat, done: seq<Byte>)
    requires Refs(sb, s) && i < sb.ninodes && off <= s.inodes[i].size
    ensures done == [] ==> Written(Content(sb, s, i), off, done) == Content(sb, s, i)
  {
    hide Refs, Content;
    WrittenNothing(Content(sb, s, i), off);
  }

  lemma UntornContent(sb: Super, s: State, s': State, s'': State, i: nat, off: nat, n: nat, r: nat, e: nat,
      src: seq<Byte>, l: set<nat>)
    requires Left(sb, s, s', i, off, n, r, e, src, l) && e > r && Refs(sb, s'')
    requires var t := Entry(s', i, SlotOf((off + r) / BSIZE));
             && t < sb.size && Entry(s, i, SlotOf((off + r) / BSIZE)) == t != 0
             && Stored(sb, s', s'', i, (off + r) / BSIZE, s.disk[t])
    ensures Content(sb, s'', i) == Written(Content(sb, s, i), off, src[..r])
  {
    hide Entry, Owners, NoHoles, RefSet, Logged, Bits, Covers, Holds, Hit, Layout, Wrote, Content, Torn, FreeEmpty,
         DataAt, Stored;
    WroteFacts(sb, s, s', i, off, n, r, l);
    var bn := (off + r) / BSIZE;
    var t := Entry(s', i, SlotOf(bn));
    var c, c1, c2 := Content(sb, s, i), Content(sb, s', i), Content(sb, s'', i);
    SizeCovered(sb, s', i);
    StoredInodes(sb, s', s'', i, bn, s.disk[t]);
    forall p | 0 <= p < |c2| ensures c2[p] == Written(c, off, src[..r])[p] {
      StoredData(sb, s', s'', i, bn, s.disk[t], i, s'.inodes[i].size, p);
      assert c2[p] == if p / BSIZE == bn then s.disk[t][p % BSIZE] else c1[p];
      if p / BSIZE == bn {
        assert p < |c|;
        BlockByte(sb, s, i, p);
      }
    }
  }

  /** The disk after the commit. */
  lemma KeptIs(sb: Super, s: State, s': State, i: nat, off: nat, n: nat, r: nat, e: nat, src: seq<Byte>, l: set<nat>,
      writes: seq<(nat, Block)>)
    requires Left(sb, s, s', i, off, n, r, e, src, l) && BlocksOf(writes, l, s'.disk)
    ensures forall w :: w in writes ==> w.0 < |s.disk|
    ensures var kept := s'.(disk := Put(s.disk, writes));
            Sound(sb, s, kept, i, off, src[..r]) && (e == r ==> kept == s')
  {
    hide Entry, Owners, NoHoles, RefSet, Logged, Bits, Holds, Hit, Layout, Wrote, Content, Written, FreeEmpty, Put,
         BlocksOf, Piece;
    WroteFacts(sb, s, s', i, off, n, r, l);
    var t := if e > r then Entry(s', i, SlotOf((off + r) / BSIZE)) else 0;
    PutIs(s, s', writes, l, t, e > r);
    WrittenSame(sb, s, i, off, src[..r]);
    if e == r {
      WrittenSize(Content(sb, s, i), off, src[..e]);
    } else {
      TornNew(sb, s, s', i, off, n, r, e, src, l);
      if t in l {
        WrittenCut(Content(sb, s, i), off, src[..e], r);
        assert src[..e][..r] == src[..r];
      } else {
        Untorn(sb, s, s', s'.(disk := Put(s.disk, writes)), i, off, n, r, e, src, l);
      }
    }
  }

  lemma WrittenSize(c: seq<Byte>, off: nat, done: seq<Byte>)
    requires off <= |c|
    ensures |Written(c, off, done)| == Max(|c|, off + |done|)
    ensures Written(c, off, done)[..Max(|c|, off + |done|)] == Written(c, off, done)
  {}

  lemma WrittenCut(c: seq<Byte>, off: nat, done: seq<Byte>, r: nat)
    requires |c| <= off + r && off <= |c| && r <= |done|
    ensures Written(c, off, done)[..off + r] == Written(c, off, done[..r])
  {}

  lemma SoundMore(sb: Super, s0: State, s1: State, s2: State, i: nat, off: nat, src: seq<Byte>, k: nat, part: seq<Byte>,
      r: nat)
    requires k <= |src| && r <= |part| && part <= src[k..] && (k == 0 ==> s1 == s0)
    requires Sound(sb, s0, s1, i, off, src[..k]) && Sound(sb, s1, s2, i, off + k, part[..r])
    ensures k + r <= |src| && Sound(sb, s0, s2, i, off, src[..k + r])
  {
    hide Layout, Owners, NoHoles, Bits, Content, Written, Holds, FreeEmpty;
    assert src[..k] + part[..r] == src[..k + r] && |src[..k]| == k;
    assert (r == 0 ==> src[..k + r] == src[..k]) && (k == 0 ==> part[..r] == src[..k + r]);
    SoundOthers(sb, s0, s1, i, off, src[..k]);
    SoundOthers(sb, s1, s2, i, off + k, part[..r]);
    if k > 0 && r > 0 {
      WrittenTwice(Content(sb, s0, i), off, src[..k], part[..r]);
    }
  }

  lemma SeenMore(sb: Super, s0: State, s1: State, s2: State, i: nat, off: nat, src: seq<Byte>, k: nat, part: seq<Byte>,
      r: nat, e: nat)
    requires k <= |src| && part <= src[k..] && Sound(sb, s0, s1, i, off, src[..k]) && Refs(sb, s2)
    requires r <= e <= |part| && off <= s0.inodes[i].size && off + k <= s1.inodes[i].size
    requires s2.inodes[i].size == Max(s1.inodes[i].size, off + k + r)
    requires Seen(sb, s1, s2, i, off + k, part[..e], s2.inodes[i].size)
    ensures k + e <= |src| && Seen(sb, s0, s2, i, off, src[..k + e], Max(s0.inodes[i].size, off + k + r))
  {
    hide Inv, Refs, Written, Holds, FreeEmpty;
    assert src[..k] + part[..e] == src[..k + e];
    var c := Content(sb, s0, i);
    WrittenSame(sb, s0, i, off, src[..k]);
    WrittenSize(c, off, src[..k]);
    WrittenTwice(c, off, src[..k], part[..e]);
  }

  lemma SoundStart(sb: Super, s: State, i: nat, off: nat)
    requires Inv(sb, s) && Holds(sb, s.disk, s.inodes) && FreeEmpty(s.inodes) && i < sb.ninodes
    ensures Sound(sb, s, s, i, off, [])
  {}

  /** Everything that is logged lies behind the log. */
  lemma LoggedWhere(sb: Super, s: State, s': State, i: nat, off: nat, n: nat, r: nat, l: set<nat>)
    requires Wrote(sb, s, s', i, off, n, r, l) && n > 0
    ensures forall b :: b in l ==> sb.inodestart <= b < sb.size
  {
    hide Entry, NoHoles, RefSet, Hit;
    forall b | b in l ensures sb.inodestart <= b < sb.size {
      if b in RefSet(s', i, off / BSIZE, Hit(off, r)) {
        RefSetAre(s', i, off / BSIZE, Hit(off, r), b);
        var bn: nat :| off / BSIZE <= bn < Hit(off, r) && b == Entry(s', i, SlotOf(bn));
        RefdThere(sb, s', i, off, r, bn);
        SlotBounds(sb, s', i, SlotOf(bn));
      } else if c :| c in s'.owner && c !in s.owner && b == BBlock(sb, c) {
        BBlockBounds(sb, c);
      } else if b == IBlock(sb, i) {
      } else if b in s'.owner {
      } else {
        IndirectThere(sb, s, s', i);
      }
    }
  }

  lemma RefdThere(sb: Super, s: State, i: nat, off: nat, r: nat, bn: nat)
    requires Refs(sb, s) && i < sb.ninodes && off + r <= s.inodes[i].size && off / BSIZE <= bn < Hit(off, r)
    ensures bn < MAXFILE && Entry(s, i, SlotOf(bn)) != 0
  {
    hide Entry, Owners;
    SizeCovered(sb, s, i);
    assert bn * BSIZE < off + r;
    assert bn * BSIZE / BSIZE == bn;
  }

  lemma IndirectThere(sb: Super, s: State, s': State, i: nat)
    requires Refs(sb, s') && i < sb.ninodes
    requires exists b :: b in s'.owner && b !in s.owner && s'.owner[b].k > NDIRECT
    requires forall b :: b in s'.owner && b !in s.owner ==> s'.owner[b].inum == i
    ensures sb.nmeta <= s'.inodes[i].addrs[NDIRECT] < sb.size
  {
    hide Entry, NoHoles;
    var b :| b in s'.owner && b !in s.owner && s'.owner[b].k > NDIRECT;
    IndirectUsed(s', i, s'.owner[b].k);
    SlotBounds(sb, s', i, NDIRECT);
  }

  lemma AllWhere(sb: Super, l: set<nat>, writes: seq<(nat, Block)>, d: seq<Block>)
    requires BlocksOf(writes, l, d) && forall b :: b in l ==> sb.inodestart <= b < sb.size
    ensures forall w :: w in writes ==> sb.inodestart <= w.0 < sb.size
  {}

  lemma PutNone(sb: Super, disk: seq<Block>)
    ensures Put(disk, []) == disk
  {}

  /** What follows for the transaction as a whole. */
  lemma LeftFacts(sb: Super, s: State, s': State, i: nat, off: nat, n: nat, r: nat, e: nat, src: seq<Byte>, l: set<nat>)
    requires Left(sb, s, s', i, off, n, r, e, src, l) && n <= CHUNK
    ensures |l| <= MAXOPBLOCKS && (forall b :: b in l ==> sb.inodestart <= b < sb.size)
    ensures off <= s.inodes[i].size && off + r <= s'.inodes[i].size == Max(s.inodes[i].size, off + r)
    ensures s'.inodes[i].size <= MAXFILE * BSIZE && Seen(sb, s, s', i, off, src[..e], s'.inodes[i].size)
    ensures forall j :: 0 <= j < sb.ninodes && j != i ==> Content(sb, s', j) == Content(sb, s, j)
  {
    hide Entry, Owners, RefSet, Logged, Bits, Covers, Holds, Hit, Piece, Layout, Wrote, Written, Content, Torn,
         FreeEmpty;
    WroteFacts(sb, s, s', i, off, n, r, l);
    WrittenSize(Content(sb, s, i), off, src[..e]);
    ChunkBound(sb, s, s', i, off, n, r, l);
    LoggedWhere(sb, s, s', i, off, n, r, l);
    assert Covered(sb, s', i, s'.inodes[i].size);
  }

  /** writei at the start of a transaction. */
  method Tracked(fs: FileSystem, i: nat, src: seq<Byte>, off: Word, n: nat) returns (r: int, ghost e: nat)
    requires fs.Valid() && i < fs.sb.ninodes && fs.inodes[i].typ != 0 && |src| <= n && 0 < n <= CHUNK
    modifies fs
    ensures fs.Valid() && fs.inodes[i].typ == old(fs.inodes)[i].typ && -1 <= r <= |src|
    ensures off > old(fs.inodes)[i].size ==> r == -1
    ensures r < n ==> off > old(fs.inodes)[i].size || off + n > MAXFILE * BSIZE || |src| < n || Full(fs.sb, fs.S())
    ensures r == -1 ==> fs.S() == old(fs.S())
    ensures r != -1 ==> r <= e <= |src| && Left(fs.sb, old(fs.S()), fs.S(), i, off, n, r, e, src, fs.logged)
  {
    hide Owners, NoHoles, Bits, Logged, RefSet, Hit, BnOf, Full, Entry, Covers, Holds, Layout, Piece, Written, Content,
         Torn, FreeEmpty;
    fs.logged := {};
    r, e := fs.WriteI(i, src, off, n);
    if r != -1 {
      WrittenSize(old(Content(fs.sb, fs.S(), i)), off, src[..e]);
    }
  }

  /** begin_op, writei, end_op. The blocks handed to log_write are what the disk gets. */
  method OneChunk(fs: FileSystem, i: nat, src: seq<Byte>, off: Word, n: nat)
    returns (r: int, writes: seq<(nat, Block)>, ghost e: nat, ghost kept: State)
    requires fs.Valid() && i < fs.sb.ninodes && fs.inodes[i].typ != 0 && |src| <= n && 0 < n <= CHUNK
    modifies fs
    ensures fs.Valid() && fs.inodes[i].typ == old(fs.inodes)[i].typ
    ensures -1 <= r <= e <= |src| && Step(fs.sb, old(fs.S()), writes, kept) && (e == r || r == -1 ==> kept == fs.S())
    ensures off > old(fs.inodes)[i].size ==> r == -1
    ensures r < n ==> off > old(fs.inodes)[i].size || off + n > MAXFILE * BSIZE || |src| < n || Full(fs.sb, fs.S())
    ensures r == -1 ==> e == 0 && fs.S() == old(fs.S())
    ensures r != -1 ==> off + r <= fs.inodes[i].size == Max(old(fs.inodes)[i].size, off + r) <= MAXFILE * BSIZE
    ensures r != -1 ==> Seen(fs.sb, old(fs.S()), fs.S(), i, off, src[..e], fs.inodes[i].size)
    ensures forall j :: 0 <= j < fs.sb.ninodes && j != i ==> Content(fs.sb, fs.S(), j) == old(Content(fs.sb, fs.S(), j))
    ensures Sound(fs.sb, old(fs.S()), kept, i, off, if r == -1 then [] else src[..r])
  {
    hide Left, Layout, Owners, NoHoles, Bits, Holds, FreeEmpty, Full, Put, BlocksOf, Sound, Seen, Content, Written;
    ghost var s0 := fs.S();
    r, e := Tracked(fs, i, src, off, n);
    if r == -1 {
      writes, kept, e := [], s0, 0;
      PutNone(fs.sb, s0.disk);
      SoundStart(fs.sb, s0, i, off);
      return;
    }
    ghost var s1, l := fs.S(), fs.logged;
    LeftFacts(fs.sb, s0, s1, i, off, n, r, e, src, l);
    writes := Collect(fs.logged, fs.disk);
    KeptIs(fs.sb, s0, s1, i, off, n, r, e, src, l, writes);
    kept := s1.(disk := Put(s0.disk, writes));
    AllWhere(fs.sb, l, writes, s1.disk);
  }
}
