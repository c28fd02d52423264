/** How far a write has got: the steps of writei on whole file-system states. */
module FsWrite {
  import opened FsLayout
  import opened FsState

  function BnOf(k: nat): int { if k < NDIRECT then k else k - 1 }

  function Max(a: nat, b: nat): nat { if a < b then b else a }

  /** Inode `i` has gained blocks, its indirect block or data blocks from `lo` up to `hi`. */
  ghost predicate Grown(sb: Super, s: State, s': State, i: nat, lo: nat, hi: nat) {
    && Shaped(sb, s) && Shaped(sb, s') && i < sb.ninodes
    && s'.inodes == s.inodes[i := s.inodes[i].(addrs := s'.inodes[i].addrs)]
    && (forall j, k :: 0 <= j < sb.ninodes && 0 <= k < NSLOTS && Entry(s, j, k) != 0 ==>
                         Entry(s', j, k) == Entry(s, j, k))
    && (forall b :: b in s.owner ==> b in s'.owner && s'.owner[b] == s.owner[b])
    && (forall b :: b in s'.owner && b !in s.owner ==>
          s'.owner[b].inum == i && (s'.owner[b].k == NDIRECT || lo <= BnOf(s'.owner[b].k) < hi))
  }

  lemma GrownTrans(sb: Super, s: State, s': State, s'': State, i: nat, lo: nat, mid: nat, hi: nat)
    requires Grown(sb, s, s', i, lo, mid) && Grown(sb, s', s'', i, lo, hi) && mid <= hi
    ensures Grown(sb, s, s'', i, lo, hi)
  {
    hide Entry;
  }

  lemma GrownWider(sb: Super, s: State, s': State, i: nat, lo: nat, hi: nat, lo': nat, hi': nat)
    requires Grown(sb, s, s', i, lo, hi) && lo' <= lo && hi <= hi'
    ensures Grown(sb, s, s', i, lo', hi')
  {
    hide Entry;
  }

  lemma GrownBy(sb: Super, s: State, s': State, i: nat, k: nat, b: nat)
    requires Refs(sb, s) && Shaped(sb, s') && i < sb.ninodes && k < NSLOTS && b < WORDS
    requires Attached(sb, s, s', i, k, b) && Extends(sb, s, s')
    ensures forall lo: nat, hi: nat :: k == NDIRECT || lo <= BnOf(k) < hi ==> Grown(sb, s, s', i, lo, hi)
  {
    hide GetWord, PutWord, Entry;
  }

  lemma Same(sb: Super, s: State, i: nat, lo: nat, hi: nat)
    requires Refs(sb, s) && i < sb.ninodes
    ensures Grown(sb, s, s, i, lo, hi) && Extends(sb, s, s)
  {
    hide Entry;
  }

  /** `done` has been written to file `i` at `off`; sizes are still the old ones. */
  ghost predicate Progress(sb: Super, s: State, s': State, i: nat, off: nat, done: seq<Byte>)
  {
    && Refs(sb, s) && Refs(sb, s') && i < sb.ninodes && off <= s.inodes[i].size
    && |s'.inodes| == |s.inodes| && (forall j :: 0 <= j < sb.ninodes ==> s'.inodes[j].size == s.inodes[j].size)
    && Covered(sb, s', i, Max(s.inodes[i].size, off + |done|))
    && (forall p :: 0 <= p < Max(s.inodes[i].size, off + |done|) ==>
          DataAt(s', i, p) == if off <= p < off + |done| then done[p - off] else DataAt(s, i, p))
    && (forall j :: 0 <= j < sb.ninodes && j != i ==> SameBytes(sb, s, s', j))
  }

  ghost predicate SameBytes(sb: Super, s: State, s': State, j: nat)
    requires Refs(sb, s) && Refs(sb, s') && j < sb.ninodes
  {
    assert Covered(sb, s, j, s.inodes[j].size);
    forall p :: 0 <= p < s.inodes[j].size ==> DataAt(s', j, p) == DataAt(s, j, p)
  }

  lemma ProgressStart(sb: Super, s: State, i: nat, off: nat)
    requires Refs(sb, s) && i < sb.ninodes && off <= s.inodes[i].size
    ensures Progress(sb, s, s, i, off, [])
  {
    assert Covered(sb, s, i, s.inodes[i].size);
  }

  /** bmap does not disturb a write. */
  lemma ProgressGrow(sb: Super, s: State, s': State, s'': State, i: nat, off: nat, done: seq<Byte>, lo: nat, hi: nat)
    requires Progress(sb, s, s', i, off, done) && Refs(sb, s'') && Extends(sb, s', s'') && Grown(sb, s', s'', i, lo, hi)
    ensures Progress(sb, s, s'', i, off, done)
  {
    hide Entry, DataAt, Owners, NoHoles;
    var n := Max(s.inodes[i].size, off + |done|);
    forall p | 0 <= p < n ensures DataAt(s'', i, p) == DataAt(s', i, p) {
      ExtendsKeepsData(sb, s', s'', i, n, p);
    }
    StillCovered(sb, s', s'', i, n);
    forall j | 0 <= j < sb.ninodes && j != i ensures SameBytes(sb, s, s'', j) {
      BytesGrow(sb, s, s', s'', j);
    }
  }

  lemma BytesGrow(sb: Super, s: State, s': State, s'': State, j: nat)
    requires Refs(sb, s) && Refs(sb, s') && Refs(sb, s'') && j < sb.ninodes && SameBytes(sb, s, s', j)
    requires s'.inodes[j].size == s.inodes[j].size && Extends(sb, s', s'')
    ensures SameBytes(sb, s, s'', j)
  {
    hide Entry, DataAt, Owners, Extends;
    assert Covered(sb, s', j, s'.inodes[j].size);
    forall p | 0 <= p < s.inodes[j].size ensures DataAt(s'', j, p) == DataAt(s', j, p) {
      ExtendsKeepsData(sb, s', s'', j, s'.inodes[j].size, p);
    }
  }

  /** `bytes` copied into a block at `o`. */
  function Patch(b: Block, o: nat, bytes: seq<Byte>): Block
    requires o + |bytes| <= BSIZE
  {
    b[..o] + bytes + b[o + |bytes|..]
  }

  /** One block of the write: copied into the block that holds `off + |done|`. */
  ghost predicate Chunk(sb: Super, s: State, s': State, i: nat, at: nat, bytes: seq<Byte>)
    requires Shaped(sb, s) && i < sb.ninodes
  {
    && at + |bytes| <= MAXFILE * BSIZE && bytes != [] && at % BSIZE + |bytes| <= BSIZE && at / BSIZE < MAXFILE
    && var b := Entry(s, i, SlotOf(at / BSIZE));
       0 < b < sb.size && Stored(sb, s, s', i, at / BSIZE, Patch(s.disk[b], at % BSIZE, bytes))
  }

  lemma ProgressStore(sb: Super, s: State, s': State, s'': State, i: nat, off: nat, done: seq<Byte>, bytes: seq<Byte>)
    requires Progress(sb, s, s', i, off, done) && Chunk(sb, s', s'', i, off + |done|, bytes)
    ensures Progress(sb, s, s'', i, off, done + bytes)
  {
    hide Entry, DataAt, Owners, NoHoles, Patch;
    var at := off + |done|;
    var n, n' := Max(s.inodes[i].size, at), Max(s.inodes[i].size, at + |bytes|);
    var data := Patch(s'.disk[Entry(s', i, SlotOf(at / BSIZE))], at % BSIZE, bytes);
    StoreKeeps(sb, s', s'', i, at / BSIZE, data);
    CoveredTo(sb, s', i, n, at, n');
    StillCovered(sb, s', s'', i, n');
    forall p | 0 <= p < n'
      ensures DataAt(s'', i, p) == if off <= p < at + |bytes| then (done + bytes)[p - off] else DataAt(s, i, p)
    {
      PatchedByte(sb, s', s'', i, n', at, bytes, p);
    }
    forall j | 0 <= j < sb.ninodes && j != i ensures SameBytes(sb, s, s'', j) {
      BytesStore(sb, s, s', s'', i, at / BSIZE, data, j);
    }
  }

  lemma CoveredTo(sb: Super, s: State, i: nat, n: nat, at: nat, n': nat)
    requires Shaped(sb, s) && i < sb.ninodes && Covered(sb, s, i, n) && at <= n && at / BSIZE < MAXFILE
    requires Entry(s, i, SlotOf(at / BSIZE)) != 0 && n' <= MAXFILE * BSIZE && n' <= Max(n, (at / BSIZE + 1) * BSIZE)
    ensures Covered(sb, s, i, n')
  {
    hide Entry;
    forall bn: nat | bn < MAXFILE && bn * BSIZE < n' ensures Entry(s, i, SlotOf(bn)) != 0 {
      if bn * BSIZE >= n {
        assert bn == at / BSIZE;
      }
    }
  }

  lemma PatchedByte(sb: Super, s: State, s': State, i: nat, n: nat, at: nat, bytes: seq<Byte>, p: nat)
    requires Refs(sb, s) && i < sb.ninodes && Chunk(sb, s, s', i, at, bytes) && Covered(sb, s, i, n) && p < n
    ensures DataAt(s', i, p) == if at <= p < at + |bytes| then bytes[p - at] else DataAt(s, i, p)
  {
    hide Entry, Owners, NoHoles;
    var b := Entry(s, i, SlotOf(at / BSIZE));
    StoredData(sb, s, s', i, at / BSIZE, Patch(s.disk[b], at % BSIZE, bytes), i, n, p);
  }

  lemma BytesStore(sb: Super, s: State, s': State, s'': State, i: nat, bn: nat, data: Block, j: nat)
    requires Refs(sb, s) && Refs(sb, s') && Refs(sb, s'') && j < sb.ninodes && j != i && SameBytes(sb, s, s', j)
    requires s'.inodes[j].size == s.inodes[j].size && i < sb.ninodes && bn < MAXFILE && Stored(sb, s', s'', i, bn, data)
    ensures SameBytes(sb, s, s'', j)
  {
    hide Entry, DataAt, Owners;
    assert Covered(sb, s', j, s'.inodes[j].size);
    forall p | 0 <= p < s.inodes[j].size ensures DataAt(s'', j, p) == DataAt(s', j, p) {
      StoredData(sb, s', s'', i, bn, data, j, s'.inodes[j].size, p);
    }
  }

  /** A store moves no block. */
  lemma ChunkGrown(sb: Super, s: State, s': State, s'': State, i: nat, at: nat, bytes: seq<Byte>, lo: nat, hi: nat)
    requires Refs(sb, s') && Grown(sb, s, s', i, lo, hi) && Chunk(sb, s', s'', i, at, bytes)
    ensures Grown(sb, s, s'', i, lo, hi)
  {
    hide Entry, Owners, NoHoles, Patch;
    StoreKeeps(sb, s', s'', i, at / BSIZE, Patch(s'.disk[Entry(s', i, SlotOf(at / BSIZE))], at % BSIZE, bytes));
  }

  /** Blocks `lo` up to `hi` of file `i`. */
  ghost function RefSet(s: State, i: nat, lo: nat, hi: nat): (r: set<nat>)
    requires i < |s.inodes| && |s.inodes[i].addrs| == NDIRECT + 1 && lo <= hi <= MAXFILE
    decreases hi
  {
    if lo == hi then {} else RefSet(s, i, lo, hi - 1) + {Entry(s, i, SlotOf(hi - 1))}
  }

  lemma {:induction false} RefSetKept(s: State, s': State, i: nat, lo: nat, hi: nat)
    requires i < |s.inodes| == |s'.inodes| && |s.inodes[i].addrs| == |s'.inodes[i].addrs| == NDIRECT + 1
             && lo <= hi <= MAXFILE
    requires forall bn: nat :: lo <= bn < hi ==> Entry(s', i, SlotOf(bn)) == Entry(s, i, SlotOf(bn))
    ensures RefSet(s', i, lo, hi) == RefSet(s, i, lo, hi)
    decreases hi
  {
    hide Entry;
    if lo < hi {
      RefSetKept(s, s', i, lo, hi - 1);
    }
  }
}
