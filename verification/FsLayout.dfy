/** Bytes, bits and words inside the 1024-byte blocks of kernel/fs.h. */
module FsLayout {
  const BSIZE := 1024
  const BPB := 8192                  // bitmap bits per block
  const NDIRECT := 12
  const NINDIRECT := 256
  const MAXFILE := 268
  const IPB := 16                    // inodes per block
  const WORDS := 0x1_0000_0000       // 2^32

  type Byte = x: int | 0 <= x < 256
  type Block = b: seq<Byte> | |b| == BSIZE witness seq(BSIZE, _ => 0)
  type Word = w: nat | w < WORDS
  type Short = x: nat | x < 0x1_0000

  function ZeroBlock(): Block {
    seq(BSIZE, _ => 0)
  }

  /** Four bytes, least significant first, as one number. */
  function Join(b: seq<Byte>): (w: Word)
    requires |b| == 4
  {
    var b0: int, b1: int, b2: int, b3: int := b[0], b[1], b[2], b[3];
    b0 + 256 * (b1 + 256 * (b2 + 256 * b3))
  }

  function Split(w: Word): (b: seq<Byte>)
    ensures |b| == 4
  {
    [w % 256, w / 256 % 256, w / 256 / 256 % 256, w / 256 / 256 / 256]
  }

  lemma JoinSplit(w: Word)
    ensures Join(Split(w)) == w
  {}

  /** Entry `j` of an indirect block. */
  function GetWord(b: Block, j: nat): (w: Word)
    requires j < NINDIRECT
  {
    Join(b[4 * j..4 * j + 4])
  }

  function PutWord(b: Block, j: nat, w: Word): (r: Block)
    requires j < NINDIRECT
  {
    b[..4 * j] + Split(w) + b[4 * j + 4..]
  }

  /** Storing an entry changes that entry and no other. */
  lemma WordRoundTrip(b: Block, j: nat, w: Word, k: nat)
    requires j < NINDIRECT && k < NINDIRECT
    ensures GetWord(PutWord(b, j, w), k) == if k == j then w else GetWord(b, k)
  {
    hide Split, Join;
    var r := PutWord(b, j, w);
    if k == j {
      JoinSplit(w);
      assert r[4 * j..4 * j + 4] == Split(w);
    } else {
      assert r[4 * k..4 * k + 4] == b[4 * k..4 * k + 4];
    }
  }

  lemma ZeroWord(j: nat)
    requires j < NINDIRECT
    ensures GetWord(ZeroBlock(), j) == 0
  {}

  function Mask(k: nat): bv8
    requires k < 8
  {
    1 << k
  }

  function Bits8(x: Byte): bv8 { x as bv8 }

  function With(x: Byte, m: bv8): Byte { (Bits8(x) | m) as int }

  function Without(x: Byte, m: bv8): Byte { (Bits8(x) & !m) as int }

  predicate Meets(x: bv8, m: bv8) { x & m != 0 }

  predicate Bit(x: Byte, k: nat)
    requires k < 8
  {
    Meets(Bits8(x), Mask(k))
  }

  lemma Masks(k: nat, j: nat)
    requires k < 8 && j < 8
    ensures Meets(Mask(k), Mask(j)) <==> k == j
  {}

  lemma Stored8(x: Byte, m: bv8)
    ensures Bits8(With(x, m)) == Bits8(x) | m && Bits8(Without(x, m)) == Bits8(x) & !m
  {}

  lemma MaskAlgebra(x: Byte, m: bv8, n: bv8)
    ensures Meets(m, m) ==> Meets(Bits8(With(x, m)), m) && !Meets(Bits8(Without(x, m)), m)
    ensures !Meets(m, n) ==>
              Meets(Bits8(With(x, m)), n) == Meets(Bits8(x), n) && Meets(Bits8(Without(x, m)), n) == Meets(Bits8(x), n)
  {
    hide Bits8, With, Without;
    Stored8(x, m);
    BitAlgebra(Bits8(x), m, n);
  }

  lemma BitAlgebra(x: bv8, m: bv8, n: bv8)
    ensures (x | m) & m == m && (x & !m) & m == 0
    ensures m & n == 0 ==> (x | m) & n == x & n && (x & !m) & n == x & n
  {}

  /** Setting or clearing one bit leaves the seven others. */
  lemma BitUpdate(x: Byte, k: nat, j: nat)
    requires k < 8 && j < 8
    ensures Bit(With(x, Mask(k)), j) == (j == k || Bit(x, j))
    ensures Bit(Without(x, Mask(k)), j) == (j != k && Bit(x, j))
  {
    hide Mask, With, Without, Meets, Bits8;
    Masks(k, k);
    Masks(k, j);
    MaskAlgebra(x, Mask(k), Mask(j));
  }

  /** Bit `bi` of a bitmap block. */
  predicate BlockBit(b: Block, bi: nat)
    requires bi < BPB
  {
    Bit(b[bi / 8], bi % 8)
  }

  function MarkBit(b: Block, bi: nat): Block
    requires bi < BPB
  {
    b[bi / 8 := With(b[bi / 8], Mask(bi % 8))]
  }

  function ClearBit(b: Block, bi: nat): Block
    requires bi < BPB
  {
    b[bi / 8 := Without(b[bi / 8], Mask(bi % 8))]
  }

  lemma MarkedBit(b: Block, bi: nat, j: nat)
    requires bi < BPB && j < BPB
    ensures BlockBit(MarkBit(b, bi), j) == (j == bi || BlockBit(b, j))
    ensures BlockBit(ClearBit(b, bi), j) == (j != bi && BlockBit(b, j))
  {
    hide Mask, Bit, With, Without;
    BitUpdate(b[bi / 8], bi % 8, j % 8);
  }
}
