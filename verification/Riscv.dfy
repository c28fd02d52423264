/** The address and page-table-entry macros of kernel/riscv.h on 64-bit words, and the
    reading of a word as the entry record that the rest of the model uses. */
module Riscv {

  const PTE_V: bv64 := 1
  const PTE_R: bv64 := 2
  const PTE_W: bv64 := 4
  const PTE_X: bv64 := 8
  const PTE_U: bv64 := 16
  const PTE_COW: bv64 := 256
  const PAGE_MASK: bv64 := 0xFFF
  const MAXVA: bv64 := 0x40_0000_0000

  function Pa2Pte(pa: bv64): bv64 { (pa >> 12) << 10 }

  function Pte2Pa(pte: bv64): bv64 { (pte >> 10) << 12 }

  function PteFlags(pte: bv64): bv64 { pte & 0x3FF }

  function Px(level: int, va: bv64): bv64
    requires 0 <= level <= 2
  {
    match level
    case 0 => (va >> 12) & 0x1FF
    case 1 => (va >> 21) & 0x1FF
    case 2 => (va >> 30) & 0x1FF
  }

  /** The fields of an entry word. */
  datatype Fields = Fields(pa: bv64, v: bool, r: bool, w: bool, x: bool, u: bool, cow: bool)

  function Decode(pte: bv64): Fields {
    Fields(Pte2Pa(pte), pte & PTE_V != 0, pte & PTE_R != 0, pte & PTE_W != 0, pte & PTE_X != 0,
           pte & PTE_U != 0, pte & PTE_COW != 0)
  }

  function Bit(b: bool, mask: bv64): bv64 { if b then mask else 0 }

  /** The word that mappages builds from an address and permission bits. */
  function Encode(f: Fields): bv64 {
    Pa2Pte(f.pa) | Bit(f.v, PTE_V) | Bit(f.r, PTE_R) | Bit(f.w, PTE_W) | Bit(f.x, PTE_X) | Bit(f.u, PTE_U) |
    Bit(f.cow, PTE_COW)
  }

  /** A page-aligned 56-bit address and the flags survive the trip through a word. */
  lemma EncodeDecode(f: Fields)
    requires f.pa & PAGE_MASK == 0 && f.pa < 0x100_0000_0000_0000
    ensures Decode(Encode(f)) == f
  {
    AddressSurvives(f.pa, Bit(f.v, PTE_V) | Bit(f.r, PTE_R) | Bit(f.w, PTE_W) | Bit(f.x, PTE_X) | Bit(f.u, PTE_U) |
                          Bit(f.cow, PTE_COW));
  }

  lemma AddressSurvives(pa: bv64, flags: bv64)
    requires pa & PAGE_MASK == 0 && pa < 0x100_0000_0000_0000 && flags & 0x3FF == flags
    ensures Pte2Pa(Pa2Pte(pa) | flags) == pa
    ensures PteFlags(Pa2Pte(pa) | flags) == flags
  {}

  /** uvmcopy's flag surgery on the word is the record update of module Cow, in both tables. */
  lemma ShareWord(pte: bv64)
    requires Pte2Pa(pte) < 0x100_0000_0000_0000 && pte >> 54 == 0
    ensures var flags := ((PteFlags(pte) & !PTE_W) | PTE_R) | PTE_COW;
            Decode(Pa2Pte(Pte2Pa(pte)) | flags) == Decode(pte).(w := false, r := true, cow := true)
  {}

  /** update's flag surgery likewise. */
  lemma PrivateWord(pte: bv64, pa: bv64)
    requires pa & PAGE_MASK == 0 && pa < 0x100_0000_0000_0000
    ensures var flags := (PteFlags(pte) | PTE_W) & !PTE_COW;
            Decode(Pa2Pte(pa) | flags | PTE_V) == Decode(pte).(pa := pa, v := true, w := true, cow := false)
  {}

  /** Below MAXVA the three indices and the page offset determine the address, and the top index stays below 256. */
  lemma IndicesDetermineAddress(a: bv64, b: bv64)
    requires a < MAXVA && b < MAXVA
    requires Px(2, a) == Px(2, b) && Px(1, a) == Px(1, b) && Px(0, a) == Px(0, b) && a & PAGE_MASK == b & PAGE_MASK
    ensures a == b && Px(2, a) < 256
  {}
}
