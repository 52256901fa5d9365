/** Physical memory access as opio performs it through /dev/mem (mem_set and
    mem_get): a 32-byte mapping of the page that holds the register, a
    little-endian 32-bit word inside it, and a read-modify-write of bits. */
module Registers {
  import opened Bits
  import opened Results

  const WORD_LIMIT: nat := 0x1_0000_0000

  type Byte = b: int | 0 <= b < 0x100

  /** What struct.unpack("<L") produces. */
  type Word = w: int | 0 <= w < 0x1_0000_0000

  /** A physical address (Python int, never negative here). */
  type Addr = nat

  /** Physical memory as /dev/mem exposes it: one byte at every address. */
  type Mem = Addr -> Byte

  /** The memory after an operation whose effect is r: the new memory when it
      succeeds, the old one (and the error) when it fails before writing. */
  ghost predicate Follows(r: Result<Mem>, before: Mem, after: Mem, outcome: Outcome) {
    match r
    case Ok(m) => after == m && outcome == Done
    case Err(e) => after == before && outcome == Fail(e)
  }

  const PAGE_OFFSET: nat := 0xFFF

  /** Length of every mmap of /dev/mem that opio makes. */
  const MAP_LENGTH: nat := 32

  /** `address & PAGE_MASK` with PAGE_MASK = ~0xFFF. */
  function PageBase(address: Addr): Addr { AndNot(address, PAGE_OFFSET) }

  /** `address & PAGE_OFFSET`. */
  function PageOffset(address: Addr): Addr { And(address, PAGE_OFFSET) }

  /** The page base and the in-page offset add back up to the address; the
      offset is below 4096 and the base is page aligned. */
  lemma PageSplit(address: Addr)
    ensures PageBase(address) + PageOffset(address) == address
    ensures PageOffset(address) < 0x1000
    ensures And(PageBase(address), PAGE_OFFSET) == 0
  {
    AndPlusAndNot(address, PAGE_OFFSET);
    AndBound(address, PAGE_OFFSET);
    AndOfAndNot(address, PAGE_OFFSET);
  }

  /** The in-page offset is the low 12 bits of the address. */
  lemma PageOffsetIsLowBits(address: Addr)
    ensures PageOffset(address) == LowBits(address, 12)
  {
    assert Pow2(12) == 0x1000;
    AndLowMask(address, 12);
  }

  /** The split of a concrete address: its page number and its offset in the page. */
  lemma PageOf(page: nat, offset: nat)
    requires offset < 0x1000
    ensures PageOffset(0x1000 * page + offset) == offset
  {
    assert Pow2(12) == 0x1000;
    PageOffsetIsLowBits(0x1000 * page + offset);
    LowBitsOfSum(page, offset, 12);
  }

  /** The 4-byte access at the address lies inside the 32-byte mapping of its page. */
  predicate WindowFits(address: Addr) {
    PageOffset(address) + 4 <= MAP_LENGTH
  }

  /** An address 0x1000 * page + offset with offset + 4 <= 32 can be accessed
      through the mapping of its page. */
  lemma FitsAt(address: Addr, page: nat, offset: nat)
    requires address == 0x1000 * page + offset && offset + 4 <= MAP_LENGTH
    ensures WindowFits(address)
  {
    PageOf(page, offset);
  }

  function Min(a: int, b: int): int { if a <= b then a else b }

  /** mem[off:off+4] of the mapping at PageBase(address). A Python slice is
      clipped at the end of the mapping, so an offset near or past the end
      yields fewer than four bytes. */
  function MappedBytes(m: Mem, address: Addr): (s: seq<Byte>)
    ensures |s| <= 4
    ensures |s| == 4 <==> WindowFits(address)
    ensures forall i :: 0 <= i < |s| ==> s[i] == m(address + i)
  {
    var base := PageBase(address);
    var off := PageOffset(address);
    PageSplit(address);
    var lo := Min(off, MAP_LENGTH);
    var hi := Min(off + 4, MAP_LENGTH);
    assert 0 <= hi - lo <= 4 && (hi - lo == 4 <==> off + 4 <= MAP_LENGTH);
    assert hi - lo > 0 ==> base + lo == address;
    seq(hi - lo, i requires 0 <= i < hi - lo => m(base + lo + i))
  }

  /** struct.unpack("<L", b): exactly four bytes, least significant first. */
  function Unpack(b: seq<Byte>): (r: Result<Word>)
    ensures r.Ok? <==> |b| == 4
  {
    if |b| != 4 then Err(StructError)
    else Ok(b[0] as int + 0x100 * (b[1] as int) + 0x1_0000 * (b[2] as int) + 0x100_0000 * (b[3] as int))
  }

  /** struct.pack("<L", w): refuses a value that does not fit 32 bits. */
  function Pack(w: int): (r: Result<seq<Byte>>)
    ensures r.Ok? <==> 0 <= w < WORD_LIMIT
    ensures r.Ok? ==> |r.value| == 4
  {
    if 0 <= w < WORD_LIMIT then
      var w1 := w / 0x100;
      var w2 := w1 / 0x100;
      Ok([w % 0x100, w1 % 0x100, w2 % 0x100, w2 / 0x100])
    else Err(StructError)
  }

  /** A byte and the bytes above it, in base 256. */
  lemma Base256(lo: int, hi: int)
    requires 0 <= lo < 0x100
    ensures (lo + 0x100 * hi) % 0x100 == lo && (lo + 0x100 * hi) / 0x100 == hi
  {
  }

  lemma UnpackPack(w: Word)
    ensures Pack(w).Ok? && Unpack(Pack(w).value) == Ok(w)
  {
    var w1 := w / 0x100;
    var w2 := w1 / 0x100;
    assert w == w % 0x100 + 0x100 * w1;
    assert w1 == w1 % 0x100 + 0x100 * w2;
    assert w2 == w2 % 0x100 + 0x100 * (w2 / 0x100);
    assert w2 / 0x100 < 0x100;
  }

  lemma PackUnpack(b: seq<Byte>)
    requires |b| == 4
    ensures Pack(Unpack(b).value) == Ok(b)
  {
    var q2 := b[2] as int + 0x100 * (b[3] as int);
    var q1 := b[1] as int + 0x100 * q2;
    var w := b[0] as int + 0x100 * q1;
    assert Unpack(b).value == w;
    Base256(b[0], q1);
    Base256(b[1], q2);
    Base256(b[2], b[3]);
    assert 0 <= w < WORD_LIMIT;
    assert b == [b[0], b[1], b[2], b[3]];
  }

  /** The word the mapping holds at the address. */
  function LoadWord(m: Mem, address: Addr): Result<Word> {
    Unpack(MappedBytes(m, address))
  }

  /** Memory after mem[off:off+4] = b. */
  function StoreBytes(m: Mem, address: Addr, b: seq<Byte>): Mem
    requires |b| == 4
  {
    (x: Addr) => if address <= x < address + 4 then b[x - address] else m(x)
  }

  /** The new register value of mem_set: `data | bitmask` for a truthy value,
      `data & ~bitmask` otherwise. */
  function SetBits(data: nat, bitmask: nat, value: bool): nat {
    if value then Or(data, bitmask) else AndNot(data, bitmask)
  }

  /** Every bit under the mask takes the value, every other bit keeps its old state. */
  lemma SetBitsBit(data: nat, bitmask: nat, value: bool, k: nat)
    ensures Bit(SetBits(data, bitmask, value), k) == if Bit(bitmask, k) then value else Bit(data, k)
  {
    if value { BitOr(data, bitmask, k); } else { BitAndNot(data, bitmask, k); }
  }

  lemma WordLimitIsPow2()
    ensures Pow2(32) == WORD_LIMIT
  {
    assert Pow2(8) == 0x100;
    assert Pow2(16) == 0x1_0000;
    assert Pow2(24) == 0x100_0000;
  }

  /** `1 << n` for a bit position of a 32-bit word fits the word. */
  lemma MaskFits(n: nat)
    requires n < 32
    ensures Pow2(n) < WORD_LIMIT
  {
    Pow2Increasing(n, 32);
    WordLimitIsPow2();
  }

  /** A word and a mask below 2^32 give a result below 2^32, so pack never fails. */
  lemma SetBitsBound(data: nat, bitmask: nat, value: bool)
    requires data < WORD_LIMIT && bitmask < WORD_LIMIT
    ensures SetBits(data, bitmask, value) < WORD_LIMIT
  {
    WordLimitIsPow2();
    if value { OrBound(data, bitmask, 32); } else { AndNotBound(data, bitmask); }
  }

  lemma SetBitsIdempotent(data: nat, bitmask: nat, value: bool)
    ensures SetBits(SetBits(data, bitmask, value), bitmask, value) == SetBits(data, bitmask, value)
  {
    var once := SetBits(data, bitmask, value);
    forall k: nat ensures Bit(SetBits(once, bitmask, value), k) == Bit(once, k) {
      SetBitsBit(once, bitmask, value, k);
      SetBitsBit(data, bitmask, value, k);
    }
    BitsDetermine(SetBits(once, bitmask, value), once);
  }

  /** mem_get: the word at the address, masked. */
  function MemGet(m: Mem, address: Addr, bitmask: nat): (r: Result<nat>)
    ensures r.Ok? <==> WindowFits(address)
    ensures r.Ok? ==> LoadWord(m, address).Ok? && r.value == And(LoadWord(m, address).value, bitmask)
  {
    var data :- LoadWord(m, address);
    Ok(And(data, bitmask))
  }

  /** The memory mem_set leaves behind, or the error it raises. */
  function MemSetEffect(m: Mem, address: Addr, bitmask: nat, value: bool): (r: Result<Mem>)
  {
    var data :- LoadWord(m, address);
    var b :- Pack(SetBits(data, bitmask, value));
    Ok(StoreBytes(m, address, b))
  }

  /** mem_set fails only where the mapping is too short, for any mask that fits 32 bits. */
  lemma MemSetSucceeds(m: Mem, address: Addr, bitmask: nat, value: bool)
    requires bitmask < WORD_LIMIT
    ensures MemSetEffect(m, address, bitmask, value).Ok? <==> WindowFits(address)
  {
    if WindowFits(address) {
      SetBitsBound(LoadWord(m, address).value, bitmask, value);
    }
  }

  /** After a store the word reads back as what was packed; no byte outside
      the four written ones changes. */
  lemma LoadAfterStore(m: Mem, address: Addr, w: Word)
    requires WindowFits(address)
    ensures LoadWord(StoreBytes(m, address, Pack(w).value), address) == Ok(w)
    ensures forall x: Addr :: !(address <= x < address + 4) ==> StoreBytes(m, address, Pack(w).value)(x) == m(x)
  {
    UnpackPack(w);
    var m' := StoreBytes(m, address, Pack(w).value);
    assert MappedBytes(m', address) == Pack(w).value;
  }

  /** A store leaves every word whose four bytes it does not touch as it was. */
  lemma LoadAfterStoreElsewhere(m: Mem, address: Addr, b: seq<Byte>, other: Addr)
    requires |b| == 4
    requires other + 4 <= address || address + 4 <= other
    ensures LoadWord(StoreBytes(m, address, b), other) == LoadWord(m, other)
  {
    assert MappedBytes(StoreBytes(m, address, b), other) == MappedBytes(m, other);
  }

  /** mem_set stores the old word with exactly the masked bits changed. */
  lemma MemSetStores(m: Mem, address: Addr, bitmask: nat, value: bool)
    requires MemSetEffect(m, address, bitmask, value).Ok?
    ensures LoadWord(MemSetEffect(m, address, bitmask, value).value, address)
         == Ok(SetBits(LoadWord(m, address).value, bitmask, value))
  {
    var w: Word := SetBits(LoadWord(m, address).value, bitmask, value);
    LoadAfterStore(m, address, w);
  }

  /** mem_set then mem_get with the same mask: the masked bits are all set
      for a truthy value and all clear otherwise. */
  lemma MemGetAfterMemSet(m: Mem, address: Addr, bitmask: nat, value: bool)
    requires MemSetEffect(m, address, bitmask, value).Ok?
    ensures MemGet(MemSetEffect(m, address, bitmask, value).value, address, bitmask)
         == Ok(if value then bitmask else 0)
  {
    var data := LoadWord(m, address).value;
    var w := SetBits(data, bitmask, value);
    MemSetStores(m, address, bitmask, value);
    forall k: nat ensures Bit(And(w, bitmask), k) == Bit(if value then bitmask else 0, k) {
      BitAnd(w, bitmask, k);
      SetBitsBit(data, bitmask, value, k);
      BitOfZero(k);
    }
    BitsDetermine(And(w, bitmask), if value then bitmask else 0);
  }

  /** mem_set leaves the bits outside its mask, and every word it does not
      overlap, reading as before. */
  lemma MemSetPreservesOthers(m: Mem, address: Addr, bitmask: nat, value: bool, other: Addr, mask2: nat)
    requires MemSetEffect(m, address, bitmask, value).Ok?
    requires other == address ==> And(bitmask, mask2) == 0
    requires other != address ==> other + 4 <= address || address + 4 <= other
    ensures MemGet(MemSetEffect(m, address, bitmask, value).value, other, mask2) == MemGet(m, other, mask2)
  {
    var data := LoadWord(m, address).value;
    var w := SetBits(data, bitmask, value);
    if other == address {
      MemSetStores(m, address, bitmask, value);
      forall k: nat ensures Bit(And(w, mask2), k) == Bit(And(data, mask2), k) {
        BitAnd(w, mask2, k);
        BitAnd(data, mask2, k);
        BitAnd(bitmask, mask2, k);
        BitOfZero(k);
        SetBitsBit(data, bitmask, value, k);
      }
      BitsDetermine(And(w, mask2), And(data, mask2));
    } else {
      LoadAfterStoreElsewhere(m, address, Pack(w).value, other);
    }
  }

  /** Repeating a mem_set stores the same bytes again: memory reads the same everywhere. */
  lemma MemSetIdempotent(m: Mem, address: Addr, bitmask: nat, value: bool)
    requires MemSetEffect(m, address, bitmask, value).Ok?
    ensures var m1 := MemSetEffect(m, address, bitmask, value).value;
            MemSetEffect(m1, address, bitmask, value).Ok? &&
            forall x :: MemSetEffect(m1, address, bitmask, value).value(x) == m1(x)
  {
    var data := LoadWord(m, address).value;
    var w: Word := SetBits(data, bitmask, value);
    var m1 := MemSetEffect(m, address, bitmask, value).value;
    MemSetStores(m, address, bitmask, value);
    SetBitsIdempotent(data, bitmask, value);
    UnpackPack(w);
    var m2 := StoreBytes(m1, address, Pack(w).value);
    assert MemSetEffect(m1, address, bitmask, value) == Ok(m2);
    forall x ensures m2(x) == m1(x) {
    }
  }
}
