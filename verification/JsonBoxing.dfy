/**
 The boxing of tools/gason.h: a value is a 64-bit word, either a double or a quiet NaN
 that carries a tag and a pointer.
 */
module JsonBoxing {

  datatype Tag = NumberTag | StringTag | ArrayTag | ObjectTag | TrueTag | FalseTag | NullTag

  const PAYLOAD_MASK: bv64 := 0x0000_7FFF_FFFF_FFFF
  const NAN_MASK: bv64 := 0x7FF8_0000_0000_0000
  const TAG_MASK: bv64 := 0xF
  const SIGN_BIT: bv64 := 0x8000_0000_0000_0000
  const INFINITY: bv64 := 0x7FF0_0000_0000_0000

  function Code(tag: Tag): bv64 {
    match tag
    case NumberTag => 0
    case StringTag => 1
    case ArrayTag => 2
    case ObjectTag => 3
    case TrueTag => 4
    case FalseTag => 5
    case NullTag => 15
  }

  function Box(tag: Tag, payload: bv64): bv64 {
    NAN_MASK | (Code(tag) << 47) | payload
  }

  /** The source compares the words as signed integers. */
  predicate IsDouble(word: bv64) {
    word >= SIGN_BIT || word <= NAN_MASK
  }

  function GetTagCode(word: bv64): bv64 {
    if IsDouble(word) then 0 else (word >> 47) & TAG_MASK
  }

  function GetPayload(word: bv64): bv64 {
    word & PAYLOAD_MASK
  }

  /** IEEE 754: all exponent bits set and a fraction that is not zero. */
  predicate IsNan(word: bv64) {
    (word & !SIGN_BIT) > INFINITY
  }

  /** What a word of four bits and a pointer of 47 bits make of the box. */
  lemma CodeUnboxes(code: bv64, payload: bv64)
    requires 0 < code <= TAG_MASK && payload <= PAYLOAD_MASK
    ensures var word := NAN_MASK | (code << 47) | payload;
      NAN_MASK < word < SIGN_BIT && (word >> 47) & TAG_MASK == code && word & PAYLOAD_MASK == payload
  {
  }

  lemma CodeFits(tag: Tag)
    ensures Code(tag) <= TAG_MASK && (Code(tag) == 0 <==> tag == NumberTag)
  {
  }

  /** Tag and pointer come back from the box. */
  lemma BoxUnboxes(tag: Tag, payload: bv64)
    requires tag != NumberTag && payload <= PAYLOAD_MASK
    ensures !IsDouble(Box(tag, payload))
    ensures GetTagCode(Box(tag, payload)) == Code(tag) && GetPayload(Box(tag, payload)) == payload
  {
    hide Code;
    CodeFits(tag);
    CodeUnboxes(Code(tag), payload);
  }

  /** The words of the seven tags: from bit 47 on they count up by one, but for the last. */
  function TagWord(tag: Tag): bv64 {
    match tag
    case NumberTag => 0x7FF8_0000_0000_0000
    case StringTag => 0x7FF8_8000_0000_0000
    case ArrayTag => 0x7FF9_0000_0000_0000
    case ObjectTag => 0x7FF9_8000_0000_0000
    case TrueTag => 0x7FFA_0000_0000_0000
    case FalseTag => 0x7FFA_8000_0000_0000
    case NullTag => 0x7FFF_8000_0000_0000
  }

  lemma BoxWord(tag: Tag, payload: bv64)
    ensures Box(tag, payload) == TagWord(tag) | payload
  {
    match tag
    case NumberTag => assert NAN_MASK | (0 << 47) == TagWord(tag);
    case StringTag => assert NAN_MASK | (1 << 47) == TagWord(tag);
    case ArrayTag => assert NAN_MASK | (2 << 47) == TagWord(tag);
    case ObjectTag => assert NAN_MASK | (3 << 47) == TagWord(tag);
    case TrueTag => assert NAN_MASK | (4 << 47) == TagWord(tag);
    case FalseTag => assert NAN_MASK | (5 << 47) == TagWord(tag);
    case NullTag => assert NAN_MASK | (15 << 47) == TagWord(tag);
  }

  lemma CodesDiffer(a: Tag, b: Tag)
    requires Code(a) == Code(b)
    ensures a == b
  {
  }

  /** Two boxes are the same word only if they hold the same. */
  lemma BoxIsInjective(a: Tag, p: bv64, b: Tag, q: bv64)
    requires a != NumberTag && b != NumberTag && p <= PAYLOAD_MASK && q <= PAYLOAD_MASK
    requires Box(a, p) == Box(b, q)
    ensures a == b && p == q
  {
    BoxUnboxes(a, p);
    BoxUnboxes(b, q);
    CodesDiffer(a, b);
  }

  /** Every finite number, both infinities and every negative NaN read back as doubles. */
  lemma NumbersAreDoubles(word: bv64)
    requires !IsNan(word) || word >= SIGN_BIT
    ensures IsDouble(word) && GetTagCode(word) == Code(NumberTag)
  {
  }

  const QUIET_BITS: bv64 := 0xFFF8_0000_0000_0000
  const BELOW_QUIET: bv64 := 0x0007_FFFF_FFFF_FFFF

  /**
   The words that are not doubles are the positive quiet NaNs with a bit set below the quiet one, and
   each is a box.
   */
  lemma BoxesAreNans(word: bv64)
    ensures !IsDouble(word) <==> word & QUIET_BITS == NAN_MASK && word & BELOW_QUIET != 0
    ensures !IsDouble(word) ==> IsNan(word) && word == NAN_MASK | (GetTagCode(word) << 47) | GetPayload(word)
  {
  }

  // ---------- addresses as words ----------

  /** How many bits a pointer may have: tag and pointer share the rest of the word. */
  const POINTER_BITS: nat := 47

  function TwoTo(k: nat): (n: nat)
    ensures n > 0
  {
    if k == 0 then 1 else 2 * TwoTo(k - 1)
  }

  /** The first address too large to be boxed. */
  const ADDRESS_LIMIT: nat := TwoTo(POINTER_BITS)

  function Bit(n: nat): bv64 {
    if n % 2 == 1 then 1 else 0
  }

  function Push(b: bv64, d: bv64): bv64 {
    (b << 1) | d
  }

  function Half(x: bv64): bv64 {
    x >> 1
  }

  function Lowest(x: bv64): bv64 {
    x & 1
  }

  predicate Under(x: bv64, mask: bv64) {
    x <= mask
  }

  /** A number below 2^k as a word, and back. */
  function Bits(n: nat, k: nat): bv64 {
    if k == 0 then 0 else Push(Bits(n / 2, k - 1), Bit(n))
  }

  function FromBits(word: bv64, k: nat): nat {
    if k == 0 then 0 else 2 * FromBits(Half(word), k - 1) + (if Lowest(word) == 1 then 1 else 0)
  }

  /** The payload mask without its lowest `j` bits. */
  function Mask(j: nat): bv64 {
    if j == 0 then PAYLOAD_MASK else Half(Mask(j - 1))
  }

  /** Ones from the lowest bit up. */
  predicate IsMask(x: bv64) {
    x <= PAYLOAD_MASK && x & (x + 1) == 0
  }

  lemma MaskShifts(x: bv64)
    requires IsMask(x)
    ensures IsMask(Half(x)) && (x == 0 ==> Half(x) == 0)
  {
  }

  lemma PushShifts(b: bv64, n: nat, x: bv64)
    requires IsMask(x) && x != 0 && Under(b, Half(x))
    ensures Under(Push(b, Bit(n)), x) && Half(Push(b, Bit(n))) == b && Lowest(Push(b, Bit(n))) == Bit(n)
  {
    PushBit(b, Bit(n), x);
  }

  lemma PushBit(b: bv64, d: bv64, x: bv64)
    requires IsMask(x) && x != 0 && b <= x >> 1 && d <= 1
    ensures (b << 1) | d <= x && ((b << 1) | d) >> 1 == b && ((b << 1) | d) & 1 == d
  {
  }

  lemma {:induction false} MasksAreMasks(j: nat)
    ensures IsMask(Mask(j))
  {
    hide IsMask, Half;
    if j > 0 {
      MasksAreMasks(j - 1);
      MaskShifts(Mask(j - 1));
    } else {
      FullMask();
    }
  }

  lemma FullMask()
    ensures IsMask(PAYLOAD_MASK)
  {
  }

  function SixHalves(x: bv64): bv64 {
    x >> 6
  }

  lemma SixShifts(x: bv64)
    ensures Half(Half(Half(Half(Half(Half(x)))))) == SixHalves(x)
  {
  }

  lemma MaskDrops(j: nat)
    ensures Mask(j + 6) == SixHalves(Mask(j))
  {
    hide Mask, Half, SixHalves;
    MaskNext(j);
    MaskNext(j + 1);
    MaskNext(j + 2);
    MaskNext(j + 3);
    MaskNext(j + 4);
    MaskNext(j + 5);
    SixShifts(Mask(j));
  }

  lemma MaskNext(j: nat)
    ensures Mask(j + 1) == Half(Mask(j))
  {
  }

  lemma MaskStarts()
    ensures Mask(4) == 0x07FF_FFFF_FFFF
  {
    assert Mask(1) == 0x3FFF_FFFF_FFFF;
    assert Mask(2) == 0x1FFF_FFFF_FFFF;
    assert Mask(3) == 0x0FFF_FFFF_FFFF;
  }

  lemma MaskEnds()
    ensures Mask(46) == 1
  {
    hide Mask;
    MaskStarts();
    MaskDrops(4);
    MaskDrops(10);
    MaskDrops(16);
    MaskDrops(22);
    MaskDrops(28);
    MaskDrops(34);
    MaskDrops(40);
  }

  lemma {:induction false} MaskIsNotEmpty(j: nat)
    requires j < POINTER_BITS
    ensures Mask(j) != 0
    decreases POINTER_BITS - j
  {
    hide IsMask, Half;
    MasksAreMasks(j);
    if j == POINTER_BITS - 1 {
      MaskEnds();
    } else {
      MaskIsNotEmpty(j + 1);
      MaskShifts(Mask(j));
    }
  }

  /** The number comes back from its bits, which fit under a mask. */
  predicate RoundTrips(n: nat, k: nat, x: bv64) {
    Under(Bits(n, k), x) && FromBits(Bits(n, k), k) == n
  }

  lemma OneMoreBit(n: nat, k: nat, x: bv64)
    requires k > 0 && IsMask(x) && x != 0 && RoundTrips(n / 2, k - 1, Half(x))
    ensures RoundTrips(n, k, x)
  {
    hide IsMask, Push, Half, Lowest, Under, Bit;
    PushShifts(Bits(n / 2, k - 1), n, x);
    BitIs(n);
  }

  lemma BitIs(n: nat)
    ensures Bit(n) == 1 <==> n % 2 == 1
  {
  }

  lemma {:induction false} BitsFit(n: nat, k: nat)
    requires n < TwoTo(k) && k <= POINTER_BITS
    ensures RoundTrips(n, k, Mask(POINTER_BITS - k))
    decreases k
  {
    hide RoundTrips, IsMask, Half;
    if k == 0 {
      NoBits(Mask(POINTER_BITS));
    } else {
      BitsFit(n / 2, k - 1);
      MasksAreMasks(POINTER_BITS - k);
      MaskIsNotEmpty(POINTER_BITS - k);
      OneMoreBit(n, k, Mask(POINTER_BITS - k));
    }
  }

  lemma NoBits(x: bv64)
    ensures RoundTrips(0, 0, x)
  {
  }

  /** Every address below the limit comes back from its bits, which fit under the payload mask. */
  lemma AddressRoundTrip(n: nat)
    requires n < ADDRESS_LIMIT
    ensures Bits(n, POINTER_BITS) <= PAYLOAD_MASK && FromBits(Bits(n, POINTER_BITS), POINTER_BITS) == n
  {
    hide Bits, FromBits;
    BitsFit(n, POINTER_BITS);
  }
}
