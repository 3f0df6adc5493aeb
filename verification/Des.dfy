/**
 The hand-written DES (FIPS 46-3) used for NTLM responses: delta-swap permutations, sixteen Feistel
 rounds and the key schedule. The contents of the combined S-boxes are a parameter.
 */
module Des {
  /** `Spbox[i][v]`: a lookup by table number and six-bit value. */
  type SBoxes = (nat, bv6) -> bv32

  datatype RoundKey = RoundKey(even: bv32, odd: bv32)

  datatype Halves = Halves(left: bv32, right: bv32)
  {
    function Swap(): Halves { Halves(right, left) }
  }

  // ---------- One round ----------

  function Low6(w: bv32): (v: bv6) { (w & 0x3f) as bv6 }

  function RotateRight4(r: bv32): bv32 { (r >> 4) | (r << 28) }

  function Xor(a: bv32, m: bv32): bv32 { a ^ m }
  function Xor4(a: bv32, b: bv32, c: bv32, d: bv32): bv32 { a ^ b ^ c ^ d }

  /** The six bits that are looked up in table `i`. */
  function Index(r: bv32, key: RoundKey, i: nat): (v: bv6)
    requires i < 8
  {
    var work := RotateRight4(r) ^ key.even;
    var work' := r ^ key.odd;
    match i
    case 6 => Low6(work)
    case 4 => Low6(work >> 8)
    case 2 => Low6(work >> 16)
    case 0 => Low6(work >> 24)
    case 7 => Low6(work')
    case 5 => Low6(work' >> 8)
    case 3 => Low6(work' >> 16)
    case _ => Low6(work' >> 24)
  }

  /** What the round macro xors into one half, computed from the other half and the round key. */
  function Mix(sp: SBoxes, r: bv32, key: RoundKey): (m: bv32)
  {
    Xor(Xor4(sp(6, Index(r, key, 6)), sp(4, Index(r, key, 4)), sp(2, Index(r, key, 2)), sp(0, Index(r, key, 0))),
        Xor4(sp(7, Index(r, key, 7)), sp(5, Index(r, key, 5)), sp(3, Index(r, key, 3)), sp(1, Index(r, key, 1))))
  }

  lemma XorTwice(a: bv32, m: bv32)
    ensures Xor(Xor(a, m), m) == a
  {}

  /** `F(left, right, key)` and `F(right, left, key)`. */
  function Round(sp: SBoxes, h: Halves, key: RoundKey, onLeft: bool): (r: Halves)
  {
    if onLeft then Halves(Xor(h.left, Mix(sp, h.right, key)), h.right)
    else Halves(h.left, Xor(h.right, Mix(sp, h.left, key)))
  }

  /** A round on the swapped halves undoes the same round on the other side. */
  lemma RoundUndone(sp: SBoxes, h: Halves, key: RoundKey, onLeft: bool)
    ensures Round(sp, Round(sp, h, key, onLeft).Swap(), key, !onLeft) == h.Swap()
  {
    XorTwice(h.left, Mix(sp, h.right, key));
    XorTwice(h.right, Mix(sp, h.left, key));
    hide Mix, Xor;
  }

  /** The halves after `n` rounds; the first changes the left half, the next the right one, and so on. */
  function Rounds(sp: SBoxes, ks: seq<RoundKey>, h: Halves, n: nat): (r: Halves)
    requires n <= |ks|
  {
    if n == 0 then h else Round(sp, Rounds(sp, ks, h, n - 1), ks[n - 1], n % 2 == 1)
  }

  function Reversed(ks: seq<RoundKey>): (r: seq<RoundKey>)
    ensures |r| == |ks|
    ensures forall i :: 0 <= i < |ks| ==> r[i] == ks[|ks| - 1 - i]
  {
    seq(|ks|, i requires 0 <= i < |ks| => ks[|ks| - 1 - i])
  }

  /** From swapped halves and with the keys reversed, `m` rounds undo the last `m` of an even number of rounds. */
  lemma {:induction false} RoundsCancel(sp: SBoxes, ks: seq<RoundKey>, h: Halves, m: nat)
    requires |ks| % 2 == 0 && m <= |ks|
    ensures Rounds(sp, Reversed(ks), Rounds(sp, ks, h, |ks|).Swap(), m) == Rounds(sp, ks, h, |ks| - m).Swap()
  {
    hide Round;
    if m > 0 {
      RoundsCancel(sp, ks, h, m - 1);
      var n := |ks| - m;
      assert Reversed(ks)[m - 1] == ks[n];
      assert (n + 1) % 2 == 1 <==> !(m % 2 == 1);
      RoundUndone(sp, Rounds(sp, ks, h, n), ks[n], (n + 1) % 2 == 1);
    }
  }

  // ---------- The initial and final permutations ----------

  function Exchange4(a: bv32, b: bv32): (bv32, bv32) { var w := ((a >> 4) ^ b) & 0x0f0f0f0f; (a ^ (w << 4), b ^ w) }
  function Exchange16(a: bv32, b: bv32): (bv32, bv32) { var w := ((a >> 16) ^ b) & 0xffff; (a ^ (w << 16), b ^ w) }
  function Exchange2(a: bv32, b: bv32): (bv32, bv32) { var w := ((a >> 2) ^ b) & 0x33333333; (a ^ (w << 2), b ^ w) }
  function Exchange8(a: bv32, b: bv32): (bv32, bv32) { var w := ((a >> 8) ^ b) & 0xff00ff; (a ^ (w << 8), b ^ w) }
  function Exchange0(a: bv32, b: bv32): (bv32, bv32) { var w := (a ^ b) & 0xaaaaaaaa; (a ^ w, b ^ w) }
  function RotateLeft1(a: bv32): bv32 { (a << 1) | (a >> 31) }
  function RotateRight1(a: bv32): bv32 { (a << 31) | (a >> 1) }

  function Initial(h: Halves): (r: Halves)
  {
    var (l1, r1) := Exchange4(h.left, h.right);
    var (l2, r2) := Exchange16(l1, r1);
    var (r3, l3) := Exchange2(r2, l2);
    var (r4, l4) := Exchange8(r3, l3);
    var (l5, r5) := Exchange0(l4, RotateLeft1(r4));
    Halves(RotateLeft1(l5), r5)
  }

  function Final(h: Halves): (r: Halves)
  {
    var (l1, r1) := Exchange0(h.left, RotateRight1(h.right));
    var (l2, r2) := Exchange8(RotateRight1(l1), r1);
    var (l3, r3) := Exchange2(l2, r2);
    var (r4, l4) := Exchange16(r3, l3);
    var (r5, l5) := Exchange4(r4, l4);
    Halves(l5, r5)
  }

  lemma Involution4(a: bv32, b: bv32)
    ensures var (c, d) := Exchange4(a, b); Exchange4(c, d) == (a, b)
  {}

  lemma Involution16(a: bv32, b: bv32)
    ensures var (c, d) := Exchange16(a, b); Exchange16(c, d) == (a, b)
  {}

  lemma Involution2(a: bv32, b: bv32)
    ensures var (c, d) := Exchange2(a, b); Exchange2(c, d) == (a, b)
  {}

  lemma Involution8(a: bv32, b: bv32)
    ensures var (c, d) := Exchange8(a, b); Exchange8(c, d) == (a, b)
  {}

  lemma Involution0(a: bv32, b: bv32)
    ensures var (c, d) := Exchange0(a, b); Exchange0(d, c) == (b, a)
  {}

  lemma Rotations(a: bv32)
    ensures RotateRight1(RotateLeft1(a)) == a && RotateLeft1(RotateRight1(a)) == a
  {}

  /** The final permutation is the inverse of the initial one with the two halves in each other's role. */
  lemma FinalUndoesInitial(h: Halves)
    ensures Final(Initial(h).Swap()).Swap() == h
  {
    var (l1, r1) := Exchange4(h.left, h.right);
    var (l2, r2) := Exchange16(l1, r1);
    var (r3, l3) := Exchange2(r2, l2);
    var (r4, l4) := Exchange8(r3, l3);
    var (l5, r5) := Exchange0(l4, RotateLeft1(r4));
    Involution4(h.left, h.right); Involution16(l1, r1); Involution2(r2, l2); Involution8(r3, l3);
    Involution0(l4, RotateLeft1(r4));
    Rotations(l5); Rotations(r4);
    hide Exchange0, Exchange2, Exchange4, Exchange8, Exchange16, RotateLeft1, RotateRight1;
  }

  lemma InitialUndoesFinal(h: Halves)
    ensures Initial(Final(h).Swap()).Swap() == h
  {
    var (l1, r1) := Exchange0(h.left, RotateRight1(h.right));
    var (l2, r2) := Exchange8(RotateRight1(l1), r1);
    var (l3, r3) := Exchange2(l2, r2);
    var (r4, l4) := Exchange16(r3, l3);
    Involution0(h.left, RotateRight1(h.right)); Involution8(RotateRight1(l1), r1); Involution2(l2, r2);
    Involution16(r3, l3); Involution4(r4, l4);
    Rotations(l1); Rotations(h.right);
    hide Exchange0, Exchange2, Exchange4, Exchange8, Exchange16, RotateLeft1, RotateRight1;
  }

  // ---------- A block ----------

  function LoadWord(a: bv8, b: bv8, c: bv8, d: bv8): (w: bv32)
  {
    (a as bv32 << 24) | (b as bv32 << 16) | (c as bv32 << 8) | d as bv32
  }

  function Top(w: bv32): bv8 { (w >> 24) as bv8 }
  function Second(w: bv32): bv8 { ((w >> 16) & 0xff) as bv8 }
  function Third(w: bv32): bv8 { ((w >> 8) & 0xff) as bv8 }
  function Fourth(w: bv32): bv8 { (w & 0xff) as bv8 }

  lemma WordRoundTrip(w: bv32, a: bv8, b: bv8, c: bv8, d: bv8)
    ensures LoadWord(Top(w), Second(w), Third(w), Fourth(w)) == w
    ensures var v := LoadWord(a, b, c, d); Top(v) == a && Second(v) == b && Third(v) == c && Fourth(v) == d
  {}

  function Load(block: seq<bv8>): (h: Halves)
    requires |block| == 8
  {
    Halves(LoadWord(block[0], block[1], block[2], block[3]), LoadWord(block[4], block[5], block[6], block[7]))
  }

  function Store(h: Halves): (block: seq<bv8>)
    ensures |block| == 8
  {
    [Top(h.left), Second(h.left), Third(h.left), Fourth(h.left),
     Top(h.right), Second(h.right), Third(h.right), Fourth(h.right)]
  }

  lemma BlockRoundTrip(block: seq<bv8>, h: Halves)
    requires |block| == 8
    ensures Store(Load(block)) == block && Load(Store(h)) == h
  {
    WordRoundTrip(h.left, block[0], block[1], block[2], block[3]);
    WordRoundTrip(h.right, block[4], block[5], block[6], block[7]);
    hide LoadWord, Top, Second, Third, Fourth;
  }

  /** An octet with these bits, from the left. */
  function Pack(a: bool, b: bool, c: bool, d: bool, e: bool, f: bool, g: bool, h: bool): (o: bv8)
  {
    (if a then 0x80 else 0) | (if b then 0x40 else 0) | (if c then 0x20 else 0) | (if d then 0x10 else 0)
    | (if e then 0x08 else 0) | (if f then 0x04 else 0) | (if g then 0x02 else 0) | (if h then 0x01 else 0)
  }

  predicate Has(b: bv8, mask: bv8) { b & mask != 0 }

  /** Bit `mask` of the octets of a block, from the last octet to the first: one row of the FIPS table. */
  function Row(h: Halves, mask: bv8): (c: bv8)
  {
    Pack(Has(Fourth(h.right), mask), Has(Third(h.right), mask), Has(Second(h.right), mask), Has(Top(h.right), mask),
         Has(Fourth(h.left), mask), Has(Third(h.left), mask), Has(Second(h.left), mask), Has(Top(h.left), mask))
  }

  /** The initial permutation of FIPS 46-3: rows 58 50 42 .. 2, 60 52 .. 4, .., 57 49 .. 1, .., 63 55 .. 7. */
  function FipsInitial(h: Halves): (r: Halves)
  {
    Halves(LoadWord(Row(h, 0x40), Row(h, 0x10), Row(h, 0x04), Row(h, 0x01)),
           LoadWord(Row(h, 0x80), Row(h, 0x20), Row(h, 0x08), Row(h, 0x02)))
  }

  lemma RowOf1(h: Halves)
    ensures Top(RotateRight1(Initial(h).left)) == Row(h, 0x40)
  {}

  lemma RowOf2(h: Halves)
    ensures Second(RotateRight1(Initial(h).left)) == Row(h, 0x10)
  {}

  lemma RowOf3(h: Halves)
    ensures Third(RotateRight1(Initial(h).left)) == Row(h, 0x04)
  {}

  lemma RowOf4(h: Halves)
    ensures Fourth(RotateRight1(Initial(h).left)) == Row(h, 0x01)
  {}

  lemma RowOf5(h: Halves)
    ensures Top(RotateRight1(Initial(h).right)) == Row(h, 0x80)
  {}

  lemma RowOf6(h: Halves)
    ensures Second(RotateRight1(Initial(h).right)) == Row(h, 0x20)
  {}

  lemma RowOf7(h: Halves)
    ensures Third(RotateRight1(Initial(h).right)) == Row(h, 0x08)
  {}

  lemma RowOf8(h: Halves)
    ensures Fourth(RotateRight1(Initial(h).right)) == Row(h, 0x02)
  {}

  /** The delta swaps compute the table, each half rotated left by one bit. */
  lemma InitialIsFips(h: Halves)
    ensures Initial(h) == Halves(RotateLeft1(FipsInitial(h).left), RotateLeft1(FipsInitial(h).right))
  {
    hide Initial, Row, RotateLeft1, RotateRight1, LoadWord, Top, Second, Third, Fourth;
    RowOf1(h); RowOf2(h); RowOf3(h); RowOf4(h); RowOf5(h); RowOf6(h); RowOf7(h); RowOf8(h);
    var i := Initial(h);
    WordRoundTrip(RotateRight1(i.left), 0, 0, 0, 0);
    WordRoundTrip(RotateRight1(i.right), 0, 0, 0, 0);
    Rotations(i.left);
    Rotations(i.right);
  }

  /** The block transformation: permute, sixteen rounds, permute back, with the final swap of the halves. */
  function Cipher(sp: SBoxes, ks: seq<RoundKey>, block: seq<bv8>): (r: seq<bv8>)
    requires |ks| == 16 && |block| == 8
    ensures |r| == 8
  {
    Store(Final(Rounds(sp, ks, Initial(Load(block)), 16)).Swap())
  }

  /** Whatever the S-boxes and the round keys, the same transformation with the keys reversed undoes it. */
  lemma ReversedKeysDecrypt(sp: SBoxes, ks: seq<RoundKey>, block: seq<bv8>)
    requires |ks| == 16 && |block| == 8
    ensures Cipher(sp, Reversed(ks), Cipher(sp, ks, block)) == block
  {
    var h := Initial(Load(block));
    var e := Rounds(sp, ks, h, 16);
    BlockRoundTrip(block, Final(e).Swap());
    InitialUndoesFinal(e);
    RoundsCancel(sp, ks, h, 16);
    FinalUndoesInitial(Load(block));
    hide Initial, Final, Load, Store;
    assert Initial(Final(e).Swap()) == e.Swap();
    assert Rounds(sp, ks, h, 0) == h;
  }

  lemma NextRound(sp: SBoxes, ks: seq<RoundKey>, h: Halves, n: nat, left: bv32, right: bv32)
    requires n < |ks| && Halves(left, right) == Rounds(sp, ks, h, n)
    ensures Rounds(sp, ks, h, n + 1)
         == if n % 2 == 0 then Halves(Xor(left, Mix(sp, right, ks[n])), right) else Halves(left, Xor(right, Mix(sp, left, ks[n])))
  {
    hide Mix, Xor;
  }

  /** The sixteen rounds written out: each half keeps its variable. */
  method SixteenRounds(sp: SBoxes, ks: array<RoundKey>, l: bv32, r: bv32) returns (left: bv32, right: bv32)
    requires ks.Length == 16
    ensures Halves(left, right) == Rounds(sp, ks[..], Halves(l, r), 16)
  {
    hide Mix, Xor, Rounds;
    ghost var h := Halves(l, r);
    left, right := l, r;
    NoRounds(sp, ks[..], h);
    NextRound(sp, ks[..], h, 0, left, right);
    left := Xor(left, Mix(sp, right, ks[0]));
    NextRound(sp, ks[..], h, 1, left, right);
    right := Xor(right, Mix(sp, left, ks[1]));
    NextRound(sp, ks[..], h, 2, left, right);
    left := Xor(left, Mix(sp, right, ks[2]));
    NextRound(sp, ks[..], h, 3, left, right);
    right := Xor(right, Mix(sp, left, ks[3]));
    NextRound(sp, ks[..], h, 4, left, right);
    left := Xor(left, Mix(sp, right, ks[4]));
    NextRound(sp, ks[..], h, 5, left, right);
    right := Xor(right, Mix(sp, left, ks[5]));
    NextRound(sp, ks[..], h, 6, left, right);
    left := Xor(left, Mix(sp, right, ks[6]));
    NextRound(sp, ks[..], h, 7, left, right);
    right := Xor(right, Mix(sp, left, ks[7]));
    NextRound(sp, ks[..], h, 8, left, right);
    left := Xor(left, Mix(sp, right, ks[8]));
    NextRound(sp, ks[..], h, 9, left, right);
    right := Xor(right, Mix(sp, left, ks[9]));
    NextRound(sp, ks[..], h, 10, left, right);
    left := Xor(left, Mix(sp, right, ks[10]));
    NextRound(sp, ks[..], h, 11, left, right);
    right := Xor(right, Mix(sp, left, ks[11]));
    NextRound(sp, ks[..], h, 12, left, right);
    left := Xor(left, Mix(sp, right, ks[12]));
    NextRound(sp, ks[..], h, 13, left, right);
    right := Xor(right, Mix(sp, left, ks[13]));
    NextRound(sp, ks[..], h, 14, left, right);
    left := Xor(left, Mix(sp, right, ks[14]));
    NextRound(sp, ks[..], h, 15, left, right);
    right := Xor(right, Mix(sp, left, ks[15]));
  }

  lemma NoRounds(sp: SBoxes, ks: seq<RoundKey>, h: Halves)
    ensures Rounds(sp, ks, h, 0) == h
  {}

  /** Transform a block in place. */
  method Des(sp: SBoxes, ks: array<RoundKey>, block: array<bv8>)
    requires ks.Length == 16 && block.Length == 8
    modifies block
    ensures block[..] == Cipher(sp, ks[..], old(block[..]))
  {
    ghost var h := Load(block[..]);
    var left := LoadWord(block[0], block[1], block[2], block[3]);
    var right := LoadWord(block[4], block[5], block[6], block[7]);
    hide LoadWord, Load, Mix, Xor, Initial, Final, Top, Second, Third, Fourth;
    assert h == Halves(left, right) by { LoadHalves(block[..]); }
    var p := Initial(Halves(left, right));
    left, right := SixteenRounds(sp, ks, p.left, p.right);
    p := Final(Halves(left, right));
    left, right := p.left, p.right;
    block[0], block[1], block[2], block[3] := Top(right), Second(right), Third(right), Fourth(right);
    block[4], block[5], block[6], block[7] := Top(left), Second(left), Third(left), Fourth(left);
    assert block[..] == Store(Halves(right, left));
  }

  lemma LoadHalves(block: seq<bv8>)
    requires |block| == 8
    ensures Load(block) == Halves(LoadWord(block[0], block[1], block[2], block[3]), LoadWord(block[4], block[5], block[6], block[7]))
  {}

  // ---------- The key schedule ----------

  /** A key bit that is not a parity bit, numbered from 1. */
  type keybit = l: nat | 1 <= l <= 64 && l % 8 != 0 witness 1
  type rotation = r: nat | r <= 28
  /** A bit of the two halves, numbered from 1. */
  type halfbit = l: nat | 1 <= l <= 56 witness 1

  /** Permuted choice 1. */
  const PC1: seq<keybit> := [
    57, 49, 41, 33, 25, 17,  9,
     1, 58, 50, 42, 34, 26, 18,
    10,  2, 59, 51, 43, 35, 27,
    19, 11,  3, 60, 52, 44, 36] + [
    63, 55, 47, 39, 31, 23, 15,
     7, 62, 54, 46, 38, 30, 22,
    14,  6, 61, 53, 45, 37, 29,
    21, 13,  5, 28, 20, 12,  4]

  /** Total left rotations before each round. */
  const TOTROT: seq<rotation> := [1, 2, 4, 6, 8, 10, 12, 14, 15, 17, 19, 21, 23, 25, 27, 28]

  /** Permuted choice 2. */
  const PC2: seq<halfbit> := [
    14, 17, 11, 24,  1,  5,
     3, 28, 15,  6, 21, 10,
    23, 19, 12,  4, 26,  8,
    16,  7, 27, 20, 13,  2] + [
    41, 52, 31, 37, 47, 55,
    30, 40, 51, 45, 33, 48,
    44, 49, 39, 56, 34, 53,
    46, 42, 50, 36, 29, 32]

  /** Bit 0 is the left-most of an octet. */
  const BYTEBIT: seq<bv8> := [0x80, 0x40, 0x20, 0x10, 0x08, 0x04, 0x02, 0x01]

  lemma TableLengths()
    ensures |PC1| == 56 && |TOTROT| == 16 && |PC2| == 48 && |BYTEBIT| == 8
  {}

  /** The tables, numbered from 0. */
  function Pc1(j: nat): (l: nat)
    requires j < 56
    ensures l < 64 && l % 8 != 7
  {
    TableLengths();
    PC1[j] as int - 1
  }

  function Pc2(j: nat): (l: nat)
    requires j < 48
    ensures l < 56
  {
    TableLengths();
    PC2[j] as int - 1
  }

  predicate KeyBit(key: seq<bv8>, l: nat)
    requires l < 8 * |key|
  {
    key[l / 8] & BYTEBIT[l % 8] != 0
  }

  /** Bit `j` of the two 28-bit halves after permuted choice 1, rotated left by `rot`. */
  predicate RotatedBit(key: seq<bv8>, rot: rotation, j: nat)
    requires |key| == 8 && j < 56
  {
    TableLengths();
    var l := j + rot;
    KeyBit(key, Pc1(if l < (if j < 28 then 28 else 56) then l else l - 28))
  }

  predicate SubkeyBit(key: seq<bv8>, rot: rotation, j: nat)
    requires |key| == 8 && j < 48
  {
    TableLengths();
    RotatedBit(key, rot, Pc2(j))
  }

  /** The first `n` bits of six-bit group `c` of a round's 48-bit subkey. */
  function Sixbits(key: seq<bv8>, rot: rotation, c: nat, n: nat): (v: bv8)
    requires |key| == 8 && c < 8 && n <= 6
  {
    if n == 0 then 0
    else Sixbits(key, rot, c, n - 1) | (if SubkeyBit(key, rot, 6 * c + n - 1) then BYTEBIT[n - 1] >> 2 else 0)
  }

  /** The subkey of one round, in the interleaved form the rounds use. */
  function Subkey(key: seq<bv8>, rot: rotation): (k: RoundKey)
    requires |key| == 8
  {
    RoundKey(LoadWord(Sixbits(key, rot, 0, 6), Sixbits(key, rot, 2, 6), Sixbits(key, rot, 4, 6), Sixbits(key, rot, 6, 6)),
             LoadWord(Sixbits(key, rot, 1, 6), Sixbits(key, rot, 3, 6), Sixbits(key, rot, 5, 6), Sixbits(key, rot, 7, 6)))
  }

  function Schedule(key: seq<bv8>, decrypt: bool): (ks: seq<RoundKey>)
    requires |key| == 8
    ensures |ks| == 16
  {
    TableLengths();
    seq(16, i requires 0 <= i < 16 => Subkey(key, TOTROT[if decrypt then 15 - i else i]))
  }

  /** The decryption schedule is the encryption schedule backwards. */
  lemma DecryptScheduleReversed(key: seq<bv8>)
    requires |key| == 8
    ensures Schedule(key, true) == Reversed(Schedule(key, false))
  {
    hide Subkey;
  }

  /** For every key and block, decryption undoes encryption. */
  lemma DecryptUndoesEncrypt(sp: SBoxes, key: seq<bv8>, block: seq<bv8>)
    requires |key| == 8 && |block| == 8
    ensures Cipher(sp, Schedule(key, true), Cipher(sp, Schedule(key, false), block)) == block
  {
    hide Cipher, Schedule;
    DecryptScheduleReversed(key);
    ReversedKeysDecrypt(sp, Schedule(key, false), block);
  }

  /** Only the seven high bits of each key octet matter. */
  lemma ParityIgnored(key: seq<bv8>, key': seq<bv8>, decrypt: bool)
    requires |key| == |key'| == 8
    requires forall l :: 0 <= l < 64 && l % 8 != 7 ==> KeyBit(key, l) == KeyBit(key', l)
    ensures Schedule(key, decrypt) == Schedule(key', decrypt)
  {
    TableLengths();
    hide KeyBit, Sixbits, Pc1;
    forall rot: rotation ensures Subkey(key, rot) == Subkey(key', rot) {
      forall j: nat | j < 56 ensures RotatedBit(key, rot, j) == RotatedBit(key', rot, j) {
        var l := j + rot;
        var b := Pc1(if l < (if j < 28 then 28 else 56) then l else l - 28);
        assert b % 8 != 7;
      }
      forall c: nat | c < 8 ensures Sixbits(key, rot, c, 6) == Sixbits(key', rot, c, 6) {
        SameSixbits(key, key', rot, c, 6);
      }
    }
  }

  lemma {:induction false} SameSixbits(key: seq<bv8>, key': seq<bv8>, rot: rotation, c: nat, n: nat)
    requires |key| == |key'| == 8 && c < 8 && n <= 6
    requires forall j: nat :: j < 56 ==> RotatedBit(key, rot, j) == RotatedBit(key', rot, j)
    ensures Sixbits(key, rot, c, n) == Sixbits(key', rot, c, n)
  {
    hide RotatedBit, SubkeyBit, Pc2;
    if n > 0 {
      SubkeyBitIs(key, rot, 6 * c + n - 1);
      SubkeyBitIs(key', rot, 6 * c + n - 1);
      SameSixbits(key, key', rot, c, n - 1);
    }
  }

  /** Permuted choice 1 as an array of key bits. */
  method PickKeyBits(key: seq<bv8>) returns (pc1m: array<bool>)
    requires |key| == 8
    ensures fresh(pc1m) && pc1m.Length == 56
    ensures forall j :: 0 <= j < 56 ==> pc1m[j] == KeyBit(key, Pc1(j))
  {
    hide KeyBit, Pc1;
    pc1m := new bool[56];
    for j := 0 to 56
      invariant forall i :: 0 <= i < j ==> pc1m[i] == KeyBit(key, Pc1(i))
    {
      pc1m[j] := KeyBit(key, Pc1(j));
    }
  }

  /** Fill in the schedule for one direction. */
  method DesKey(k: array<RoundKey>, key: seq<bv8>, decrypt: bool)
    requires k.Length == 16 && |key| == 8
    modifies k
    ensures k[..] == Schedule(key, decrypt)
  {
    hide KeyBit, Subkey, Pc1, Schedule;
    var pc1m := PickKeyBits(key);
    for i := 0 to 16
      invariant forall j :: 0 <= j < 56 ==> pc1m[j] == KeyBit(key, Pc1(j))
      invariant k[..i] == Schedule(key, decrypt)[..i]
    {
      TableLengths();
      ScheduleAt(key, decrypt, i);
      k[i] := MakeSubkey(key, TOTROT[if decrypt then 15 - i else i], pc1m);
    }
  }

  lemma ScheduleAt(key: seq<bv8>, decrypt: bool, i: nat)
    requires |key| == 8 && i < 16 && |TOTROT| == 16
    ensures Schedule(key, decrypt)[i] == Subkey(key, TOTROT[if decrypt then 15 - i else i])
  {
    hide Subkey;
  }

  /** One turn of the schedule's loop. */
  method MakeSubkey(ghost key: seq<bv8>, rot: rotation, pc1m: array<bool>) returns (rk: RoundKey)
    requires |key| == 8 && pc1m.Length == 56
    requires forall j :: 0 <= j < 56 ==> pc1m[j] == KeyBit(key, Pc1(j))
    ensures rk == Subkey(key, rot)
  {
    TableLengths();
    hide KeyBit, Pc1, Pc2;
    var ks := new bv8[8](_ => 0);
    var pcr := new bool[56];
    for j := 0 to 56
      invariant forall c :: 0 <= c < 8 ==> ks[c] == 0
      invariant forall i :: 0 <= i < j ==> pcr[i] == RotatedBit(key, rot, i)
    {
      var l := j + rot;
      pcr[j] := pc1m[if l < (if j < 28 then 28 else 56) then l else l - 28];
    }
    hide RotatedBit, SubkeyBit;
    for j := 0 to 48
      invariant forall i :: 0 <= i < 56 ==> pcr[i] == RotatedBit(key, rot, i)
      invariant forall c :: 0 <= c < j / 6 ==> ks[c] == Sixbits(key, rot, c, 6)
      invariant j < 48 ==> ks[j / 6] == Sixbits(key, rot, j / 6, j % 6)
      invariant forall c :: j / 6 < c < 8 ==> ks[c] == 0
    {
      assert j == 6 * (j / 6) + j % 6;
      SubkeyBitIs(key, rot, j);
      if pcr[Pc2(j)] {
        ks[j / 6] := ks[j / 6] | (BYTEBIT[j % 6] >> 2);
      }
      NextBit(key, rot, j);
    }
    rk := RoundKey(LoadWord(ks[0], ks[2], ks[4], ks[6]), LoadWord(ks[1], ks[3], ks[5], ks[7]));
  }

  lemma SubkeyBitIs(key: seq<bv8>, rot: rotation, j: nat)
    requires |key| == 8 && j < 48
    ensures SubkeyBit(key, rot, j) == RotatedBit(key, rot, Pc2(j))
  {
    TableLengths();
  }

  lemma NextBit(key: seq<bv8>, rot: rotation, j: nat)
    requires |key| == 8 && j < 48
    ensures Sixbits(key, rot, j / 6, j % 6 + 1)
         == Sixbits(key, rot, j / 6, j % 6) | (if SubkeyBit(key, rot, j) then BYTEBIT[j % 6] >> 2 else 0)
    ensures (j + 1) / 6 == (if j % 6 == 5 then j / 6 + 1 else j / 6)
    ensures (j + 1) % 6 == (if j % 6 == 5 then 0 else j % 6 + 1)
    ensures j / 6 < 7 ==> Sixbits(key, rot, j / 6 + 1, 0) == 0
  {
    assert j == 6 * (j / 6) + j % 6;
  }

  // ---------- From 56 key bits to eight octets of odd parity ----------

  function Shl(b: bv8, n: nat): (r: bv8)
  {
    if n == 0 then b else if n == 1 then b << 1 else if n == 2 then b << 2 else if n == 3 then b << 3
    else if n == 4 then b << 4 else if n == 5 then b << 5 else if n == 6 then b << 6 else if n == 7 then b << 7 else 0
  }

  function Shr(b: bv8, n: nat): (r: bv8)
  {
    if n == 0 then b else if n == 1 then b >> 1 else if n == 2 then b >> 2 else if n == 3 then b >> 3
    else if n == 4 then b >> 4 else if n == 5 then b >> 5 else if n == 6 then b >> 6 else if n == 7 then b >> 7 else 0
  }

  predicate Bit(b: bv8, m: nat)
    requires m < 8
  {
    b & BYTEBIT[m] != 0
  }

  lemma BitOfShl(b: bv8, n: nat, m: nat)
    requires m < 8 && n <= 8
    ensures Bit(Shl(b, n), m) <==> m + n < 8 && Bit(b, m + n)
  {
    if n == 0 {} else if n == 1 {} else if n == 2 {} else if n == 3 {} else if n == 4 {}
    else if n == 5 {} else if n == 6 {} else if n == 7 {} else {}
  }

  lemma BitOfShr(b: bv8, n: nat, m: nat)
    requires m < 8 && n < 8
    ensures Bit(Shr(b, n), m) <==> m >= n && Bit(b, m - n)
  {
    if n == 0 {} else if n == 1 {} else if n == 2 {} else if n == 3 {} else if n == 4 {}
    else if n == 5 {} else if n == 6 {} else {}
  }

  lemma BitOfOr(a: bv8, b: bv8, m: nat)
    requires m < 8
    ensures Bit(a | b, m) <==> Bit(a, m) || Bit(b, m)
  {
    OrMask(a, b, BYTEBIT[m]);
  }

  lemma OrMask(a: bv8, b: bv8, mask: bv8)
    ensures (a | b) & mask != 0 <==> a & mask != 0 || b & mask != 0
  {}

  lemma BitFlipped(a: bv8, m: nat)
    requires m < 8
    ensures Bit(a ^ 1, m) <==> if m == 7 then !Bit(a, m) else Bit(a, m)
  {
    FlipMask(a, BYTEBIT[m]);
  }

  lemma FlipMask(a: bv8, mask: bv8)
    ensures mask & 1 == 0 ==> (a ^ 1) & mask == a & mask
    ensures mask == 1 ==> ((a ^ 1) & mask == 0 <==> a & mask != 0)
  {}

  /** Whether an odd number of the first `n` bits of `b` are set. */
  predicate OddBits(b: bv8, n: nat)
    requires n <= 8
  {
    n > 0 && (OddBits(b, n - 1) != Bit(b, n - 1))
  }

  lemma {:induction false} FlipLastBit(b: bv8, n: nat)
    requires n <= 8
    ensures OddBits(b ^ 1, n) == if n == 8 then !OddBits(b, n) else OddBits(b, n)
  {
    hide Bit;
    if n > 0 {
      FlipLastBit(b, n - 1);
      BitFlipped(b, n - 1);
    }
  }

  /** The seven bits of group `i` stand at the top of an octet. */
  predicate HoldsGroup(b: bv8, key56: seq<bv8>, i: nat)
    requires |key56| == 7 && i < 8
  {
    forall m :: 0 <= m < 7 ==> (Bit(b, m) <==> KeyBit(key56, 7 * i + m))
  }

  function SpreadByte(key56: seq<bv8>, i: nat): (b: bv8)
    requires |key56| == 7 && i < 8
  {
    if i == 0 then key56[0] else if i < 7 then Shl(key56[i - 1], 8 - i) | Shr(key56[i], i) else Shl(key56[6], 1)
  }

  lemma GroupBit(key56: seq<bv8>, i: nat, m: nat)
    requires |key56| == 7 && i < 8 && m < 7
    ensures Bit(SpreadByte(key56, i), m) <==> KeyBit(key56, 7 * i + m)
  {
    hide Shl, Shr, Bit;
    KeyBitIs(key56, i, m);
    if 0 < i < 7 {
      BitOfOr(Shl(key56[i - 1], 8 - i), Shr(key56[i], i), m);
      BitOfShl(key56[i - 1], 8 - i, m);
      BitOfShr(key56[i], i, m);
    } else if i == 7 {
      BitOfShl(key56[6], 1, m);
    }
  }

  lemma KeyBitIs(key56: seq<bv8>, i: nat, m: nat)
    requires |key56| == 7 && i < 8 && m < 7
    ensures KeyBit(key56, 7 * i + m) == if m < i then Bit(key56[i - 1], 8 - i + m) else Bit(key56[i], m - i)
  {
    var l := 7 * i + m;
    if m < i {
      assert l / 8 == i - 1 && l % 8 == 8 - i + m;
    } else {
      assert l / 8 == i && l % 8 == m - i;
    }
  }

  lemma GroupByte(key56: seq<bv8>, i: nat)
    requires |key56| == 7 && i < 8
    ensures HoldsGroup(SpreadByte(key56, i), key56, i)
  {
    hide SpreadByte, Bit, KeyBit;
    forall m | 0 <= m < 7 ensures Bit(SpreadByte(key56, i), m) <==> KeyBit(key56, 7 * i + m) {
      GroupBit(key56, i, m);
    }
  }

  /** The last bit belongs to no group. */
  lemma HoldsFlipped(b: bv8, key56: seq<bv8>, i: nat)
    requires |key56| == 7 && i < 8 && HoldsGroup(b, key56, i)
    ensures HoldsGroup(b ^ 1, key56, i)
  {
    hide Bit, KeyBit;
    var odd := b ^ 1;
    forall m | 0 <= m < 7 ensures Bit(odd, m) <==> KeyBit(key56, 7 * i + m) {
      assert Bit(b, m) <==> KeyBit(key56, 7 * i + m);
      BitFlipped(b, m);
    }
  }

  /** Spread 56 key bits over eight octets, each made odd, and compute the encryption schedule. */
  method SetupSchedule(key56: seq<bv8>, ks: array<RoundKey>) returns (key: array<bv8>)
    requires |key56| == 7 && ks.Length == 16
    modifies ks
    ensures fresh(key) && key.Length == 8
    ensures forall i :: 0 <= i < 8 ==> HoldsGroup(key[i], key56, i) && OddBits(key[i], 8)
    ensures ks[..] == Schedule(key[..], false)
  {
    hide SpreadByte, HoldsGroup, OddBits, Schedule;
    key := new bv8[8];
    for i := 0 to 8
      invariant forall k :: 0 <= k < i ==> HoldsGroup(key[k], key56, k) && OddBits(key[k], 8)
    {
      var b := SpreadOctet(key56, i);
      GroupByte(key56, i);
      HoldsFlipped(b, key56, i);
      var c := CountBits(b);
      FlipLastBit(b, 8);
      if c % 2 == 0 {
        b := b ^ 1;
      }
      key[i] := b;
    }
    DesKey(ks, key[..], false);
  }

  /** The macros that pick the high and low bits of group `i`. */
  method SpreadOctet(key56: seq<bv8>, i: nat) returns (b: bv8)
    requires |key56| == 7 && i < 8
    ensures b == SpreadByte(key56, i)
  {
    hide Shl, Shr;
    var s := 7 * i;
    assert s / 8 == (if i == 0 then 0 else i - 1) && s % 8 == (if i == 0 then 0 else 8 - i);
    b := Shl(key56[s / 8], s % 8);
    if i != 0 && i < 7 {
      b := b | Shr(key56[s / 8 + 1], 8 - s % 8);
    }
    ShlZero(key56[0]);
  }

  lemma ShlZero(b: bv8)
    ensures Shl(b, 0) == b
  {}

  /** The parity loop: its order of the bits does not matter for the count. */
  method CountBits(b: bv8) returns (c: nat)
    ensures c % 2 == 1 <==> OddBits(b, 8)
  {
    hide Bit;
    c := 0;
    for bit := 0 to 8
      invariant c % 2 == 1 <==> OddBits(b, bit)
    {
      if Bit(b, bit) {
        c := c + 1;
      }
    }
  }

  /** The schedule is the one for any octets that hold the same 56 bits: parity does not enter. */
  lemma ScheduleOf56Bits(key56: seq<bv8>, key: seq<bv8>, key': seq<bv8>)
    requires |key56| == 7 && |key| == |key'| == 8
    requires forall i :: 0 <= i < 8 ==> HoldsGroup(key[i], key56, i) && HoldsGroup(key'[i], key56, i)
    ensures Schedule(key, false) == Schedule(key', false)
  {
    hide Schedule;
    forall l | 0 <= l < 64 && l % 8 != 7 ensures KeyBit(key, l) == KeyBit(key', l) {
      var i, m := l / 8, l % 8;
      assert HoldsGroup(key[i], key56, i) && HoldsGroup(key'[i], key56, i);
      assert Bit(key[i], m) == KeyBit(key56, 7 * i + m) == Bit(key'[i], m);
    }
    ParityIgnored(key, key', false);
  }
}
