/**
 The block transformation against FIPS 46-3: selection table, rounds with exchanged halves, permuted choices and single
 shifts, as the standard gives them. What the S-boxes followed by the permutation P give is a parameter here, too.
 */
module DesFips {
  import opened Des

  // ---------- The rounds ----------

  /** Bit `p` of a half; FIPS 46-3 numbers bits from 1 at the left. */
  function BitAt(r: bv32, p: nat): (b: bv6)
    requires 1 <= p <= 32
  {
    ((r >> (32 - p)) & 1) as bv6
  }

  function SixOf(r: bv32, p: (nat, nat, nat, nat, nat, nat)): (v: bv6)
    requires 1 <= p.0 <= 32 && 1 <= p.1 <= 32 && 1 <= p.2 <= 32 && 1 <= p.3 <= 32 && 1 <= p.4 <= 32 && 1 <= p.5 <= 32
  {
    (BitAt(r, p.0) << 5) | (BitAt(r, p.1) << 4) | (BitAt(r, p.2) << 3) | (BitAt(r, p.3) << 2) | (BitAt(r, p.4) << 1) | BitAt(r, p.5)
  }

  /** A row of the E bit-selection table. */
  function Expand(r: bv32, i: nat): (v: bv6)
    requires i < 8
  {
    match i
    case 0 => SixOf(r, (32, 1, 2, 3, 4, 5))
    case 1 => SixOf(r, (4, 5, 6, 7, 8, 9))
    case 2 => SixOf(r, (8, 9, 10, 11, 12, 13))
    case 3 => SixOf(r, (12, 13, 14, 15, 16, 17))
    case 4 => SixOf(r, (16, 17, 18, 19, 20, 21))
    case 5 => SixOf(r, (20, 21, 22, 23, 24, 25))
    case 6 => SixOf(r, (24, 25, 26, 27, 28, 29))
    case _ => SixOf(r, (28, 29, 30, 31, 32, 1))
  }

  /** The `i`th six bits of a round key, which are the low bits of one octet of one of its two words. */
  function KeyGroup(key: RoundKey, i: nat): (v: bv6)
    requires i < 8
  {
    match i
    case 0 => ((key.even >> 24) & 0x3f) as bv6
    case 1 => ((key.odd >> 24) & 0x3f) as bv6
    case 2 => ((key.even >> 16) & 0x3f) as bv6
    case 3 => ((key.odd >> 16) & 0x3f) as bv6
    case 4 => ((key.even >> 8) & 0x3f) as bv6
    case 5 => ((key.odd >> 8) & 0x3f) as bv6
    case 6 => (key.even & 0x3f) as bv6
    case _ => (key.odd & 0x3f) as bv6
  }

  function Groups(key: RoundKey): nat -> bv6 { (i: nat) => if i < 8 then KeyGroup(key, i) else 0 }

  /** The six bits S-box `i` is given. */
  function Selected(r: bv32, groups: nat -> bv6, i: nat): (v: bv6)
    requires i < 8
  {
    Expand(r, i) ^ groups(i)
  }

  lemma Select0(r: bv32, key: RoundKey)
    ensures Index(RotateLeft1(r), key, 0) == Selected(r, Groups(key), 0)
  {}

  lemma Select1(r: bv32, key: RoundKey)
    ensures Index(RotateLeft1(r), key, 1) == Selected(r, Groups(key), 1)
  {}

  lemma Select2(r: bv32, key: RoundKey)
    ensures Index(RotateLeft1(r), key, 2) == Selected(r, Groups(key), 2)
  {}

  lemma Select3(r: bv32, key: RoundKey)
    ensures Index(RotateLeft1(r), key, 3) == Selected(r, Groups(key), 3)
  {}

  lemma Select4(r: bv32, key: RoundKey)
    ensures Index(RotateLeft1(r), key, 4) == Selected(r, Groups(key), 4)
  {}

  lemma Select5(r: bv32, key: RoundKey)
    ensures Index(RotateLeft1(r), key, 5) == Selected(r, Groups(key), 5)
  {}

  lemma Select6(r: bv32, key: RoundKey)
    ensures Index(RotateLeft1(r), key, 6) == Selected(r, Groups(key), 6)
  {}

  lemma Select7(r: bv32, key: RoundKey)
    ensures Index(RotateLeft1(r), key, 7) == Selected(r, Groups(key), 7)
  {}

  /** Addition modulo two, bit by bit. */
  function Plus(a: bv32, b: bv32): bv32 { a ^ b }

  function Sum4(a: bv32, b: bv32, c: bv32, d: bv32): bv32 { a ^ b ^ c ^ d }

  /** The cipher function: the sum of what the eight S-boxes and the permutation P give for the eight groups. */
  function F(p: SBoxes, r: bv32, groups: nat -> bv6): (m: bv32)
  {
    Plus(Sum4(p(0, Selected(r, groups, 0)), p(2, Selected(r, groups, 2)), p(4, Selected(r, groups, 4)), p(6, Selected(r, groups, 6))),
         Sum4(p(1, Selected(r, groups, 1)), p(3, Selected(r, groups, 3)), p(5, Selected(r, groups, 5)), p(7, Selected(r, groups, 7))))
  }

  lemma OrderOfBoxes(a: bv32, b: bv32, c: bv32, d: bv32)
    ensures Xor4(d, c, b, a) == Sum4(a, b, c, d) && Xor(a, b) == Plus(a, b)
  {}

  /** On a half kept rotated by one bit, the round macro looks up the selected bits xored with the groups of the round key. */
  lemma MixIsFips(sp: SBoxes, r: bv32, key: RoundKey)
    ensures Mix(sp, RotateLeft1(r), key) == F(sp, r, Groups(key))
  {
    var x := RotateLeft1(r);
    Select0(r, key); Select1(r, key); Select2(r, key); Select3(r, key);
    Select4(r, key); Select5(r, key); Select6(r, key); Select7(r, key);
    hide Xor, Plus, Xor4, Sum4, Index, Selected, RotateLeft1, Groups;
    var (a, b, c, d) := (sp(0, Selected(r, Groups(key), 0)), sp(1, Selected(r, Groups(key), 1)),
                         sp(2, Selected(r, Groups(key), 2)), sp(3, Selected(r, Groups(key), 3)));
    var (e, f, g, h) := (sp(4, Selected(r, Groups(key), 4)), sp(5, Selected(r, Groups(key), 5)),
                         sp(6, Selected(r, Groups(key), 6)), sp(7, Selected(r, Groups(key), 7)));
    OrderOfBoxes(a, c, e, g);
    OrderOfBoxes(b, d, f, h);
    OrderOfBoxes(Sum4(a, c, e, g), Sum4(b, d, f, h), 0, 0);
  }

  /** The combined S-boxes the rounds look up: what S-box and permutation P give, rotated by one bit like the halves. */
  function Rotated(p: SBoxes): SBoxes { (i: nat, v) => RotateLeft1(p(i, v)) }

  lemma RotatePlus(a: bv32, b: bv32)
    ensures RotateLeft1(Plus(a, b)) == Plus(RotateLeft1(a), RotateLeft1(b))
  {}

  lemma RotateSum4(a: bv32, b: bv32, c: bv32, d: bv32)
    ensures RotateLeft1(Sum4(a, b, c, d)) == Sum4(RotateLeft1(a), RotateLeft1(b), RotateLeft1(c), RotateLeft1(d))
  {}

  lemma RotatedF(p: SBoxes, r: bv32, groups: nat -> bv6)
    ensures F(Rotated(p), r, groups) == RotateLeft1(F(p, r, groups))
  {
    hide Sum4, Plus, Selected, RotateLeft1;
    var (a, b, c, d) := (p(0, Selected(r, groups, 0)), p(1, Selected(r, groups, 1)), p(2, Selected(r, groups, 2)), p(3, Selected(r, groups, 3)));
    var (e, f, g, h) := (p(4, Selected(r, groups, 4)), p(5, Selected(r, groups, 5)), p(6, Selected(r, groups, 6)), p(7, Selected(r, groups, 7)));
    RotateSum4(a, c, e, g);
    RotateSum4(b, d, f, h);
    RotatePlus(Sum4(a, c, e, g), Sum4(b, d, f, h));
  }

  /** The first `n` rounds: `L' = R` and `R' = L + f(R, K)`. `groups(i)` are the eight groups of `K(i + 1)`. */
  function FipsRounds(p: SBoxes, groups: nat -> nat -> bv6, h: Halves, n: nat): (r: Halves)
  {
    if n == 0 then h
    else
      var (l, r) := (FipsRounds(p, groups, h, n - 1).left, FipsRounds(p, groups, h, n - 1).right);
      Halves(r, Plus(l, F(p, r, groups(n - 1))))
  }

  function RotateBoth(h: Halves): Halves { Halves(RotateLeft1(h.left), RotateLeft1(h.right)) }

  lemma RotateXor(a: bv32, b: bv32)
    ensures Xor(RotateLeft1(a), RotateLeft1(b)) == RotateLeft1(Plus(a, b))
  {}

  /** The rounds in place are the rounds with exchanged halves: after an odd number of them the halves are in each other's variable. */
  lemma {:induction false} RoundsAreFips(p: SBoxes, ks: seq<RoundKey>, groups: nat -> nat -> bv6, h: Halves, n: nat)
    requires n <= |ks| && forall i: nat, r :: i < n ==> F(p, r, groups(i)) == F(p, r, Groups(ks[i]))
    ensures var e := RotateBoth(FipsRounds(p, groups, h, n));
      Rounds(Rotated(p), ks, RotateBoth(h), n) == if n % 2 == 0 then e else e.Swap()
  {
    hide F, Groups, Rotated, Mix, Xor, Plus, RotateLeft1;
    if n > 0 {
      RoundsAreFips(p, ks, groups, h, n - 1);
      var (l, r) := (FipsRounds(p, groups, h, n - 1).left, FipsRounds(p, groups, h, n - 1).right);
      assert F(p, r, groups(n - 1)) == F(p, r, Groups(ks[n - 1]));
      MixIsFips(Rotated(p), r, ks[n - 1]);
      RotatedF(p, r, Groups(ks[n - 1]));
      RotateXor(l, F(p, r, groups(n - 1)));
    }
  }

  lemma RotateBothBack(h: Halves, h': Halves)
    requires RotateBoth(h) == RotateBoth(h')
    ensures h == h'
  {
    Rotations(h.left); Rotations(h.right); Rotations(h'.left); Rotations(h'.right);
    hide RotateLeft1, RotateRight1;
  }

  /** Permuted initially, the output is what the sixteen rounds make of the permuted input, with the halves exchanged. */
  lemma CipherIsFips(p: SBoxes, ks: seq<RoundKey>, groups: nat -> nat -> bv6, block: seq<bv8>)
    requires |ks| == 16 && |block| == 8 && forall i: nat, r :: i < 16 ==> F(p, r, groups(i)) == F(p, r, Groups(ks[i]))
    ensures FipsInitial(Load(Cipher(Rotated(p), ks, block))) == FipsRounds(p, groups, FipsInitial(Load(block)), 16).Swap()
  {
    hide F, Groups, Rotated, Initial, Final, Load, Store, RotateLeft1, FipsInitial, FipsRounds, Rounds;
    var h := Load(block);
    var e := FipsRounds(p, groups, FipsInitial(h), 16);
    InitialIsFips(h);
    RoundsAreFips(p, ks, groups, FipsInitial(h), 16);
    var out := Final(RotateBoth(e)).Swap();
    BlockRoundTrip(block, out);
    InitialUndoesFinal(RotateBoth(e));
    InitialIsFips(out);
    RotateBothBack(FipsInitial(out), e.Swap());
  }

  // ---------- The key schedule ----------

  /** Bit `q` of an octet, numbered from 1 at the left. */
  predicate OctetBit(b: bv8, q: nat)
    requires 1 <= q <= 8
  {
    match q
    case 1 => b & 128 != 0
    case 2 => b & 64 != 0
    case 3 => b & 32 != 0
    case 4 => b & 16 != 0
    case 5 => b & 8 != 0
    case 6 => b & 4 != 0
    case 7 => b & 2 != 0
    case _ => b & 1 != 0
  }

  /** Bit `p` of a key or a block, numbered from 1. */
  predicate BitOf(key: seq<bv8>, p: nat)
    requires 1 <= p <= 8 * |key|
  {
    OctetBit(key[(p - 1) / 8], (p - 1) % 8 + 1)
  }

  /** Permuted choice 1: C takes the columns upwards from the left, D from the right, and C ends in the lower half of a column. */
  function Choice1(j: nat): (p: nat)
    requires 1 <= j <= 56
    ensures 1 <= p <= 64
  {
    if j <= 28 then 57 - 8 * ((j - 1) % 8) + (j - 1) / 8
    else if j <= 52 then 63 - 8 * ((j - 29) % 8) - (j - 29) / 8
    else 28 - 8 * (j - 53)
  }

  /** The number of left shifts before a round. */
  function Shifts(round: nat): (n: nat) { if round in {1, 2, 9, 16} then 1 else 2 }

  /** Where bit `j` of C and D comes from in `n` left shifts. */
  function Source(j: nat, n: nat): (k: nat)
    requires 1 <= j <= 56
    ensures 1 <= k <= 56
    decreases n
  {
    if n == 0 then j
    else Source(if j == 28 then 1 else if j == 56 then 29 else j + 1, n - 1)
  }

  /** Bit `j` of C and D in a round. */
  predicate Cd(key: seq<bv8>, round: nat, j: nat)
    requires |key| == 8 && 1 <= j <= 56
  {
    if round == 0 then BitOf(key, Choice1(j)) else Cd(key, round - 1, Source(j, Shifts(round)))
  }

  /** The bits of C and D that permuted choice 2 takes for group `i`. */
  function Choice2(i: nat): (p: (nat, nat, nat, nat, nat, nat))
    requires i < 8
    ensures 1 <= p.0 <= 56 && 1 <= p.1 <= 56 && 1 <= p.2 <= 56 && 1 <= p.3 <= 56 && 1 <= p.4 <= 56 && 1 <= p.5 <= 56
  {
    match i
    case 0 => (14, 17, 11, 24, 1, 5)
    case 1 => (3, 28, 15, 6, 21, 10)
    case 2 => (23, 19, 12, 4, 26, 8)
    case 3 => (16, 7, 27, 20, 13, 2)
    case 4 => (41, 52, 31, 37, 47, 55)
    case 5 => (30, 40, 51, 45, 33, 48)
    case 6 => (44, 49, 39, 56, 34, 53)
    case _ => (46, 42, 50, 36, 29, 32)
  }

  function Six(a: bool, b: bool, c: bool, d: bool, e: bool, f: bool): (v: bv6)
  {
    (if a then 32 else 0) | (if b then 16 else 0) | (if c then 8 else 0) | (if d then 4 else 0) | (if e then 2 else 0) | (if f then 1 else 0)
  }

  /** Group `i` of the key of a round. */
  function FipsGroup(key: seq<bv8>, round: nat, i: nat): (v: bv6)
    requires |key| == 8 && i < 8
  {
    var p := Choice2(i);
    Six(Cd(key, round, p.0), Cd(key, round, p.1), Cd(key, round, p.2), Cd(key, round, p.3), Cd(key, round, p.4), Cd(key, round, p.5))
  }

  lemma BitIs(key: seq<bv8>, l: nat)
    requires l < 8 * |key|
    ensures KeyBit(key, l) <==> BitOf(key, l + 1)
  {
    var q := l % 8;
    if q == 0 {} else if q == 1 {} else if q == 2 {} else if q == 3 {} else if q == 4 {} else if q == 5 {} else if q == 6 {} else {}
  }

  lemma Choice1IsC(j: nat)
    requires 1 <= j <= 28
    ensures |PC1| == 56 && PC1[j - 1] == Choice1(j)
  {
    TableLengths();
    if j <= 8 {} else if j <= 16 {} else if j <= 24 {} else {}
  }

  lemma Choice1IsD(j: nat)
    requires 29 <= j <= 44
    ensures |PC1| == 56 && PC1[j - 1] == Choice1(j)
  {
    TableLengths();
    if j <= 36 {} else {}
  }

  lemma Choice1IsD'(j: nat)
    requires 45 <= j <= 56
    ensures |PC1| == 56 && PC1[j - 1] == Choice1(j)
  {
    TableLengths();
    if j <= 52 {} else {}
  }

  lemma Choice1Is(j: nat)
    requires 1 <= j <= 56
    ensures Pc1(j - 1) + 1 == Choice1(j)
  {
    hide Choice1;
    if j <= 28 { Choice1IsC(j); } else if j <= 44 { Choice1IsD(j); } else { Choice1IsD'(j); }
  }

  /** The bit that `n` shifts put in place `j`, numbered from 1. */
  function Wrapped(j: nat, n: nat): (k: nat)
    requires 1 <= j <= 56 && n <= 28
    ensures 1 <= k <= 56
  {
    if j + n <= (if j <= 28 then 28 else 56) then j + n else j + n - 28
  }

  lemma SourceIs(j: nat, n: nat)
    requires 1 <= j <= 56 && 1 <= n <= 2
    ensures Source(j, n) == Wrapped(j, n)
  {
    assert Source(j, 1) == Wrapped(j, 1);
    if n == 2 {
      assert Source(j, 2) == Source(Wrapped(j, 1), 1) == Wrapped(Wrapped(j, 1), 1);
    }
  }

  /** The shifts of the first rounds together. */
  function Total(round: nat): (n: nat) { if round == 0 then 0 else Total(round - 1) + Shifts(round) }

  /** The table of total rotations holds the running sums of the shifts. */
  lemma TotalIs(round: nat)
    requires 1 <= round <= 16
    ensures |TOTROT| == 16 && Total(round) == TOTROT[round - 1]
  {
    TableLengths();
    assert Total(4) == 6;
    assert Total(8) == 14;
    assert Total(12) == 21;
    assert Total(16) == 28;
  }

  lemma {:induction false} CdIs(key: seq<bv8>, round: nat, j: nat)
    requires |key| == 8 && round <= 16 && 1 <= j <= 56
    ensures Total(round) <= 28 && Cd(key, round, j) == BitOf(key, Choice1(Wrapped(j, Total(round))))
  {
    hide BitOf, Choice1;
    if round > 0 {
      TotalIs(round);
      var k := Source(j, Shifts(round));
      SourceIs(j, Shifts(round));
      CdIs(key, round - 1, k);
    }
  }

  lemma RotatedIs(key: seq<bv8>, round: nat, j: nat)
    requires |key| == 8 && 1 <= round <= 16 && 1 <= j <= 56
    ensures |TOTROT| == 16 && RotatedBit(key, TOTROT[round - 1], j - 1) == Cd(key, round, j)
  {
    hide KeyBit, BitOf, Pc1, Choice1, Cd, Total;
    TotalIs(round);
    CdIs(key, round, j);
    var k := Wrapped(j, Total(round));
    Choice1Is(k);
    BitIs(key, Pc1(k - 1));
  }

  lemma Choice2Is(i: nat)
    requires i < 8
    ensures (Pc2(6 * i) + 1, Pc2(6 * i + 1) + 1, Pc2(6 * i + 2) + 1, Pc2(6 * i + 3) + 1, Pc2(6 * i + 4) + 1, Pc2(6 * i + 5) + 1) == Choice2(i)
  {
    TableLengths();
    match i
    case 0 =>
    case 1 =>
    case 2 =>
    case 3 =>
    case 4 =>
    case 5 =>
    case 6 =>
    case _ => assert i == 7;
  }

  lemma GroupIs(key: seq<bv8>, rot: rotation, i: nat)
    requires |key| == 8 && i < 8
    ensures KeyGroup(Subkey(key, rot), i) == (Sixbits(key, rot, i, 6) & 0x3f) as bv6
  {
    hide Sixbits;
  }

  lemma SixbitsIs(key: seq<bv8>, rot: rotation, i: nat)
    requires |key| == 8 && i < 8
    ensures (Sixbits(key, rot, i, 6) & 0x3f) as bv6
         == Six(SubkeyBit(key, rot, 6 * i), SubkeyBit(key, rot, 6 * i + 1), SubkeyBit(key, rot, 6 * i + 2),
                SubkeyBit(key, rot, 6 * i + 3), SubkeyBit(key, rot, 6 * i + 4), SubkeyBit(key, rot, 6 * i + 5))
  {
    TableLengths();
    hide SubkeyBit;
    assert Sixbits(key, rot, i, 0) == 0;
    assert Sixbits(key, rot, i, 1) == if SubkeyBit(key, rot, 6 * i) then 0x20 else 0;
    assert Sixbits(key, rot, i, 2) == Sixbits(key, rot, i, 1) | (if SubkeyBit(key, rot, 6 * i + 1) then 0x10 else 0);
    assert Sixbits(key, rot, i, 3) == Sixbits(key, rot, i, 2) | (if SubkeyBit(key, rot, 6 * i + 2) then 8 else 0);
    assert Sixbits(key, rot, i, 4) == Sixbits(key, rot, i, 3) | (if SubkeyBit(key, rot, 6 * i + 3) then 4 else 0);
    assert Sixbits(key, rot, i, 5) == Sixbits(key, rot, i, 4) | (if SubkeyBit(key, rot, 6 * i + 4) then 2 else 0);
    assert Sixbits(key, rot, i, 6) == Sixbits(key, rot, i, 5) | (if SubkeyBit(key, rot, 6 * i + 5) then 1 else 0);
  }

  /** Each round key holds the bits of C and D that the standard selects for the round. */
  lemma SubkeyIsFips(key: seq<bv8>, round: nat, i: nat)
    requires |key| == 8 && 1 <= round <= 16 && i < 8
    ensures KeyGroup(Schedule(key, false)[round - 1], i) == FipsGroup(key, round, i)
  {
    TableLengths();
    ScheduleAt(key, false, round - 1);
    var rot := TOTROT[round - 1];
    GroupIs(key, rot, i);
    SixbitsIs(key, rot, i);
    Choice2Is(i);
    hide Schedule, KeyGroup, Subkey, Sixbits, RotatedBit, Cd, Six, Choice2, Pc2;
    var p := Choice2(i);
    RotatedIs(key, round, p.0); RotatedIs(key, round, p.1); RotatedIs(key, round, p.2);
    RotatedIs(key, round, p.3); RotatedIs(key, round, p.4); RotatedIs(key, round, p.5);
  }

  // ---------- The initial permutation, bit by bit ----------

  lemma WordBit1(w: bv32, q: nat)
    requires 1 <= q <= 8
    ensures BitAt(w, q) == 1 <==> OctetBit(Top(w), q)
  {
    match q
    case 1 =>
    case 2 =>
    case 3 =>
    case 4 =>
    case 5 =>
    case 6 =>
    case 7 =>
    case _ => assert q == 8;
  }

  lemma WordBit2(w: bv32, q: nat)
    requires 1 <= q <= 8
    ensures BitAt(w, q + 8) == 1 <==> OctetBit(Second(w), q)
  {
    match q
    case 1 =>
    case 2 =>
    case 3 =>
    case 4 =>
    case 5 =>
    case 6 =>
    case 7 =>
    case _ => assert q == 8;
  }

  lemma WordBit3(w: bv32, q: nat)
    requires 1 <= q <= 8
    ensures BitAt(w, q + 16) == 1 <==> OctetBit(Third(w), q)
  {
    match q
    case 1 =>
    case 2 =>
    case 3 =>
    case 4 =>
    case 5 =>
    case 6 =>
    case 7 =>
    case _ => assert q == 8;
  }

  lemma WordBit4(w: bv32, q: nat)
    requires 1 <= q <= 8
    ensures BitAt(w, q + 24) == 1 <==> OctetBit(Fourth(w), q)
  {
    match q
    case 1 =>
    case 2 =>
    case 3 =>
    case 4 =>
    case 5 =>
    case 6 =>
    case 7 =>
    case _ => assert q == 8;
  }

  lemma WordBit(o: (bv8, bv8, bv8, bv8), q: nat)
    requires 1 <= q <= 8
    ensures var w := LoadWord(o.0, o.1, o.2, o.3);
      (BitAt(w, q) == 1 <==> OctetBit(o.0, q)) && (BitAt(w, q + 8) == 1 <==> OctetBit(o.1, q))
      && (BitAt(w, q + 16) == 1 <==> OctetBit(o.2, q)) && (BitAt(w, q + 24) == 1 <==> OctetBit(o.3, q))
  {
    WordRoundTrip(0, o.0, o.1, o.2, o.3);
    hide LoadWord, Top, Second, Third, Fourth, OctetBit, BitAt;
    var w := LoadWord(o.0, o.1, o.2, o.3);
    WordBit1(w, q);
    WordBit2(w, q);
    WordBit3(w, q);
    WordBit4(w, q);
  }

  lemma PackBit(b: (bool, bool, bool, bool, bool, bool, bool, bool), q: nat)
    requires 1 <= q <= 8
    ensures OctetBit(Pack(b.0, b.1, b.2, b.3, b.4, b.5, b.6, b.7), q)
       <==> if q == 1 then b.0 else if q == 2 then b.1 else if q == 3 then b.2 else if q == 4 then b.3
            else if q == 5 then b.4 else if q == 6 then b.5 else if q == 7 then b.6 else b.7
  {
    match q
    case 1 =>
    case 2 =>
    case 3 =>
    case 4 =>
    case 5 =>
    case 6 =>
    case 7 =>
    case _ => assert q == 8;
  }

  /** Bit `q` of a row comes from octet `9 - q` of the block. */
  lemma RowBit(block: seq<bv8>, mask: bv8, q: nat)
    requires |block| == 8 && 1 <= q <= 8
    ensures OctetBit(Row(Load(block), mask), q) <==> Has(block[8 - q], mask)
  {
    WordRoundTrip(0, block[0], block[1], block[2], block[3]);
    WordRoundTrip(0, block[4], block[5], block[6], block[7]);
    hide LoadWord, Top, Second, Third, Fourth, OctetBit, Pack, Has;
    PackBit((Has(block[7], mask), Has(block[6], mask), Has(block[5], mask), Has(block[4], mask),
             Has(block[3], mask), Has(block[2], mask), Has(block[1], mask), Has(block[0], mask)), q);
  }

  lemma Column(block: seq<bv8>, row: nat, c: nat)
    requires |block| == 8 && row < 4 && 1 <= c <= 8
    ensures BitOf(block, 66 + 2 * row - 8 * c) == OctetBit(block[8 - c], 2 * row + 2)
    ensures BitOf(block, 65 + 2 * row - 8 * c) == OctetBit(block[8 - c], 2 * row + 1)
  {
    hide OctetBit;
  }

  function LeftMask(row: nat): bv8 { match row case 0 => 0x40 case 1 => 0x10 case 2 => 0x04 case _ => 0x01 }
  function RightMask(row: nat): bv8 { match row case 0 => 0x80 case 1 => 0x20 case 2 => 0x08 case _ => 0x02 }

  lemma MaskBit(b: bv8, row: nat)
    requires row < 4
    ensures OctetBit(b, 2 * row + 2) <==> Has(b, LeftMask(row))
    ensures OctetBit(b, 2 * row + 1) <==> Has(b, RightMask(row))
  {
    match row case 0 => case 1 => case 2 => case _ => assert row == 3;
  }

  lemma InitialRow(h: Halves, row: nat, q: nat)
    requires row < 4 && 1 <= q <= 8
    ensures BitAt(FipsInitial(h).left, q + 8 * row) == 1 <==> OctetBit(Row(h, LeftMask(row)), q)
    ensures BitAt(FipsInitial(h).right, q + 8 * row) == 1 <==> OctetBit(Row(h, RightMask(row)), q)
  {
    hide LoadWord, Row, BitAt, OctetBit;
    WordBit((Row(h, 0x40), Row(h, 0x10), Row(h, 0x04), Row(h, 0x01)), q);
    WordBit((Row(h, 0x80), Row(h, 0x20), Row(h, 0x08), Row(h, 0x02)), q);
    match row case 0 => case 1 => case 2 => case _ => assert row == 3;
  }

  /** The table of the initial permutation: 58 50 42 34 26 18 10 2, 60 52 .. 4, and so on; the right half from 57 49 .. 1. */
  lemma InitialBit(block: seq<bv8>, row: nat, c: nat)
    requires |block| == 8 && row < 4 && 1 <= c <= 8
    ensures BitAt(FipsInitial(Load(block)).left, c + 8 * row) == 1 <==> BitOf(block, 66 + 2 * row - 8 * c)
    ensures BitAt(FipsInitial(Load(block)).right, c + 8 * row) == 1 <==> BitOf(block, 65 + 2 * row - 8 * c)
  {
    hide Load, Row, BitAt, BitOf, OctetBit, FipsInitial, Has, LeftMask, RightMask;
    InitialRow(Load(block), row, c);
    Column(block, row, c);
    MaskBit(block[8 - c], row);
    RowBit(block, LeftMask(row), c);
    RowBit(block, RightMask(row), c);
  }

  // ---------- The whole transformation ----------

  function Keys(key: seq<bv8>): nat -> nat -> bv6
    requires |key| == 8
  {
    (n: nat) => (i: nat) => if i < 8 then FipsGroup(key, n + 1, i) else 0
  }

  lemma SameF(p: SBoxes, r: bv32, groups: nat -> bv6, groups': nat -> bv6)
    requires forall i: nat :: i < 8 ==> groups(i) == groups'(i)
    ensures F(p, r, groups) == F(p, r, groups')
  {
    forall i: nat | i < 8 ensures Selected(r, groups, i) == Selected(r, groups', i) {
      assert groups(i) == groups'(i);
      hide Expand;
    }
    hide Selected, Sum4, Plus;
  }

  lemma KeysAre(key: seq<bv8>, n: nat, p: SBoxes, r: bv32)
    requires |key| == 8 && n < 16
    ensures F(p, r, Keys(key)(n)) == F(p, r, Groups(Schedule(key, false)[n]))
  {
    hide F, Schedule, KeyGroup, FipsGroup;
    forall i: nat | i < 8 ensures Keys(key)(n)(i) == Groups(Schedule(key, false)[n])(i) {
      SubkeyIsFips(key, n + 1, i);
    }
    SameF(p, r, Keys(key)(n), Groups(Schedule(key, false)[n]));
  }

  /** For every key, block and choice of S-boxes the block transformation is the one of FIPS 46-3. */
  lemma DesIsFips(p: SBoxes, key: seq<bv8>, block: seq<bv8>)
    requires |key| == 8 && |block| == 8
    ensures FipsInitial(Load(Cipher(Rotated(p), Schedule(key, false), block)))
         == FipsRounds(p, Keys(key), FipsInitial(Load(block)), 16).Swap()
  {
    forall n: nat, r | n < 16 ensures F(p, r, Keys(key)(n)) == F(p, r, Groups(Schedule(key, false)[n])) {
      KeysAre(key, n, p, r);
    }
    hide F, Keys, Groups, Schedule, Cipher, FipsInitial, FipsRounds, Load, Rotated;
    CipherIsFips(p, Schedule(key, false), Keys(key), block);
  }
}
