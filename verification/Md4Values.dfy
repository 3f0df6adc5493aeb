/**
 What the parts of the MD4 definition are, bit by bit and octet by octet, and a digest worked out: the one of the empty text
 in section A.5 of RFC 1320.
 */
module Md4Values {
  import opened Common
  import opened Md4

  predicate OneBit(m: bv32) { m != 0 && m & (m - 1) == 0 }

  lemma SelectBit(x: bv32, y: bv32, z: bv32, m: bv32)
    requires OneBit(m)
    ensures ((x & y) | (!x & z)) & m != 0 <==> if x & m != 0 then y & m != 0 else z & m != 0
  {}

  /** In each position F takes the bit of `y` where the one of `x` is set, and otherwise the one of `z`. */
  lemma FSelects(x: bv32, y: bv32, z: bv32, m: bv32)
    requires OneBit(m)
    ensures F(x, y, z) & m != 0 <==> if x & m != 0 then y & m != 0 else z & m != 0
  {
    SelectBit(x, y, z, m);
    hide OneBit;
  }

  function Count(x: bool, y: bool, z: bool): nat { (if x then 1 else 0) + (if y then 1 else 0) + (if z then 1 else 0) }

  lemma MajorityBit(x: bv32, y: bv32, z: bv32, m: bv32)
    requires OneBit(m)
    ensures ((x & y) | (x & z) | (y & z)) & m != 0 <==> if x & m != 0 then y & m != 0 || z & m != 0 else y & m != 0 && z & m != 0
  {}

  /** In each position G is set where at least two of the three bits are. */
  lemma GIsMajority(x: bv32, y: bv32, z: bv32, m: bv32)
    requires OneBit(m)
    ensures G(x, y, z) & m != 0 <==> Count(x & m != 0, y & m != 0, z & m != 0) >= 2
  {
    MajorityBit(x, y, z, m);
    hide OneBit;
  }

  lemma ParityBit(x: bv32, y: bv32, z: bv32, m: bv32)
    requires OneBit(m)
    ensures (x ^ y ^ z) & m != 0 <==> ((x & m != 0) != (y & m != 0)) != (z & m != 0)
  {}

  /** In each position H is set where an odd number of the three bits are. */
  lemma HIsParity(x: bv32, y: bv32, z: bv32, m: bv32)
    requires OneBit(m)
    ensures H(x, y, z) & m != 0 <==> Count(x & m != 0, y & m != 0, z & m != 0) % 2 == 1
  {
    ParityBit(x, y, z, m);
    hide OneBit;
  }

  function Join(p: bv8, q: bv8, r: bv8, s: bv8): bv32
  {
    (p as bv32) | ((q as bv32) << 8) | ((r as bv32) << 16) | ((s as bv32) << 24)
  }

  lemma JoinSplit(w: bv32)
    ensures Join((w & 0xff) as bv8, ((w >> 8) & 0xff) as bv8, ((w >> 16) & 0xff) as bv8, ((w >> 24) & 0xff) as bv8) == w
  {}

  lemma SameBits(b: bv8)
    ensures (b as int) as bv8 == b
  {}

  /** The octets of a word, read as a word, are that word. */
  lemma OctetsWord(w: bv32)
    ensures var o := Octets(w); Word(o[0], o[1], o[2], o[3]) == w
  {
    JoinSplit(w);
    SameBits((w & 0xff) as bv8); SameBits(((w >> 8) & 0xff) as bv8);
    SameBits(((w >> 16) & 0xff) as bv8); SameBits(((w >> 24) & 0xff) as bv8);
    hide Join;
  }

  /** The registers start as these octets, the low-order one of each word first. */
  lemma InitOctets()
    ensures Octets(INIT.a) + Octets(INIT.b) == [0x01, 0x23, 0x45, 0x67, 0x89, 0xab, 0xcd, 0xef]
    ensures Octets(INIT.c) + Octets(INIT.d) == [0xfe, 0xdc, 0xba, 0x98, 0x76, 0x54, 0x32, 0x10]
  {}

  /** The length is written in full, the low-order octet first. */
  lemma LengthIsLittleEndian(v: nat)
    requires v < 0x1_0000_0000_0000_0000
    ensures var o := Le64(v);
      (o[0] as int) + 0x100 * (o[1] as int) + 0x1_0000 * (o[2] as int) + 0x100_0000 * (o[3] as int) + 0x1_0000_0000 * (o[4] as int) + 0x100_0000_0000 * (o[5] as int)
      + 0x1_0000_0000_0000 * (o[6] as int) + 0x100_0000_0000_0000 * (o[7] as int) == v
  {
    var (a, b, c) := (v / 0x100, v / 0x1_0000, v / 0x100_0000);
    LowOctet(v);
    LowOctet(a);
    LowOctet(b);
    LowOctet(c);
    var (d, e, f, g) := (v / 0x1_0000_0000, v / 0x100_0000_0000, v / 0x1_0000_0000_0000, v / 0x100_0000_0000_0000);
    LowOctet(d);
    LowOctet(e);
    LowOctet(f);
    assert b == a / 0x100 && c == b / 0x100 && d == c / 0x100 && e == d / 0x100 && f == e / 0x100 && g == f / 0x100;
    assert g < 0x100;
  }

  lemma LowOctet(v: nat)
    ensures v == v % 0x100 + 0x100 * (v / 0x100)
  {}

  // ---------- The digest of the empty text ----------

  function EmptyBlock(): (x: seq<bv32>)
    ensures |x| == 16 && x[0] == 0x80 && forall i :: 1 <= i < 16 ==> x[i] == 0
  {
    seq(16, i => if i == 0 then 0x80 else 0)
  }

  /** The next operation puts `t` in place of the first register if that is the rotated sum with the word `w`. */
  lemma Next(i: nat, a: bv32, b: bv32, c: bv32, d: bv32, w: bv32, n: nat, t: bv32)
    requires i < 48 && n == Shift(i) && w == (if Order(i) == 0 then 0x80 else 0)
    ensures Ops(EmptyBlock(), INIT, i) == State(a, b, c, d) && Rot(Sum(i, a, b, c, d, w), n) == t
        ==> Ops(EmptyBlock(), INIT, i + 1) == State(d, t, b, c)
  {
    hide EmptyBlock, Order, Shift, Sum, Rot;
  }

  lemma Ops4()
    ensures Ops(EmptyBlock(), INIT, 4) == State(0x000003F8, 0x740F9E7D, 0x0446B910, 0x769A0254)
  {
    hide Ops, EmptyBlock;
    NoOps(EmptyBlock(), INIT);
    Next(0, 0x67452301, 0xEFCDAB89, 0x98BADCFE, 0x10325476, 0x80, 3, 0x000003F8);
    Next(1, 0x10325476, 0x000003F8, 0xEFCDAB89, 0x98BADCFE, 0, 7, 0x769A0254);
    Next(2, 0x98BADCFE, 0x769A0254, 0x000003F8, 0xEFCDAB89, 0, 11, 0x0446B910);
    Next(3, 0xEFCDAB89, 0x0446B910, 0x769A0254, 0x000003F8, 0, 19, 0x740F9E7D);
  }

  lemma Ops8()
    ensures Ops(EmptyBlock(), INIT, 8) == State(0x34B4E040, 0xF5EF256B, 0x6C2BC1C2, 0x704DD255)
  {
    hide Ops, EmptyBlock;
    Ops4();
    Next(4, 0x000003F8, 0x740F9E7D, 0x0446B910, 0x769A0254, 0, 3, 0x34B4E040);
    Next(5, 0x769A0254, 0x34B4E040, 0x740F9E7D, 0x0446B910, 0, 7, 0x704DD255);
    Next(6, 0x0446B910, 0x704DD255, 0x34B4E040, 0x740F9E7D, 0, 11, 0x6C2BC1C2);
    Next(7, 0x740F9E7D, 0x6C2BC1C2, 0x704DD255, 0x34B4E040, 0, 19, 0xF5EF256B);
  }

  lemma Ops12()
    ensures Ops(EmptyBlock(), INIT, 12) == State(0xC7059CB4, 0x18BE2386, 0x8BF5399C, 0xBE8BDBAE)
  {
    hide Ops, EmptyBlock;
    Ops8();
    Next(8, 0x34B4E040, 0xF5EF256B, 0x6C2BC1C2, 0x704DD255, 0, 3, 0xC7059CB4);
    Next(9, 0x704DD255, 0xC7059CB4, 0xF5EF256B, 0x6C2BC1C2, 0, 7, 0xBE8BDBAE);
    Next(10, 0x6C2BC1C2, 0xBE8BDBAE, 0xC7059CB4, 0xF5EF256B, 0, 11, 0x8BF5399C);
    Next(11, 0xF5EF256B, 0x8BF5399C, 0xBE8BDBAE, 0xC7059CB4, 0, 19, 0x18BE2386);
  }

  lemma Ops16()
    ensures Ops(EmptyBlock(), INIT, 16) == State(0xADDCB303, 0x3665F296, 0x8EE8F245, 0xA483A664)
  {
    hide Ops, EmptyBlock;
    Ops12();
    Next(12, 0xC7059CB4, 0x18BE2386, 0x8BF5399C, 0xBE8BDBAE, 0, 3, 0xADDCB303);
    Next(13, 0xBE8BDBAE, 0xADDCB303, 0x18BE2386, 0x8BF5399C, 0, 7, 0xA483A664);
    Next(14, 0x8BF5399C, 0xA483A664, 0xADDCB303, 0x18BE2386, 0, 11, 0x8EE8F245);
    Next(15, 0x18BE2386, 0x8EE8F245, 0xA483A664, 0xADDCB303, 0, 19, 0x3665F296);
  }

  lemma Ops20()
    ensures Ops(EmptyBlock(), INIT, 20) == State(0x7A08FB05, 0x66CEC932, 0x98BBCA4F, 0xADE24047)
  {
    hide Ops, EmptyBlock;
    Ops16();
    Next(16, 0xADDCB303, 0x3665F296, 0x8EE8F245, 0xA483A664, 0x80, 3, 0x7A08FB05);
    Next(17, 0xA483A664, 0x7A08FB05, 0x3665F296, 0x8EE8F245, 0, 5, 0xADE24047);
    Next(18, 0x8EE8F245, 0xADE24047, 0x7A08FB05, 0x3665F296, 0, 9, 0x98BBCA4F);
    Next(19, 0x3665F296, 0x98BBCA4F, 0xADE24047, 0x7A08FB05, 0, 13, 0x66CEC932);
  }

  lemma Ops24()
    ensures Ops(EmptyBlock(), INIT, 24) == State(0x0BB1E72C, 0x3D0DB9EC, 0x9E4A14B3, 0x6410A1C2)
  {
    hide Ops, EmptyBlock;
    Ops20();
    Next(20, 0x7A08FB05, 0x66CEC932, 0x98BBCA4F, 0xADE24047, 0, 3, 0x0BB1E72C);
    Next(21, 0xADE24047, 0x0BB1E72C, 0x66CEC932, 0x98BBCA4F, 0, 5, 0x6410A1C2);
    Next(22, 0x98BBCA4F, 0x6410A1C2, 0x0BB1E72C, 0x66CEC932, 0, 9, 0x9E4A14B3);
    Next(23, 0x66CEC932, 0x9E4A14B3, 0x6410A1C2, 0x0BB1E72C, 0, 13, 0x3D0DB9EC);
  }

  lemma Ops28()
    ensures Ops(EmptyBlock(), INIT, 28) == State(0x11E8953D, 0xC8D84161, 0x727F1264, 0x7B76231B)
  {
    hide Ops, EmptyBlock;
    Ops24();
    Next(24, 0x0BB1E72C, 0x3D0DB9EC, 0x9E4A14B3, 0x6410A1C2, 0, 3, 0x11E8953D);
    Next(25, 0x6410A1C2, 0x11E8953D, 0x3D0DB9EC, 0x9E4A14B3, 0, 5, 0x7B76231B);
    Next(26, 0x9E4A14B3, 0x7B76231B, 0x11E8953D, 0x3D0DB9EC, 0, 9, 0x727F1264);
    Next(27, 0x3D0DB9EC, 0x727F1264, 0x7B76231B, 0x11E8953D, 0, 13, 0xC8D84161);
  }

  lemma Ops32()
    ensures Ops(EmptyBlock(), INIT, 32) == State(0x374891BF, 0x6F952B2E, 0xB49A4DAE, 0x0A15C329)
  {
    hide Ops, EmptyBlock;
    Ops28();
    Next(28, 0x11E8953D, 0xC8D84161, 0x727F1264, 0x7B76231B, 0, 3, 0x374891BF);
    Next(29, 0x7B76231B, 0x374891BF, 0xC8D84161, 0x727F1264, 0, 5, 0x0A15C329);
    Next(30, 0x727F1264, 0x0A15C329, 0x374891BF, 0xC8D84161, 0, 9, 0xB49A4DAE);
    Next(31, 0xC8D84161, 0xB49A4DAE, 0x0A15C329, 0x374891BF, 0, 13, 0x6F952B2E);
  }

  lemma Ops36()
    ensures Ops(EmptyBlock(), INIT, 36) == State(0xB9E91C4B, 0x28F076BD, 0x1AB10CED, 0xAC532BB7)
  {
    hide Ops, EmptyBlock;
    Ops32();
    Next(32, 0x374891BF, 0x6F952B2E, 0xB49A4DAE, 0x0A15C329, 0x80, 3, 0xB9E91C4B);
    Next(33, 0x0A15C329, 0xB9E91C4B, 0x6F952B2E, 0xB49A4DAE, 0, 9, 0xAC532BB7);
    Next(34, 0xB49A4DAE, 0xAC532BB7, 0xB9E91C4B, 0x6F952B2E, 0, 11, 0x1AB10CED);
    Next(35, 0x6F952B2E, 0x1AB10CED, 0xAC532BB7, 0xB9E91C4B, 0, 15, 0x28F076BD);
  }

  lemma Ops40()
    ensures Ops(EmptyBlock(), INIT, 40) == State(0x36AACE9E, 0xB8B9000F, 0x6F678DCA, 0x31984C40)
  {
    hide Ops, EmptyBlock;
    Ops36();
    Next(36, 0xB9E91C4B, 0x28F076BD, 0x1AB10CED, 0xAC532BB7, 0, 3, 0x36AACE9E);
    Next(37, 0xAC532BB7, 0x36AACE9E, 0x28F076BD, 0x1AB10CED, 0, 9, 0x31984C40);
    Next(38, 0x1AB10CED, 0x31984C40, 0x36AACE9E, 0x28F076BD, 0, 11, 0x6F678DCA);
    Next(39, 0x28F076BD, 0x6F678DCA, 0x31984C40, 0x36AACE9E, 0, 15, 0xB8B9000F);
  }

  lemma Ops44()
    ensures Ops(EmptyBlock(), INIT, 44) == State(0x5E5BDE24, 0x187317B3, 0xB69F1F41, 0xEF178453)
  {
    hide Ops, EmptyBlock;
    Ops40();
    Next(40, 0x36AACE9E, 0xB8B9000F, 0x6F678DCA, 0x31984C40, 0, 3, 0x5E5BDE24);
    Next(41, 0x31984C40, 0x5E5BDE24, 0xB8B9000F, 0x6F678DCA, 0, 9, 0xEF178453);
    Next(42, 0x6F678DCA, 0xEF178453, 0x5E5BDE24, 0xB8B9000F, 0, 11, 0xB69F1F41);
    Next(43, 0xB8B9000F, 0xB69F1F41, 0xEF178453, 0x5E5BDE24, 0, 15, 0x187317B3);
  }

  lemma Ops48()
    ensures Ops(EmptyBlock(), INIT, 48) == State(0x798AB330, 0x421BBF48, 0x3E9E5FB9, 0xB0576C6A)
  {
    hide Ops, EmptyBlock;
    Ops44();
    Next(44, 0x5E5BDE24, 0x187317B3, 0xB69F1F41, 0xEF178453, 0, 3, 0x798AB330);
    Next(45, 0xEF178453, 0x798AB330, 0x187317B3, 0xB69F1F41, 0, 9, 0xB0576C6A);
    Next(46, 0xB69F1F41, 0xB0576C6A, 0x798AB330, 0x187317B3, 0, 11, 0x3E9E5FB9);
    Next(47, 0x187317B3, 0x3E9E5FB9, 0xB0576C6A, 0x798AB330, 0, 15, 0x421BBF48);
  }

  lemma PaddedEmpty()
    ensures Padded([]) == [0x80] + seq(63, _ => 0)
  {
    assert Le64(0) == [0, 0, 0, 0, 0, 0, 0, 0];
  }

  lemma WordsOfEmpty()
    ensures Words(Padded([])) == EmptyBlock()
  {
    PaddedEmpty();
    hide Padded;
    assert Word(0x80, 0, 0, 0) == 0x80 && Word(0, 0, 0, 0) == 0;
    hide Word;
  }

  lemma CompressEmpty()
    ensures Blocks(INIT, Padded([])) == State(0xE0CFD631, 0x31E96AD1, 0xD7593CB7, 0xC089C0E0)
  {
    WordsOfEmpty();
    Ops48();
    hide Words, Padded, EmptyBlock, Ops;
    var m := Padded([]);
    assert m[..64] == m && m[64..] == [];
    assert Blocks(Compress(INIT, EmptyBlock()), []) == Compress(INIT, EmptyBlock());
  }

  /** The digest of the empty text: 31d6cfe0d16ae931b73c59d7e0c089c0. */
  lemma EmptyText()
    ensures Md4.Md4([]) == [0x31, 0xd6, 0xcf, 0xe0, 0xd1, 0x6a, 0xe9, 0x31, 0xb7, 0x3c, 0x59, 0xd7, 0xe0, 0xc0, 0x89, 0xc0]
  {
    CompressEmpty();
    hide Blocks, Padded;
  }
}
