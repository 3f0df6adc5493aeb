/**
 The MD4 digest of a text buffer, padded in place, against the definition of section 3 of RFC 1320: there the 48 operations
 of a block are one loop over a table and the registers rotate, here they are written out.
 */
module Md4 {
  import opened Common
  import opened TextBuf

  // ---------- Section 3.4: the operations ----------

  function F(x: bv32, y: bv32, z: bv32): bv32 { (x & y) | (!x & z) }
  function G(x: bv32, y: bv32, z: bv32): bv32 { (x & y) | (x & z) | (y & z) }
  function H(x: bv32, y: bv32, z: bv32): bv32 { x ^ y ^ z }

  function Rot(v: bv32, n: nat): bv32
    requires n <= 32
  {
    (v << n) | (v >> (32 - n))
  }

  function Add(a: bv32, b: bv32): bv32 { a + b }

  datatype State = State(a: bv32, b: bv32, c: bv32, d: bv32)

  const INIT := State(0x67452301, 0xEFCDAB89, 0x98BADCFE, 0x10325476)

  /** The word the `i`th operation takes: in order, by columns, and with the index bits reversed. */
  function Order(i: nat): (k: nat)
    requires i < 48
    ensures k < 16
  {
    if i < 16 then i
    else if i < 32 then i % 4 * 4 + i / 4 - 4
    else Swapped(i % 4) * 4 + Swapped(i / 4 % 4)
  }

  function Swapped(q: nat): (r: nat)
    ensures r < 4
  {
    match q case 0 => 0 case 1 => 2 case 2 => 1 case _ => 3
  }

  function Shift(i: nat): (s: nat)
    requires i < 48
    ensures s <= 32
  {
    match i % 4
    case 0 => 3
    case 1 => if i < 16 then 7 else if i < 32 then 5 else 9
    case 2 => if i < 16 then 11 else if i < 32 then 9 else 11
    case _ => if i < 16 then 19 else if i < 32 then 13 else 15
  }

  /** The sum that is rotated: the register, the round's function of the other three, the word, the round's constant. */
  function Sum(i: nat, a: bv32, b: bv32, c: bv32, d: bv32, x: bv32): bv32
  {
    if i < 16 then Add(Add(a, F(b, c, d)), x)
    else if i < 32 then Add(Add(Add(a, G(b, c, d)), x), 0x5A827999)
    else Add(Add(Add(a, H(b, c, d)), x), 0x6ED9EBA1)
  }

  /** One operation; the next one takes the registers one place further. */
  function Op(x: seq<bv32>, s: State, i: nat): State
    requires |x| == 16 && i < 48
  {
    State(s.d, Rot(Sum(i, s.a, s.b, s.c, s.d, x[Order(i)]), Shift(i)), s.b, s.c)
  }

  /** The first `n` operations. */
  function Ops(x: seq<bv32>, s: State, n: nat): State
    requires |x| == 16 && n <= 48
  {
    if n == 0 then s else Op(x, Ops(x, s, n - 1), n - 1)
  }

  function Compress(s: State, x: seq<bv32>): State
    requires |x| == 16
  {
    var r := Ops(x, s, 48);
    State(Add(r.a, s.a), Add(r.b, s.b), Add(r.c, s.c), Add(r.d, s.d))
  }

  // ---------- Sections 3.1, 3.2 and 3.5: padding, blocks and output ----------

  /** Low-order octet first. */
  function Word(p: byte, q: byte, r: byte, s: byte): bv32
  {
    (p as bv8 as bv32) | ((q as bv8 as bv32) << 8) | ((r as bv8 as bv32) << 16) | ((s as bv8 as bv32) << 24)
  }

  function Words(block: seq<byte>): (x: seq<bv32>)
    requires |block| == 64
    ensures |x| == 16
  {
    seq(16, j requires 0 <= j < 16 => Word(block[4 * j], block[4 * j + 1], block[4 * j + 2], block[4 * j + 3]))
  }

  function Octet(w: bv32): byte { ((w & 0xff) as bv8) as int }

  function Octets(w: bv32): (s: seq<byte>)
    ensures |s| == 4
  {
    [Octet(w), Octet(w >> 8), Octet(w >> 16), Octet(w >> 24)]
  }

  function Le64(v: nat): (s: seq<byte>)
    requires v < 0x1_0000_0000_0000_0000
    ensures |s| == 8
  {
    [v % 0x100, v / 0x100 % 0x100, v / 0x1_0000 % 0x100, v / 0x100_0000 % 0x100, v / 0x1_0000_0000 % 0x100,
     v / 0x100_0000_0000 % 0x100, v / 0x1_0000_0000_0000 % 0x100, v / 0x100_0000_0000_0000 % 0x100]
  }

  /** Zero octets after the octet 0x80: as few as bring the length to 56 modulo 64. */
  function Zeros(n: nat): (z: nat)
    ensures z < 64 && (n + 1 + z) % 64 == 56
  {
    if n % 64 < 56 then 55 - n % 64 else 119 - n % 64
  }

  lemma PaddingLength(n: nat)
    ensures (119 - n % 64) % 64 == Zeros(n) && n + 1 + Zeros(n) + 8 == PaddedLength(n) && PaddedLength(n) % 64 == 0
  {}

  function Filler(n: nat): (s: seq<byte>)
    ensures |s| == 1 + Zeros(n)
  {
    [0x80] + seq(Zeros(n), _ => 0)
  }

  function Padded(m: seq<byte>): (s: seq<byte>)
    requires 8 * |m| < 0x1_0000_0000_0000_0000
    ensures |s| % 64 == 0 && |s| == PaddedLength(|m|)
  {
    hide Le64, PaddedLength, Zeros;
    PaddingLength(|m|);
    m + Filler(|m|) + Le64(8 * |m|)
  }

  /** The next multiple of 64 with room for nine more octets. */
  function PaddedLength(n: nat): nat { (n + 9 + 63) / 64 * 64 }

  function Blocks(s: State, m: seq<byte>): (r: State)
    decreases |m|
  {
    if |m| < 64 then s else Blocks(Compress(s, Words(m[..64])), m[64..])
  }

  function Md4(m: seq<byte>): (digest: seq<byte>)
    requires 8 * |m| < 0x1_0000_0000_0000_0000
    ensures |digest| == 16
  {
    var r := Blocks(INIT, Padded(m));
    Octets(r.a) + Octets(r.b) + Octets(r.c) + Octets(r.d)
  }

  // ---------- The operations written out ----------

  /** The word of each operation of round 1. */
  lemma Table1()
    ensures Order(0) == 0 && Order(1) == 1 && Order(2) == 2 && Order(3) == 3
    ensures Order(4) == 4 && Order(5) == 5 && Order(6) == 6 && Order(7) == 7
    ensures Order(8) == 8 && Order(9) == 9 && Order(10) == 10 && Order(11) == 11
    ensures Order(12) == 12 && Order(13) == 13 && Order(14) == 14 && Order(15) == 15
  {}

  lemma Op1(x: seq<bv32>, s: State, i: nat, a: bv32, b: bv32, c: bv32, d: bv32, k: nat, n: nat)
    requires |x| == 16 && 0 <= i < 16 && k == Order(i) && n == Shift(i) && State(a, b, c, d) == Ops(x, s, i)
    ensures Ops(x, s, i + 1) == State(d, Rot(Add(Add(a, F(b, c, d)), x[k]), n), b, c)
  {
    hide Rot, Order, Shift, F, G, H, Add;
  }

  /** Four operations with the words `k`: then the registers are back in their places. */
  lemma Four1(x: seq<bv32>, s: State, i: nat, a: bv32, b: bv32, c: bv32, d: bv32, k: (nat, nat, nat, nat))
    requires |x| == 16 && 0 <= i < 16 && i % 4 == 0 && State(a, b, c, d) == Ops(x, s, i)
    requires k == (Order(i), Order(i + 1), Order(i + 2), Order(i + 3))
    ensures var A := Rot(Add(Add(a, F(b, c, d)), x[k.0]), 3);
      var D := Rot(Add(Add(d, F(A, b, c)), x[k.1]), 7);
      var C := Rot(Add(Add(c, F(D, A, b)), x[k.2]), 11);
      var B := Rot(Add(Add(b, F(C, D, A)), x[k.3]), 19);
      Ops(x, s, i + 4) == State(A, B, C, D)
  {
    hide Ops, Order, Sum, Rot, F, G, H, Add;
    var A := Rot(Add(Add(a, F(b, c, d)), x[k.0]), 3);
    var D := Rot(Add(Add(d, F(A, b, c)), x[k.1]), 7);
    var C := Rot(Add(Add(c, F(D, A, b)), x[k.2]), 11);
    Op1(x, s, i, a, b, c, d, k.0, 3);
    Op1(x, s, i + 1, d, A, b, c, k.1, 7);
    Op1(x, s, i + 2, c, D, A, b, k.2, 11);
    Op1(x, s, i + 3, b, C, D, A, k.3, 19);
  }

  /** The word of each operation of round 2. */
  lemma Table2()
    ensures Order(16) == 0 && Order(17) == 4 && Order(18) == 8 && Order(19) == 12
    ensures Order(20) == 1 && Order(21) == 5 && Order(22) == 9 && Order(23) == 13
    ensures Order(24) == 2 && Order(25) == 6 && Order(26) == 10 && Order(27) == 14
    ensures Order(28) == 3 && Order(29) == 7 && Order(30) == 11 && Order(31) == 15
  {}

  lemma Op2(x: seq<bv32>, s: State, i: nat, a: bv32, b: bv32, c: bv32, d: bv32, k: nat, n: nat)
    requires |x| == 16 && 16 <= i < 32 && k == Order(i) && n == Shift(i) && State(a, b, c, d) == Ops(x, s, i)
    ensures Ops(x, s, i + 1) == State(d, Rot(Add(Add(Add(a, G(b, c, d)), x[k]), 0x5A827999), n), b, c)
  {
    hide Rot, Order, Shift, F, G, H, Add;
  }

  /** Four operations with the words `k`: then the registers are back in their places. */
  lemma Four2(x: seq<bv32>, s: State, i: nat, a: bv32, b: bv32, c: bv32, d: bv32, k: (nat, nat, nat, nat))
    requires |x| == 16 && 16 <= i < 32 && i % 4 == 0 && State(a, b, c, d) == Ops(x, s, i)
    requires k == (Order(i), Order(i + 1), Order(i + 2), Order(i + 3))
    ensures var A := Rot(Add(Add(Add(a, G(b, c, d)), x[k.0]), 0x5A827999), 3);
      var D := Rot(Add(Add(Add(d, G(A, b, c)), x[k.1]), 0x5A827999), 5);
      var C := Rot(Add(Add(Add(c, G(D, A, b)), x[k.2]), 0x5A827999), 9);
      var B := Rot(Add(Add(Add(b, G(C, D, A)), x[k.3]), 0x5A827999), 13);
      Ops(x, s, i + 4) == State(A, B, C, D)
  {
    hide Ops, Order, Sum, Rot, F, G, H, Add;
    var A := Rot(Add(Add(Add(a, G(b, c, d)), x[k.0]), 0x5A827999), 3);
    var D := Rot(Add(Add(Add(d, G(A, b, c)), x[k.1]), 0x5A827999), 5);
    var C := Rot(Add(Add(Add(c, G(D, A, b)), x[k.2]), 0x5A827999), 9);
    Op2(x, s, i, a, b, c, d, k.0, 3);
    Op2(x, s, i + 1, d, A, b, c, k.1, 5);
    Op2(x, s, i + 2, c, D, A, b, k.2, 9);
    Op2(x, s, i + 3, b, C, D, A, k.3, 13);
  }

  /** The word of each operation of round 3. */
  lemma Table3()
    ensures Order(32) == 0 && Order(33) == 8 && Order(34) == 4 && Order(35) == 12
    ensures Order(36) == 2 && Order(37) == 10 && Order(38) == 6 && Order(39) == 14
    ensures Order(40) == 1 && Order(41) == 9 && Order(42) == 5 && Order(43) == 13
    ensures Order(44) == 3 && Order(45) == 11 && Order(46) == 7 && Order(47) == 15
  {}

  lemma Op3(x: seq<bv32>, s: State, i: nat, a: bv32, b: bv32, c: bv32, d: bv32, k: nat, n: nat)
    requires |x| == 16 && 32 <= i < 48 && k == Order(i) && n == Shift(i) && State(a, b, c, d) == Ops(x, s, i)
    ensures Ops(x, s, i + 1) == State(d, Rot(Add(Add(Add(a, H(b, c, d)), x[k]), 0x6ED9EBA1), n), b, c)
  {
    hide Rot, Order, Shift, F, G, H, Add;
  }

  /** Four operations with the words `k`: then the registers are back in their places. */
  lemma Four3(x: seq<bv32>, s: State, i: nat, a: bv32, b: bv32, c: bv32, d: bv32, k: (nat, nat, nat, nat))
    requires |x| == 16 && 32 <= i < 48 && i % 4 == 0 && State(a, b, c, d) == Ops(x, s, i)
    requires k == (Order(i), Order(i + 1), Order(i + 2), Order(i + 3))
    ensures var A := Rot(Add(Add(Add(a, H(b, c, d)), x[k.0]), 0x6ED9EBA1), 3);
      var D := Rot(Add(Add(Add(d, H(A, b, c)), x[k.1]), 0x6ED9EBA1), 9);
      var C := Rot(Add(Add(Add(c, H(D, A, b)), x[k.2]), 0x6ED9EBA1), 11);
      var B := Rot(Add(Add(Add(b, H(C, D, A)), x[k.3]), 0x6ED9EBA1), 15);
      Ops(x, s, i + 4) == State(A, B, C, D)
  {
    hide Ops, Order, Sum, Rot, F, G, H, Add;
    var A := Rot(Add(Add(Add(a, H(b, c, d)), x[k.0]), 0x6ED9EBA1), 3);
    var D := Rot(Add(Add(Add(d, H(A, b, c)), x[k.1]), 0x6ED9EBA1), 9);
    var C := Rot(Add(Add(Add(c, H(D, A, b)), x[k.2]), 0x6ED9EBA1), 11);
    Op3(x, s, i, a, b, c, d, k.0, 3);
    Op3(x, s, i + 1, d, A, b, c, k.1, 9);
    Op3(x, s, i + 2, c, D, A, b, k.2, 11);
    Op3(x, s, i + 3, b, C, D, A, k.3, 15);
  }

  method Round1(X: seq<bv32>, ghost s: State, a: bv32, b: bv32, c: bv32, d: bv32) returns (A: bv32, B: bv32, C: bv32, D: bv32)
    requires |X| == 16 && State(a, b, c, d) == Ops(X, s, 0)
    ensures State(A, B, C, D) == Ops(X, s, 16)
  {
    hide Ops, Order, Sum, F, G, H, Rot, Add;
    Table1();
    A, B, C, D := a, b, c, d;
    Four1(X, s, 0, A, B, C, D, (0, 1, 2, 3));
    A := Rot(Add(Add(A, F(B, C, D)), X[0]), 3);
    D := Rot(Add(Add(D, F(A, B, C)), X[1]), 7);
    C := Rot(Add(Add(C, F(D, A, B)), X[2]), 11);
    B := Rot(Add(Add(B, F(C, D, A)), X[3]), 19);
    Four1(X, s, 4, A, B, C, D, (4, 5, 6, 7));
    A := Rot(Add(Add(A, F(B, C, D)), X[4]), 3);
    D := Rot(Add(Add(D, F(A, B, C)), X[5]), 7);
    C := Rot(Add(Add(C, F(D, A, B)), X[6]), 11);
    B := Rot(Add(Add(B, F(C, D, A)), X[7]), 19);
    Four1(X, s, 8, A, B, C, D, (8, 9, 10, 11));
    A := Rot(Add(Add(A, F(B, C, D)), X[8]), 3);
    D := Rot(Add(Add(D, F(A, B, C)), X[9]), 7);
    C := Rot(Add(Add(C, F(D, A, B)), X[10]), 11);
    B := Rot(Add(Add(B, F(C, D, A)), X[11]), 19);
    Four1(X, s, 12, A, B, C, D, (12, 13, 14, 15));
    A := Rot(Add(Add(A, F(B, C, D)), X[12]), 3);
    D := Rot(Add(Add(D, F(A, B, C)), X[13]), 7);
    C := Rot(Add(Add(C, F(D, A, B)), X[14]), 11);
    B := Rot(Add(Add(B, F(C, D, A)), X[15]), 19);
  }

  method Round2(X: seq<bv32>, ghost s: State, a: bv32, b: bv32, c: bv32, d: bv32) returns (A: bv32, B: bv32, C: bv32, D: bv32)
    requires |X| == 16 && State(a, b, c, d) == Ops(X, s, 16)
    ensures State(A, B, C, D) == Ops(X, s, 32)
  {
    hide Ops, Order, Sum, F, G, H, Rot, Add;
    Table2();
    A, B, C, D := a, b, c, d;
    Four2(X, s, 16, A, B, C, D, (0, 4, 8, 12));
    A := Rot(Add(Add(Add(A, G(B, C, D)), X[0]), 0x5A827999), 3);
    D := Rot(Add(Add(Add(D, G(A, B, C)), X[4]), 0x5A827999), 5);
    C := Rot(Add(Add(Add(C, G(D, A, B)), X[8]), 0x5A827999), 9);
    B := Rot(Add(Add(Add(B, G(C, D, A)), X[12]), 0x5A827999), 13);
    Four2(X, s, 20, A, B, C, D, (1, 5, 9, 13));
    A := Rot(Add(Add(Add(A, G(B, C, D)), X[1]), 0x5A827999), 3);
    D := Rot(Add(Add(Add(D, G(A, B, C)), X[5]), 0x5A827999), 5);
    C := Rot(Add(Add(Add(C, G(D, A, B)), X[9]), 0x5A827999), 9);
    B := Rot(Add(Add(Add(B, G(C, D, A)), X[13]), 0x5A827999), 13);
    Four2(X, s, 24, A, B, C, D, (2, 6, 10, 14));
    A := Rot(Add(Add(Add(A, G(B, C, D)), X[2]), 0x5A827999), 3);
    D := Rot(Add(Add(Add(D, G(A, B, C)), X[6]), 0x5A827999), 5);
    C := Rot(Add(Add(Add(C, G(D, A, B)), X[10]), 0x5A827999), 9);
    B := Rot(Add(Add(Add(B, G(C, D, A)), X[14]), 0x5A827999), 13);
    Four2(X, s, 28, A, B, C, D, (3, 7, 11, 15));
    A := Rot(Add(Add(Add(A, G(B, C, D)), X[3]), 0x5A827999), 3);
    D := Rot(Add(Add(Add(D, G(A, B, C)), X[7]), 0x5A827999), 5);
    C := Rot(Add(Add(Add(C, G(D, A, B)), X[11]), 0x5A827999), 9);
    B := Rot(Add(Add(Add(B, G(C, D, A)), X[15]), 0x5A827999), 13);
  }

  method Round3(X: seq<bv32>, ghost s: State, a: bv32, b: bv32, c: bv32, d: bv32) returns (A: bv32, B: bv32, C: bv32, D: bv32)
    requires |X| == 16 && State(a, b, c, d) == Ops(X, s, 32)
    ensures State(A, B, C, D) == Ops(X, s, 48)
  {
    hide Ops, Order, Sum, F, G, H, Rot, Add;
    Table3();
    A, B, C, D := a, b, c, d;
    Four3(X, s, 32, A, B, C, D, (0, 8, 4, 12));
    A := Rot(Add(Add(Add(A, H(B, C, D)), X[0]), 0x6ED9EBA1), 3);
    D := Rot(Add(Add(Add(D, H(A, B, C)), X[8]), 0x6ED9EBA1), 9);
    C := Rot(Add(Add(Add(C, H(D, A, B)), X[4]), 0x6ED9EBA1), 11);
    B := Rot(Add(Add(Add(B, H(C, D, A)), X[12]), 0x6ED9EBA1), 15);
    Four3(X, s, 36, A, B, C, D, (2, 10, 6, 14));
    A := Rot(Add(Add(Add(A, H(B, C, D)), X[2]), 0x6ED9EBA1), 3);
    D := Rot(Add(Add(Add(D, H(A, B, C)), X[10]), 0x6ED9EBA1), 9);
    C := Rot(Add(Add(Add(C, H(D, A, B)), X[6]), 0x6ED9EBA1), 11);
    B := Rot(Add(Add(Add(B, H(C, D, A)), X[14]), 0x6ED9EBA1), 15);
    Four3(X, s, 40, A, B, C, D, (1, 9, 5, 13));
    A := Rot(Add(Add(Add(A, H(B, C, D)), X[1]), 0x6ED9EBA1), 3);
    D := Rot(Add(Add(Add(D, H(A, B, C)), X[9]), 0x6ED9EBA1), 9);
    C := Rot(Add(Add(Add(C, H(D, A, B)), X[5]), 0x6ED9EBA1), 11);
    B := Rot(Add(Add(Add(B, H(C, D, A)), X[13]), 0x6ED9EBA1), 15);
    Four3(X, s, 44, A, B, C, D, (3, 11, 7, 15));
    A := Rot(Add(Add(Add(A, H(B, C, D)), X[3]), 0x6ED9EBA1), 3);
    D := Rot(Add(Add(Add(D, H(A, B, C)), X[11]), 0x6ED9EBA1), 9);
    C := Rot(Add(Add(Add(C, H(D, A, B)), X[7]), 0x6ED9EBA1), 11);
    B := Rot(Add(Add(Add(B, H(C, D, A)), X[15]), 0x6ED9EBA1), 15);
  }

  method Block(X: seq<bv32>, A: bv32, B: bv32, C: bv32, D: bv32) returns (a: bv32, b: bv32, c: bv32, d: bv32)
    requires |X| == 16
    ensures State(a, b, c, d) == Compress(State(A, B, C, D), X)
  {
    hide Ops, Add;
    ghost var s := State(A, B, C, D);
    NoOps(X, s);
    a, b, c, d := Round1(X, s, A, B, C, D);
    a, b, c, d := Round2(X, s, a, b, c, d);
    a, b, c, d := Round3(X, s, a, b, c, d);
    a, b, c, d := Add(a, A), Add(b, B), Add(c, C), Add(d, D);
  }

  lemma NoOps(x: seq<bv32>, s: State)
    requires |x| == 16
    ensures Ops(x, s, 0) == s
  {}

  // ---------- The whole sum ----------

  /** Pad the octets of the buffer in place, behind its text. */
  method Pad(buf: Buf) returns (r: int, total: nat)
    requires buf.Valid()
    modifies buf`data, buf`bufLen, buf`error, buf.data
    ensures buf.Valid() && buf.Text() == old(buf.Text()) && total == PaddedLength(buf.pos)
    ensures buf.data == old(buf.data) || fresh(buf.data)
    ensures r == 0 ==> total <= buf.bufLen && buf.data[..total] == Padded(buf.Text())
    ensures old(buf.error) == 0 || total <= old(buf.bufLen) ==> (r == 0 <==> Chunks(total) <= 131072)
    ensures total <= old(buf.bufLen) ==> buf.data == old(buf.data)
  {
    var nbytes := buf.pos;
    var pbytes := (119 - nbytes % 64) % 64 + 1;
    var nbits := nbytes * 8;
    total := nbytes + pbytes + 8;
    hide Zeros, Filler, Le64, PaddedLength, Chunks;
    PaddingLength(nbytes);
    ChunkFits(total, buf.bufLen);
    r := buf.EnsureSpace(pbytes + 8);
    if r != 0 {
      return;
    }
    PutPadding(buf.data, nbytes, pbytes, nbits);
    assert buf.data[..nbytes] == buf.data[..total][..nbytes];
  }

  method PutPadding(M: array<byte>, nbytes: nat, pbytes: nat, nbits: nat)
    requires pbytes == 1 + Zeros(nbytes) && nbytes + pbytes + 8 <= M.Length && nbits == 8 * nbytes < 0x8000_0000
    modifies M
    ensures M[..nbytes + pbytes + 8] == old(M[..nbytes]) + Filler(nbytes) + Le64(nbits)
  {
    hide Zeros;
    forall i | nbytes <= i < nbytes + pbytes + 8 {
      M[i] := 0;
    }
    M[nbytes] := 0x80;
    M[nbytes + pbytes], M[nbytes + pbytes + 1] := nbits % 0x100, nbits / 0x100 % 0x100;
    M[nbytes + pbytes + 2], M[nbytes + pbytes + 3] := nbits / 0x1_0000 % 0x100, nbits / 0x100_0000 % 0x100;
    SmallLength(nbits);
    var end := nbytes + pbytes;
    assert M[..end] == old(M[..nbytes]) + Filler(nbytes);
    assert M[end..end + 8] == Le64(nbits);
    assert M[..end + 8] == M[..end] + M[end..end + 8];
  }

  lemma SmallLength(v: nat)
    requires v < 0x1_0000_0000
    ensures Le64(v)[4..] == [0, 0, 0, 0]
  {}

  /** The sixteen words of the block at `i`. */
  method LoadBlock(M: array<byte>, i: nat) returns (X: seq<bv32>)
    requires i + 64 <= M.Length
    ensures X == Words(M[i..i + 64])
  {
    hide Word;
    X := [];
    var j := 0;
    while j < 16
      invariant j <= 16 && |X| == j
      invariant forall k :: 0 <= k < j ==> X[k] == Words(M[i..i + 64])[k]
    {
      X := X + [Word(M[i + j * 4], M[i + j * 4 + 1], M[i + j * 4 + 2], M[i + j * 4 + 3])];
      j := j + 1;
    }
  }

  lemma NextBlock(s: State, m: seq<byte>, i: nat, total: nat)
    requires i + 64 <= total <= |m|
    ensures Blocks(s, m[i..total]) == Blocks(Compress(s, Words(m[i..i + 64])), m[i + 64..total])
  {
    hide Compress, Words;
    assert m[i..total][..64] == m[i..i + 64] && m[i..total][64..] == m[i + 64..total];
  }

  lemma NoBlocks(s: State)
    ensures Blocks(s, []) == s
  {}

  method AllBlocks(M: array<byte>, total: nat, s: State) returns (r: State)
    requires total <= M.Length && total % 64 == 0
    ensures r == Blocks(s, M[..total])
  {
    hide Compress, Words, Blocks;
    ghost var m := M[..total];
    var A, B, C, D := s.a, s.b, s.c, s.d;
    var i := 0;
    assert m[0..total] == m;
    while i < total
      invariant i <= total && i % 64 == 0
      invariant Blocks(State(A, B, C, D), m[i..total]) == Blocks(s, m)
    {
      NextBlock(State(A, B, C, D), m, i, total);
      assert m[i..i + 64] == M[i..i + 64];
      var X := LoadBlock(M, i);
      A, B, C, D := Block(X, A, B, C, D);
      i := i + 64;
    }
    r := State(A, B, C, D);
    NoBlocks(r);
    assert m[total..total] == [];
  }

  method PutWord(digest: array<byte>, at: nat, w: bv32)
    requires at + 4 <= digest.Length
    modifies digest
    ensures digest[..at] == old(digest[..at]) && digest[at..at + 4] == Octets(w) && digest[at + 4..] == old(digest[at + 4..])
  {
    hide Octet;
    digest[at], digest[at + 1] := Octet(w), Octet(w >> 8);
    digest[at + 2], digest[at + 3] := Octet(w >> 16), Octet(w >> 24);
  }

  method PutState(digest: array<byte>, s: State)
    requires digest.Length == 16
    modifies digest
    ensures digest[..] == Octets(s.a) + Octets(s.b) + Octets(s.c) + Octets(s.d)
  {
    hide Octets;
    PutWord(digest, 0, s.a);
    PutWord(digest, 4, s.b);
    assert digest[..8] == Octets(s.a) + Octets(s.b);
    PutWord(digest, 8, s.c);
    assert digest[..12] == digest[..8] + Octets(s.c);
    PutWord(digest, 12, s.d);
    assert digest[..] == digest[..12] + Octets(s.d);
  }

  /**
   The digest of the text, which stays in the buffer. It fails exactly when the padded text does not fit under the
   buffer's cap (or, unless the buffer is large enough already, after an earlier error).
   */
  method Md4Sum(buf: Buf, digest: array<byte>) returns (r: int)
    requires buf.Valid() && digest.Length == 16 && digest != buf.data
    modifies buf`data, buf`bufLen, buf`error, buf.data, digest
    ensures buf.Valid() && buf.Text() == old(buf.Text())
    ensures r == 0 || r == -12
    ensures r == 0 ==> digest[..] == Md4(buf.Text())
    ensures r != 0 ==> digest[..] == old(digest[..])
    ensures old(buf.error) == 0 || PaddedLength(buf.pos) <= old(buf.bufLen) ==> (r == 0 <==> Chunks(PaddedLength(buf.pos)) <= 131072)
    ensures PaddedLength(buf.pos) <= old(buf.bufLen) ==> buf.data == old(buf.data)
  {
    var total;
    r, total := Pad(buf);
    if r != 0 {
      return ENOMEM;
    }
    hide Padded, Blocks, Octets, PaddedLength, Chunks;
    var s := AllBlocks(buf.data, total, INIT);
    PutState(digest, s);
  }
}
