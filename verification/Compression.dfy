/**
 Compressed packets: a frame carries the compressor's output and a running Adler-32
 (section 2.2 of RFC 1950). The compressor itself is any stateful codec.
 */
module Compression {
  import opened Common
  import opened CstpFrame

  // ---------- Adler-32 ----------

  const BASE := 65521

  /** One octet: the first sum adds octets, the second adds first sums; both modulo BASE, kept in 16 bits each. */
  function AdlerStep(sum: nat, b: byte): (r: nat)
  {
    var s1 := (sum % 0x10000 + b) % BASE;
    var s2 := (sum / 0x10000 + s1) % BASE;
    s2 * 0x10000 + s1
  }

  function Adler32(sum: nat, data: seq<byte>): (r: nat)
    decreases |data|
  {
    if data == [] then sum else Adler32(AdlerStep(sum, data[0]), data[1..])
  }

  lemma NothingSummed(sum: nat)
    ensures Adler32(sum, []) == sum
  {}

  /** The checksum of a stream does not depend on how it is cut into packets. */
  lemma {:induction false} AdlerAppend(sum: nat, a: seq<byte>, b: seq<byte>)
    ensures Adler32(Adler32(sum, a), b) == Adler32(sum, a + b)
    decreases |a|
  {
    hide AdlerStep;
    if a == [] {
      assert a + b == b;
    } else {
      AdlerAppend(AdlerStep(sum, a[0]), a[1..], b);
      assert (a + b)[1..] == a[1..] + b;
    }
  }

  lemma {:induction false} AdlerFits(sum: nat, data: seq<byte>)
    requires sum < 0x1_0000_0000
    ensures Adler32(sum, data) < 0x1_0000_0000
    decreases |data|
  {
    if data != [] {
      AdlerFits(AdlerStep(sum, data[0]), data[1..]);
    }
  }

  /** The sum of the octets, and of the octets each times its distance from the end. */
  function Sum(data: seq<byte>): (s: nat)
  {
    if data == [] then 0 else data[0] + Sum(data[1..])
  }

  function WeightedSum(data: seq<byte>): (s: nat)
  {
    if data == [] then 0 else |data| * data[0] + WeightedSum(data[1..])
  }

  /** One octet more in front of a text of length `m` with the sums `s` and `w`. */
  lemma SumsStep(a: nat, b: nat, d: nat, m: nat, s: nat, w: nat)
    ensures var a' := (a + d) % 65521;
      var b' := (b + a') % 65521;
      && (a' + s) % 65521 == (a + (d + s)) % 65521
      && (b' + m * a' + w) % 65521 == (b + (m + 1) * a + ((m + 1) * d + w)) % 65521
  {
    var q := (a + d) / 65521;
    var a' := (a + d) % 65521;
    var p := (b + a') / 65521;
    var b' := (b + a') % 65521;
    assert m * a' == m * (a + d) - 65521 * (m * q) by {
      assert a' == a + d - 65521 * q;
    }
    SameRemainder(b' + m * a' + w, b + a + d + m * (a + d) + w, p + q + m * q);
    SameRemainder(a' + s, a + (d + s), q);
    assert b + a + d + m * (a + d) + w == b + (m + 1) * a + ((m + 1) * d + w);
  }

  lemma {:induction false} FirstOctet(sum: nat, data: seq<byte>)
    requires data != []
    ensures Adler32(sum, data) == Adler32(AdlerStep(sum, data[0]), data[1..])
    ensures Sum(data) == data[0] + Sum(data[1..]) && WeightedSum(data) == (|data[1..]| + 1) * data[0] + WeightedSum(data[1..])
  {
    hide AdlerStep;
  }

  /** The two sums in closed form, from the sums `a` and `b` before. */
  lemma {:induction false} AdlerSums(a: nat, b: nat, data: seq<byte>)
    requires a < 65521 && b < 65521
    ensures Adler32(b * 0x10000 + a, data) == (b + |data| * a + WeightedSum(data)) % 65521 * 0x10000 + (a + Sum(data)) % 65521
    decreases |data|
  {
    if data != [] {
      var d: nat, rest := data[0], data[1..];
      var a' := (a + d) % 65521;
      var b' := (b + a') % 65521;
      StepIs(a, b, d);
      FirstOctet(b * 0x10000 + a, data);
      SumsStep(a, b, d, |rest|, Sum(rest), WeightedSum(rest));
      hide AdlerStep, Adler32, Sum, WeightedSum;
      AdlerSums(a', b', rest);
    }
  }

  lemma StepIs(a: nat, b: nat, d: byte)
    requires a < 65521 && b < 65521
    ensures AdlerStep(b * 0x10000 + a, d) == (b + (a + d) % 65521) % 65521 * 0x10000 + (a + d) % 65521
  {
    assert (b * 0x10000 + a) % 0x10000 == a && (b * 0x10000 + a) / 0x10000 == b;
  }

  lemma SameRemainder(x: int, y: int, k: int)
    requires x == y - 65521 * k
    ensures x % 65521 == y % 65521
  {}

  /** Section 8.2 of RFC 1950: one plus the octets, and the sum of the values that takes on the way, modulo 65521. */
  lemma AdlerClosedForm(data: seq<byte>)
    ensures Adler32(1, data) == (|data| + WeightedSum(data)) % 65521 * 0x10000 + (1 + Sum(data)) % 65521
  {
    AdlerSums(1, 0, data);
  }

  function Be32(v: nat): (s: seq<byte>)
    requires v < 0x1_0000_0000
    ensures |s| == 4
  {
    [v / 0x100_0000, v / 0x10000 % 256, v / 0x100 % 256, v % 256]
  }

  function LoadBe32(s: seq<byte>): (v: nat)
    requires |s| == 4
  {
    s[3] as int + s[2] as int * 0x100 + s[1] as int * 0x10000 + s[0] as int * 0x100_0000
  }

  lemma Be32RoundTrip(v: nat)
    requires v < 0x1_0000_0000
    ensures LoadBe32(Be32(v)) == v && Be32(v)[0] == v / 0x100_0000 && Be32(v)[3] == v % 0x100
  {
    var q, p := v / 256, v / 256 / 256;
    assert v / 0x10000 == p && v / 0x100_0000 == p / 256;
  }

  // ---------- The codec ----------

  /** Compressor and decompressor as functions of their stream states; `None` is a failed call. */
  datatype Codec<!C, !D> = Codec(
    deflate: (C, seq<byte>) -> (C, Option<seq<byte>>),
    inflate: (D, seq<byte>) -> Option<(D, seq<byte>)>,
    inStep: (C, D) -> bool)

  /**
   Whenever the two ends are in step, what one packs the other unpacks, and they stay in step;
   a failed call packs nothing. The output fits the sender's 2040-octet buffer.
   */
  ghost predicate Lossless<C(!new), D(!new)>(k: Codec<C, D>)
  {
    forall c, d, p :: k.inStep(c, d) ==> OneStep(k, c, d, p)
  }

  predicate OneStep<C, D>(k: Codec<C, D>, c: C, d: D, p: seq<byte>)
  {
    var (c', z) := k.deflate(c, p);
    match z
    case None => k.inStep(c', d)
    case Some(z) =>
      && |z| <= 2040
      && match k.inflate(d, z)
         case None => false
         case Some((d', q)) => q == p && k.inStep(c', d')
  }

  /** The checksum of a compressed frame: its last four octets. */
  function SumOf(frame: seq<byte>): (v: nat)
    requires |frame| >= 4
  {
    LoadBe32(frame[|frame| - 4..])
  }

  /** What the inflater answers for a compressed frame. */
  function Inflated<C, D>(k: Codec<C, D>, d: D, frame: seq<byte>, stray: Option<(D, seq<byte>)>): Option<(D, seq<byte>)>
    requires |frame| >= 8
  {
    if |frame| >= 12 then k.inflate(d, frame[8..|frame| - 4]) else stray
  }

  // ---------- The two ends ----------

  class Sender<C> {
    var strm: C
    var adler: nat

    constructor (c: C)
      ensures strm == c && adler == 1
    {
      strm, adler := c, 1;
    }

    /** Frame one packet, compressed if the compressor succeeds. */
    method Send<D>(k: Codec<C, D>, pkt: seq<byte>) returns (frame: seq<byte>)
      requires adler < 0x1_0000_0000
      modifies this
      ensures var (c', z) := k.deflate(old(strm), pkt);
        && strm == c'
        && adler == (if z.None? then old(adler) else Adler32(old(adler), pkt)) < 0x1_0000_0000
        && frame == if z.None? then Frame(AC_PKT_DATA, pkt) else Frame(AC_PKT_COMPRESSED, z.value + Be32(adler))
    {
      var (c', z) := k.deflate(strm, pkt);
      strm := c';
      if z.None? {
        return Header(AC_PKT_DATA, |pkt|) + pkt;
      }
      var totalOut := |z.value|;
      AdlerFits(adler, pkt);
      adler := Adler32(adler, pkt);
      return Header(AC_PKT_COMPRESSED, totalOut + 4) + (z.value + Be32(adler));
    }
  }

  class Receiver<D> {
    var strm: D
    var adler: nat
    var incoming: seq<seq<byte>>
    var quit: bool

    constructor (d: D)
      ensures strm == d && adler == 1 && incoming == [] && !quit
    {
      strm, adler, incoming, quit := d, 1, [], false;
    }

    /**
     Unpack and queue the payload of a frame; the session is given up exactly when the checksums disagree. The checksum is read
     from the last four octets of the frame, whatever the length of the payload; what the inflater makes of a payload
     shorter than that is `stray`.
     */
    method InflateAndQueue<C>(k: Codec<C, D>, frame: seq<byte>, stray: Option<(D, seq<byte>)>) returns (ok: bool)
      requires |frame| >= 8
      modifies this
      ensures match Inflated(k, old(strm), frame, stray)
        case None => !ok && strm == old(strm) && adler == old(adler) && incoming == old(incoming) && quit == old(quit)
        case Some((d', p)) =>
          && ok && strm == d' && incoming == old(incoming) + [p]
          && adler == Adler32(old(adler), p)
          && (quit <==> old(quit) || adler != SumOf(frame))
    {
      match Inflated(k, strm, frame, stray) {
        case None => return false;
        case Some((d', p)) =>
          strm := d';
          adler := Adler32(adler, p);
          if adler != SumOf(frame) {
            quit := true;
          }
          incoming := incoming + [p];
          return true;
      }
    }

    /** A read in compressed mode: data is queued, a disconnect or an unknown packet ends the session. */
    method Receive<C>(k: Codec<C, D>, buf: seq<byte>, stray: Option<(D, seq<byte>)>)
      modifies this
      ensures match Parse(buf)
        case Typed(t, p) =>
          (if t == AC_PKT_COMPRESSED then
            match Inflated(k, old(strm), buf, stray)
            case None => strm == old(strm) && adler == old(adler) && incoming == old(incoming) && quit == old(quit)
            case Some((d', q)) =>
              && strm == d' && incoming == old(incoming) + [q] && adler == Adler32(old(adler), q)
              && (quit <==> old(quit) || adler != SumOf(buf))
           else
            && strm == old(strm) && adler == old(adler)
            && (quit <==> old(quit) || !KnownType(t) || t == AC_PKT_DISCONN || t == AC_PKT_TERM_SERVER)
            && incoming == if t == AC_PKT_DATA then old(incoming) + [p] else old(incoming))
        case BadLength => strm == old(strm) && adler == old(adler) && incoming == old(incoming) && quit == old(quit)
        case Unknown => quit && strm == old(strm) && adler == old(adler) && incoming == old(incoming)
    {
      match Parse(buf) {
        case Typed(t, p) =>
          if t == AC_PKT_DATA {
            incoming := incoming + [p];
          } else if t == AC_PKT_COMPRESSED {
            var ok := InflateAndQueue(k, buf, stray);
          } else if !KnownType(t) || t == AC_PKT_DISCONN || t == AC_PKT_TERM_SERVER {
            quit := true;
          }
        case BadLength =>
        case Unknown => quit := true;
      }
    }
  }

  // ---------- A whole session ----------

  /** The octets that went through the compressor: those of the packets it did not fail on. */
  ghost function Compressed<C, D>(k: Codec<C, D>, c: C, pkts: seq<seq<byte>>): (s: seq<byte>)
    decreases |pkts|
  {
    if pkts == [] then []
    else
      var (c', z) := k.deflate(c, pkts[0]);
      (if z.None? then [] else pkts[0]) + Compressed(k, c', pkts[1..])
  }

  /**
   Any sequence of packets under 64 KiB, sent over a connection that delivers frames whole and in
   order, arrives unchanged; after it both checksums are the Adler-32 of everything that was
   compressed since the connection started, and the receiver has not given up.
   */
  method Session<C(!new), D(!new)>(k: Codec<C, D>, tx: Sender<C>, rx: Receiver<D>, pkts: seq<seq<byte>>)
    requires Lossless(k) && k.inStep(tx.strm, rx.strm)
    requires tx.adler == rx.adler < 0x1_0000_0000 && !rx.quit
    requires forall p :: p in pkts ==> |p| < 0x10000
    modifies tx, rx
    ensures rx.incoming == old(rx.incoming) + pkts
    ensures tx.adler == rx.adler == Adler32(old(tx.adler), Compressed(k, old(tx.strm), pkts))
    ensures k.inStep(tx.strm, rx.strm) && !rx.quit
  {
    hide Compressed, Adler32, Parse, Frame, LoadBe32, Be32;
    ghost var total := Adler32(tx.adler, Compressed(k, tx.strm, pkts));
    var i := 0;
    assert pkts[0..] == pkts;
    while i < |pkts|
      invariant 0 <= i <= |pkts|
      invariant rx.incoming == old(rx.incoming) + pkts[..i]
      invariant k.inStep(tx.strm, rx.strm) && !rx.quit
      invariant tx.adler == rx.adler < 0x1_0000_0000
      invariant total == Adler32(tx.adler, Compressed(k, tx.strm, pkts[i..]))
    {
      var p := pkts[i];
      assert OneStep(k, tx.strm, rx.strm, p);
      CompressedStep(k, tx.strm, pkts, i, tx.adler);
      Deliver(k, tx, rx, p);
      assert pkts[..i + 1] == pkts[..i] + [p];
      i := i + 1;
    }
    Done(k, tx.strm, pkts[i..], tx.adler);
  }

  lemma Done<C, D>(k: Codec<C, D>, c: C, pkts: seq<seq<byte>>, sum: nat)
    requires pkts == []
    ensures Adler32(sum, Compressed(k, c, pkts)) == sum
  {}

  lemma {:induction false} CompressedStep<C, D>(k: Codec<C, D>, c: C, pkts: seq<seq<byte>>, i: nat, sum: nat)
    requires i < |pkts|
    ensures var (c', z) := k.deflate(c, pkts[i]);
      Adler32(sum, Compressed(k, c, pkts[i..]))
        == Adler32(if z.None? then sum else Adler32(sum, pkts[i]), Compressed(k, c', pkts[i + 1..]))
  {
    hide Adler32;
    var (c', z) := k.deflate(c, pkts[i]);
    assert pkts[i..][1..] == pkts[i + 1..];
    var rest := Compressed(k, c', pkts[i + 1..]);
    AdlerAppend(sum, pkts[i], rest);
    assert [] + rest == rest;
  }

  lemma FrameIs(t: byte, payload: seq<byte>)
    ensures Frame(t, payload) == Header(t, |payload|) + payload
  {}

  /** One packet across. */
  method Deliver<C, D>(k: Codec<C, D>, tx: Sender<C>, rx: Receiver<D>, p: seq<byte>)
    requires OneStep(k, tx.strm, rx.strm, p) && |p| < 0x10000
    requires tx.adler == rx.adler < 0x1_0000_0000 && !rx.quit
    modifies tx, rx
    ensures rx.incoming == old(rx.incoming) + [p] && !rx.quit && k.inStep(tx.strm, rx.strm)
    ensures var (c', z) := k.deflate(old(tx.strm), p);
      && tx.strm == c'
      && tx.adler == rx.adler == (if z.None? then old(tx.adler) else Adler32(old(tx.adler), p)) < 0x1_0000_0000
  {
    hide Parse, Frame, LoadBe32, Be32, Adler32;
    var (c', z) := k.deflate(tx.strm, p);
    var frame := tx.Send(k, p);
    if z.None? {
      ParseFrame(AC_PKT_DATA, p);
    } else {
      var payload := z.value + Be32(tx.adler);
      ParseFrame(AC_PKT_COMPRESSED, payload);
      Be32RoundTrip(tx.adler);
      assert frame == Header(AC_PKT_COMPRESSED, |payload|) + payload by { FrameIs(AC_PKT_COMPRESSED, payload); }
      assert frame[8..|frame| - 4] == z.value && frame[|frame| - 4..] == Be32(tx.adler);
    }
    rx.Receive(k, frame, None);
  }
}
