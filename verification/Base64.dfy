/** Base64 (section 4 of RFC 4648), as written for proxy authentication. Text is a sequence of ASCII octets. */
module Base64 {
  import opened Common
  import opened TextBuf

  const PAD: byte := 61  // '='

  /** `b64_table`: the character for a six-bit digit. */
  function Digit(d: int): (c: byte)
    requires 0 <= d < 64
    ensures c != PAD && c != 0
  {
    if d < 26 then 65 + d else if d < 52 then 97 + d - 26 else if d < 62 then 48 + d - 52 else if d == 62 then 43 else 47
  }

  /** `b64_char`: the digit of a character, -1 if it has none. */
  function B64Char(c: byte): (d: int)
    ensures -1 <= d < 64
    ensures d >= 0 ==> Digit(d) == c && c != PAD
  {
    if 65 <= c <= 90 then c - 65
    else if 97 <= c <= 122 then c - 97 + 26
    else if 48 <= c <= 57 then c - 48 + 52
    else if c == 43 then 62
    else if c == 47 then 63
    else -1
  }

  lemma DigitOfDigit(d: int)
    requires 0 <= d < 64
    ensures B64Char(Digit(d)) == d
  {}

  /** The 64 characters in order. */
  lemma Alphabet(d: int)
    requires 0 <= d < 64
    ensures Digit(d) == ("ABCDEFGHIJKLMNOPQRSTUVWXYZ" + "abcdefghijklmnopqrstuvwxyz" + "0123456789+/")[d] as int
  {}

  // ---------- Three octets as four digits ----------

  type digit = d: int | 0 <= d < 64

  function D0(a: byte): digit { a / 4 }
  function D1(a: byte, b: byte): digit { a % 4 * 16 + b / 16 }
  function D2(b: byte, c: byte): digit { b % 16 * 4 + c / 64 }
  function D3(c: byte): digit { c % 64 }

  function O0(w: digit, x: digit): byte { w * 4 + x / 16 }
  function O1(x: digit, y: digit): byte { x % 16 * 16 + y / 4 }
  function O2(y: digit, z: digit): byte { y % 4 * 64 + z }

  /** Three octets and their four digits are one number of 24 bits, the first of them at the top. */
  lemma SameNumber(a: byte, b: byte, c: byte)
    ensures ((D0(a) * 64 + D1(a, b)) * 64 + D2(b, c)) * 64 + D3(c) == (a as int * 256 + b) * 256 + c
  {
    assert a as int == a as int / 4 * 4 + a as int % 4;
    assert b as int == b as int / 16 * 16 + b as int % 16;
    assert c as int == c as int / 64 * 64 + c as int % 64;
  }

  lemma SameGroup(a: byte, b: byte, c: byte)
    ensures O0(D0(a), D1(a, b)) == a && O1(D1(a, b), D2(b, c)) == b && O2(D2(b, c), D3(c)) == c
  {}

  lemma SameDigits(w: digit, x: digit, y: digit, z: digit)
    ensures D0(O0(w, x)) == w && D1(O0(w, x), O1(x, y)) == x && D2(O1(x, y), O2(y, z)) == y && D3(O2(y, z)) == z
  {}

  /** The digits of one or two octets: low bits that reach no octet come back as zero. */
  lemma LowBitsCleared(w: digit, x: digit, y: digit)
    ensures D0(O0(w, x)) == w && D1(O0(w, x), 0) == x / 16 * 16
    ensures D1(O0(w, x), O1(x, y)) == x && D2(O1(x, y), 0) == y / 4 * 4
  {}

  // ---------- Whole strings ----------

  /** The four characters for the first three octets of `b`, or for all of it if it is shorter. */
  function EncodedGroup(b: seq<byte>): (s: seq<byte>)
    requires b != []
    ensures |s| == 4
  {
    if |b| == 1 then [Digit(D0(b[0])), Digit(D1(b[0], 0)), 61, 61]
    else if |b| == 2 then [Digit(D0(b[0])), Digit(D1(b[0], b[1])), Digit(D2(b[1], 0)), 61]
    else [Digit(D0(b[0])), Digit(D1(b[0], b[1])), Digit(D2(b[1], b[2])), Digit(D3(b[2]))]
  }

  /** The number of groups for `n` octets. */
  function Groups(n: nat): (g: nat) { if n == 0 then 0 else if n <= 3 then 1 else 1 + Groups(n - 3) }

  function Encoded(b: seq<byte>): (s: seq<byte>)
    ensures |s| == 4 * Groups(|b|)
  {
    if b == [] then [] else EncodedGroup(b) + (if |b| > 3 then Encoded(b[3..]) else [])
  }

  /**
   What the first four characters stand for; padding is accepted only where the text ends.
   A group of fewer than three octets is the last one.
   */
  function DecodedGroup(s: seq<byte>): (r: Option<seq<byte>>)
    requires |s| >= 4
    ensures r.Some? ==> 1 <= |r.value| <= 3 && (|r.value| < 3 ==> |s| == 4)
  {
    var w, x, y, z := B64Char(s[0]), B64Char(s[1]), B64Char(s[2]), B64Char(s[3]);
    if w < 0 || x < 0 then None
    else if s[2] == PAD then (if s[3] == PAD && |s| == 4 then Some([O0(w, x)]) else None)
    else if y < 0 then None
    else if s[3] == PAD then (if |s| == 4 then Some([O0(w, x), O1(x, y)]) else None)
    else if z < 0 then None
    else Some([O0(w, x), O1(x, y), O2(y, z)])
  }

  lemma FourMore(n: nat)
    requires n != 0 && n % 4 == 0
    ensures n >= 4 && (n - 4) % 4 == 0
  {}

  function Decoded(s: seq<byte>): (r: Option<seq<byte>>)
    requires |s| % 4 == 0
  {
    if s == [] then Some([])
    else
      FourMore(|s|);
      var g := DecodedGroup(s);
      if g.None? || |s| == 4 then g
      else
        match Decoded(s[4..])
        case None => None
        case Some(rest) => Some(g.value + rest)
  }

  // ---------- Round trips ----------

  lemma DecodeEncodeGroup(b: seq<byte>, s: seq<byte>)
    requires b != [] && |s| >= 4 && s[..4] == EncodedGroup(b) && (|b| < 3 ==> |s| == 4)
    ensures DecodedGroup(s) == Some(if |b| > 3 then b[..3] else b)
  {
    hide Digit, B64Char, D0, D1, D2, D3, O0, O1, O2;
    var b0, b1, b2: byte := b[0], if |b| > 1 then b[1] else 0, if |b| > 2 then b[2] else 0;
    var g := EncodedGroup(b);
    assert s[0] == g[0] && s[1] == g[1] && s[2] == g[2] && s[3] == g[3];
    DigitOfDigit(D0(b0)); DigitOfDigit(D1(b0, b1)); DigitOfDigit(D2(b1, b2)); DigitOfDigit(D3(b2));
    SameGroup(b0, b1, b2);
    assert (if |b| > 3 then b[..3] else b) == if |b| == 1 then [b0] else if |b| == 2 then [b0, b1] else [b0, b1, b2];
  }

  /** Decoding undoes encoding for every byte string. */
  lemma {:induction false} DecodeEncode(b: seq<byte>)
    ensures Decoded(Encoded(b)) == Some(b)
  {
    hide EncodedGroup, DecodedGroup;
    if b != [] {
      var s := Encoded(b);
      DecodeEncodeGroup(b, s);
      if |b| > 3 {
        DecodeEncode(b[3..]);
        assert s[4..] == Encoded(b[3..]);
        assert b == b[..3] + b[3..];
      }
    }
  }

  function Value(c: byte): (d: digit)
  {
    if B64Char(c) < 0 then 0 else B64Char(c)
  }

  /** The bits of the last digit that reach no octet are zero. */
  predicate TrailingBitsZero(s: seq<byte>)
    requires |s| % 4 == 0
  {
    s != [] ==>
      if s[|s| - 2] == PAD then Value(s[|s| - 3]) % 16 == 0
      else if s[|s| - 1] == PAD then Value(s[|s| - 2]) % 4 == 0
      else true
  }

  lemma ValueDigit(c: byte, v: digit)
    requires B64Char(c) >= 0
    ensures Digit(v) == c <==> v == Value(c)
  {
    DigitOfDigit(v);
  }

  lemma EncodeDecodeGroup(s: seq<byte>)
    requires |s| >= 4 && DecodedGroup(s).Some?
    ensures |s| > 4 ==> EncodedGroup(DecodedGroup(s).value) == s[..4]
    ensures |s| == 4 ==> (EncodedGroup(DecodedGroup(s).value) == s <==> TrailingBitsZero(s))
  {
    hide Digit, B64Char, D0, D1, D2, D3, O0, O1, O2;
    var w, x, y, z := Value(s[0]), Value(s[1]), Value(s[2]), Value(s[3]);
    var g := EncodedGroup(DecodedGroup(s).value);
    ValueDigit(s[0], w);
    ValueDigit(s[1], x);
    if s[2] == PAD {
      LowBitsCleared(w, x, 0);
      ValueDigit(s[1], x / 16 * 16);
      assert g == s <==> g[0] == s[0] && g[1] == s[1] && g[2] == s[2] && g[3] == s[3];
    } else if s[3] == PAD {
      LowBitsCleared(w, x, y);
      ValueDigit(s[2], y / 4 * 4);
      assert g == s <==> g[0] == s[0] && g[1] == s[1] && g[2] == s[2] && g[3] == s[3];
    } else {
      SameDigits(w, x, y, z);
      ValueDigit(s[2], y);
      ValueDigit(s[3], z);
      assert g == s[..4];
      assert |s| == 4 ==> s[..4] == s;
    }
  }

  /** Encoding what an accepted text decodes to gives the text back exactly when its unused trailing bits are zero. */
  lemma {:induction false} EncodeDecode(s: seq<byte>)
    requires |s| % 4 == 0 && Decoded(s).Some?
    ensures Encoded(Decoded(s).value) == s <==> TrailingBitsZero(s)
  {
    hide EncodedGroup, DecodedGroup;
    if s != [] {
      EncodeDecodeGroup(s);
      if |s| > 4 {
        var g, rest := DecodedGroup(s).value, Decoded(s[4..]).value;
        EncodeDecode(s[4..]);
        DecodedNonEmpty(s[4..]);
        var b := g + rest;
        assert b[3..] == rest;
        GroupIsLocal(g, b);
        assert Encoded(b) == s[..4] + Encoded(rest);
        assert s == s[..4] + s[4..];
        assert Encoded(b)[4..] == Encoded(rest);
      }
    }
  }

  lemma GroupIsLocal(g: seq<byte>, b: seq<byte>)
    requires |g| == 3 && g <= b
    ensures EncodedGroup(b) == EncodedGroup(g)
  {}

  lemma {:induction false} DecodedNonEmpty(s: seq<byte>)
    requires s != [] && |s| % 4 == 0 && Decoded(s).Some?
    ensures Decoded(s).value != []
  {}

  // ---------- The decoder ----------

  /** A decoded prefix followed by whatever the rest decodes to. */
  ghost function Extend(prefix: seq<byte>, r: Option<seq<byte>>): Option<seq<byte>>
  {
    match r case None => None case Some(rest) => Some(prefix + rest)
  }

  lemma {:induction false} DecodedStep(s: seq<byte>, prefix: seq<byte>)
    requires s != [] && |s| % 4 == 0
    ensures Extend(prefix, Decoded(s)) ==
      match DecodedGroup(s)
      case None => None
      case Some(g) => Extend(prefix + g, Decoded(s[4..]))
  {
    hide DecodedGroup;
    if DecodedGroup(s).Some? && Decoded(s[4..]).Some? {
      var g, rest := DecodedGroup(s).value, Decoded(s[4..]).value;
      assert prefix + (g + rest) == prefix + g + rest;
      assert g + [] == g;
    }
  }

  /** The body of the decoder's loop: the octets of one group, their number, or -1. */
  method DecodeFour(s: seq<byte>, out: array<byte>, len: nat) returns (got: int)
    requires |s| >= 4 && len + 3 <= out.Length
    modifies out
    ensures got < 0 <==> DecodedGroup(s).None?
    ensures got >= 0 ==> got <= 3 && out[..len + got] == old(out[..len]) + DecodedGroup(s).value
  {
    hide B64Char;
    var b0, b1 := B64Char(s[0]), B64Char(s[1]);
    if b0 < 0 || b1 < 0 {
      return -1;
    }
    out[len] := b0 * 4 + b1 / 16;
    assert out[..len + 1] == old(out[..len]) + [O0(b0, b1)];
    if s[2] == PAD {
      if s[3] != PAD || |s| != 4 {
        return -1;
      }
      return 1;
    }
    var b2 := B64Char(s[2]);
    if b2 < 0 {
      return -1;
    }
    out[len + 1] := b1 % 16 * 16 + b2 / 4;
    assert out[..len + 2] == old(out[..len]) + [O0(b0, b1), O1(b1, b2)];
    if s[3] == PAD {
      if |s| != 4 {
        return -1;
      }
      return 2;
    }
    var b3 := B64Char(s[3]);
    if b3 < 0 {
      return -1;
    }
    out[len + 2] := b2 % 4 * 64 + b3;
    assert out[..len + 3] == old(out[..len]) + [O0(b0, b1), O1(b1, b2), O2(b2, b3)];
    return 3;
  }

  /** `in_` holds the characters of a C string; a negative result is an error. */
  method Base64Decode(in_: seq<byte>) returns (r: int, out: array<byte>)
    ensures |in_| % 4 != 0 ==> r == -22
    ensures |in_| % 4 == 0 ==> (r >= 0 <==> Decoded(in_).Some?)
    ensures |in_| % 4 == 0 && r >= 0 ==> r <= out.Length && out[..r] == Decoded(in_).value
    ensures fresh(out)
  {
    hide Decoded, DecodedGroup;
    var n := |in_|;
    if n % 4 != 0 {
      return EINVAL, new byte[0];
    }
    out := new byte[n * 3 / 4];
    var len, i := 0, 0;
    ghost var whole := Decoded(in_);
    assert in_[0..] == in_;
    assert whole.Some? ==> out[..0] + whole.value == whole.value;
    while i < n
      invariant 0 <= i <= n && i % 4 == 0 && len == i / 4 * 3
      invariant whole == Extend(out[..len], Decoded(in_[i..]))
    {
      DecodedStep(in_[i..], out[..len]);
      assert in_[i..][4..] == in_[i + 4..];
      var got := DecodeFour(in_[i..], out, len);
      if got < 0 {
        return EINVAL, out;
      }
      len, i := len + got, i + 4;
      if got < 3 {
        break;
      }
    }
    AtTheEnd(in_[i..], out[..len]);
    return len, out;
  }

  lemma {:induction false} AtTheEnd(s: seq<byte>, prefix: seq<byte>)
    requires s == []
    ensures Extend(prefix, Decoded(s)) == Some(prefix)
  {
    assert prefix + [] == prefix;
  }

  // ---------- The encoder ----------

  /** The body of the encoder's loop: one group. */
  method PutGroup(buf: Buf, in_: seq<byte>)
    requires buf.Valid() && in_ != [] && buf.pos + 4 < buf.bufLen
    modifies buf`pos, buf.data
    ensures buf.Valid() && buf.pos == old(buf.pos) + 4
    ensures buf.Text() == old(buf.Text()) + EncodedGroup(in_)
  {
    hide Digit;
    var len := |in_|;
    ghost var text := buf.Text();
    var a := in_[0];
    buf.Put(Digit(a / 4));
    var hibits := a % 4 * 16;
    if len == 1 {
      assert hibits == D1(a, 0);
      buf.Put(Digit(hibits));
      buf.Put(PAD);
      buf.Put(PAD);
      Four(text, Digit(D0(a)), Digit(hibits), PAD, PAD);
      return;
    }
    var b := in_[1];
    assert hibits + b / 16 == D1(a, b);
    buf.Put(Digit(hibits + b / 16));
    hibits := b % 16 * 4;
    if len == 2 {
      assert hibits == D2(b, 0);
      buf.Put(Digit(hibits));
      buf.Put(PAD);
      Four(text, Digit(D0(a)), Digit(D1(a, b)), Digit(hibits), PAD);
      return;
    }
    var c := in_[2];
    assert hibits + c / 64 == D2(b, c);
    buf.Put(Digit(hibits + c / 64));
    buf.Put(Digit(c % 64));
    Four(text, Digit(D0(a)), Digit(D1(a, b)), Digit(D2(b, c)), Digit(D3(c)));
  }

  /** What the encoder reserves covers what it writes and the NUL. */
  lemma {:induction false} ReserveCovers(n: nat)
    ensures 4 * Groups(n) < 4 * (n + 2) / 3 + 1
  {
    if n > 3 {
      ReserveCovers(n - 3);
      assert 4 * (n + 2) / 3 == 4 * (n - 3 + 2) / 3 + 4;
    }
  }

  /** The text still to come after `i` octets, peeled by one group. */
  lemma {:induction false} EncodedStep(bytes: seq<byte>, i: nat, text: seq<byte>)
    requires i <= |bytes|
    ensures i == |bytes| ==> text + Encoded(bytes[i..]) == text
    ensures i < |bytes| ==>
      text + Encoded(bytes[i..]) == text + EncodedGroup(bytes[i..]) + Encoded(bytes[if i + 3 <= |bytes| then i + 3 else |bytes|..])
  {
    hide EncodedGroup;
    if i + 3 <= |bytes| {
      assert bytes[i..][3..] == bytes[i + 3..];
    }
    if i < |bytes| {
      var tail := Encoded(bytes[if i + 3 <= |bytes| then i + 3 else |bytes|..]);
      assert text + (EncodedGroup(bytes[i..]) + tail) == text + EncodedGroup(bytes[i..]) + tail;
    }
  }

  /** The encoder's loop: it writes no more than the groups it was given room for. */
  method PutGroups(buf: Buf, bytes: seq<byte>)
    requires buf.Valid() && buf.pos + 4 * Groups(|bytes|) < buf.bufLen
    modifies buf`pos, buf.data
    ensures buf.Valid() && buf.pos < buf.bufLen
    ensures buf.Text() == old(buf.Text()) + Encoded(bytes)
  {
    hide EncodedGroup, Encoded, Chunks;
    ghost var before := buf.Text();
    var len, i := |bytes|, 0;
    assert bytes[0..] == bytes;
    while len > 0
      invariant 0 <= len && i + len == |bytes|
      invariant buf.Valid() && buf.pos + 4 * Groups(len) < buf.bufLen
      invariant buf.Text() + Encoded(bytes[i..]) == before + Encoded(bytes)
    {
      EncodedStep(bytes, i, buf.Text());
      PutGroup(buf, bytes[i..]);
      if len < 3 {
        i, len := |bytes|, 0;
        break;
      }
      i := i + 3;
      len := len - 3;
    }
    EncodedStep(bytes, i, buf.Text());
  }

  /** The space reserved up front is enough for all digits and the final NUL, so the buffer keeps its shape. */
  method BufAppendBase64(buf: Buf, bytes: seq<byte>)
    requires buf.Valid()
    modifies buf, buf.data
    ensures buf.Valid()
    ensures buf.data == old(buf.data) || fresh(buf.data)
    ensures buf.error == if old(buf.error) != 0 then old(buf.error)
                         else if Chunks(old(buf.pos) + 4 * (|bytes| + 2) / 3 + 1) > 131072 then -7 else 0
    ensures buf.Text() == if buf.error != 0 then old(buf.Text()) else old(buf.Text()) + Encoded(bytes)
    ensures buf.error == 0 ==> buf.pos < buf.bufLen && buf.data[buf.pos] == 0
  {
    hide EncodedGroup, Encoded, Chunks;
    if buf.error != 0 {
      return;
    }
    var need := 4 * (|bytes| + 2) / 3 + 1;
    var r := buf.EnsureSpace(need);
    if r != 0 {
      return;
    }
    assert buf.pos + 4 * Groups(|bytes|) < buf.bufLen by { ReserveCovers(|bytes|); }
    PutGroups(buf, bytes);
    ghost var text := buf.Text();
    buf.data[buf.pos] := 0;
    assert buf.Text() == text;
  }
}
