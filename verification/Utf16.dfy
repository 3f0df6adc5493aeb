/** Turning a UTF-8 C string into UTF-16LE (section 3 of RFC 3629, section 2.1 of RFC 2781). */
module Utf16 {
  import opened Common
  import opened TextBuf

  predicate IsCode(c: int) { 0 <= c <= 0x10FFFF }
  predicate IsSurrogate(c: int) { 0xD800 <= c < 0xE000 }

  // ---------- The two encodings ----------

  function Utf8(c: int): (s: seq<byte>)
    requires IsCode(c)
    ensures 1 <= |s| <= 4
  {
    if c < 0x80 then [c]
    else if c < 0x800 then [0xC0 + c / 64, 0x80 + c % 64]
    else if c < 0x10000 then [0xE0 + c / 64 / 64, 0x80 + c / 64 % 64, 0x80 + c % 64]
    else [0xF0 + c / 64 / 64 / 64, 0x80 + c / 64 / 64 % 64, 0x80 + c / 64 % 64, 0x80 + c % 64]
  }

  predicate Codes(cs: seq<int>) { forall i :: 0 <= i < |cs| ==> IsCode(cs[i]) }

  function Utf8All(cs: seq<int>): (s: seq<byte>)
    requires Codes(cs)
  {
    if cs == [] then [] else Utf8(cs[0]) + Utf8All(cs[1..])
  }

  type unit16 = w: int | 0 <= w < 0x10000

  function UnitLe(w: unit16): (s: seq<byte>) { [w % 256, w / 256] }

  function Utf16(c: int): (s: seq<byte>)
    requires IsCode(c)
    ensures 2 <= |s| <= 4
  {
    if c < 0x10000 then UnitLe(c)
    else UnitLe(0xD800 + (c - 0x10000) / 1024) + UnitLe(0xDC00 + (c - 0x10000) % 1024)
  }

  function Utf16All(cs: seq<int>): (s: seq<byte>)
    requires Codes(cs)
  {
    if cs == [] then [] else Utf16(cs[0]) + Utf16All(cs[1..])
  }

  /** A strict reader of UTF-16LE: surrogates only as a high one followed by a low one. */
  function Utf16Decode(s: seq<byte>): (r: Option<seq<int>>)
  {
    if s == [] then Some([])
    else if |s| < 2 then None
    else
      var w: int := s[0] as int + 256 * s[1] as int;
      if !IsSurrogate(w) then
        var rest := Utf16Decode(s[2..]);
        if rest.None? then None else Some([w] + rest.value)
      else if |s| < 4 then None
      else
        var v: int := s[2] as int + 256 * s[3] as int;
        if w < 0xDC00 <= v < 0xE000 then
          var rest := Utf16Decode(s[4..]);
          if rest.None? then None else Some([0x10000 + (w - 0xD800) * 1024 + (v - 0xDC00)] + rest.value)
        else None
  }

  // ---------- Reading UTF-8 ----------

  predicate IsTail(b: byte) { 0x80 <= b < 0xC0 }

  /** The code point at the head of `s`, by the byte ranges of RFC 3629, surrogates included. */
  function FirstChar(s: seq<byte>): (r: Option<int>)
    ensures r.Some? ==> IsCode(r.value)
  {
    if s == [] then None
    else if s[0] < 0x80 then Some(s[0] as int)
    else if 0xC2 <= s[0] < 0xE0 then
      if |s| >= 2 && IsTail(s[1]) then Some((s[0] as int - 0xC0) * 64 + (s[1] - 0x80)) else None
    else if 0xE0 <= s[0] < 0xF0 then
      if |s| >= 3 && IsTail(s[1]) && IsTail(s[2]) && (s[0] == 0xE0 ==> s[1] >= 0xA0) then
        Some(((s[0] as int - 0xE0) * 64 + (s[1] - 0x80)) * 64 + (s[2] - 0x80))
      else None
    else if 0xF0 <= s[0] < 0xF5 then
      if |s| >= 4 && IsTail(s[1]) && IsTail(s[2]) && IsTail(s[3])
         && (s[0] == 0xF0 ==> s[1] >= 0x90) && (s[0] == 0xF4 ==> s[1] < 0x90) then
        Some((((s[0] as int - 0xF0) * 64 + (s[1] - 0x80)) * 64 + (s[2] - 0x80)) * 64 + (s[3] - 0x80))
      else None
    else None
  }

  /** The code points of a well-formed text. */
  function Utf8Decode(s: seq<byte>): (r: Option<seq<int>>)
    ensures r.Some? ==> Codes(r.value)
    decreases |s|
  {
    if s == [] then Some([])
    else
      var c := FirstChar(s);
      if c.None? || |Utf8(c.value)| > |s| then None
      else
        var rest := Utf8Decode(s[|Utf8(c.value)|..]);
        if rest.None? then None else Some([c.value] + rest.value)
  }

  /** The code points before the first octet that starts no character. */
  function GoodPrefix(s: seq<byte>): (cs: seq<int>)
    ensures Codes(cs)
    decreases |s|
  {
    if s == [] then []
    else
      var c := FirstChar(s);
      if c.None? || |Utf8(c.value)| > |s| then [] else [c.value] + GoodPrefix(s[|Utf8(c.value)|..])
  }

  predicate WellFormed(s: seq<byte>) { Utf8Decode(s).Some? }

  lemma {:induction false} GoodPrefixWhole(s: seq<byte>)
    requires WellFormed(s)
    ensures Utf8Decode(s).value == GoodPrefix(s)
    decreases |s|
  {
    hide FirstChar, Utf8;
    if s != [] {
      GoodPrefixWhole(s[|Utf8(FirstChar(s).value)|..]);
    }
  }

  /** What is read stands at the head of the text, in its only encoding. */
  lemma ReadIsEncoding(s: seq<byte>)
    requires FirstChar(s).Some?
    ensures Utf8(FirstChar(s).value) <= s
  {
    var c := FirstChar(s).value;
    if s[0] < 0x80 {
    } else if s[0] < 0xE0 {
      Split64(s[0] - 0xC0, s[1] - 0x80, c);
    } else if s[0] < 0xF0 {
      Split64((s[0] as int - 0xE0) * 64 + (s[1] - 0x80), s[2] - 0x80, c);
      Split64(s[0] - 0xE0, s[1] - 0x80, c / 64);
    } else {
      Split64(((s[0] as int - 0xF0) * 64 + (s[1] - 0x80)) * 64 + (s[2] - 0x80), s[3] - 0x80, c);
      Split64((s[0] as int - 0xF0) * 64 + (s[1] - 0x80), s[2] - 0x80, c / 64);
      Split64(s[0] - 0xF0, s[1] - 0x80, c / 64 / 64);
    }
  }

  lemma Split64(q: int, r: int, c: int)
    requires 0 <= r < 64 && c == q * 64 + r
    ensures c / 64 == q && c % 64 == r
  {}

  lemma EncodingIsRead(s: seq<byte>, c: int)
    requires IsCode(c) && Utf8(c) <= s
    ensures FirstChar(s) == Some(c)
  {
    var u := Utf8(c);
    assert u[0] == s[0] && (|u| > 1 ==> u[1] == s[1]) && (|u| > 2 ==> u[2] == s[2]) && (|u| > 3 ==> u[3] == s[3]);
    if c < 0x800 {
    } else if c < 0x10000 {
      assert c == (c / 64 / 64 * 64 + c / 64 % 64) * 64 + c % 64;
    } else {
      assert c == ((c / 64 / 64 / 64 * 64 + c / 64 / 64 % 64) * 64 + c / 64 % 64) * 64 + c % 64;
    }
  }

  /** The ranges are right: `c` is read at the head of `s` exactly when its encoding stands there. */
  lemma FirstCharIff(s: seq<byte>, c: int)
    requires IsCode(c)
    ensures FirstChar(s) == Some(c) <==> Utf8(c) <= s
  {
    hide FirstChar, Utf8;
    if FirstChar(s) == Some(c) {
      ReadIsEncoding(s);
    }
    if Utf8(c) <= s {
      EncodingIsRead(s, c);
    }
  }

  /** Reading and writing UTF-8 are inverse: exactly the encodings are accepted, each in one way. */
  lemma {:induction false} Utf8RoundTrip(s: seq<byte>, cs: seq<int>)
    requires Codes(cs)
    ensures Utf8Decode(s) == Some(cs) <==> Utf8All(cs) == s
    decreases |cs|
  {
    hide FirstChar, Utf8;
    if s == [] || cs == [] {
      if cs != [] { assert |Utf8All(cs)| >= |Utf8(cs[0])|; }
    } else {
      var c, u := cs[0], Utf8(cs[0]);
      FirstCharIff(s, c);
      if u <= s {
        Utf8RoundTrip(s[|u|..], cs[1..]);
        assert s == u + s[|u|..];
        assert [c] + cs[1..] == cs;
        if Utf8All(cs) == s {
          assert s[|u|..] == Utf8All(cs[1..]);
        }
      } else {
        assert u <= Utf8All(cs);
      }
    }
  }

  // ---------- UTF-16 gives the text back ----------

  lemma UnitsBack(c: int)
    requires IsCode(c)
    ensures var s := Utf16(c);
      if c < 0x10000 then s[0] as int + 256 * s[1] as int == c
      else
        var w, v := s[0] as int + 256 * s[1] as int, s[2] as int + 256 * s[3] as int;
        && 0xD800 <= w < 0xDC00 <= v < 0xE000
        && 0x10000 + (w - 0xD800) * 1024 + (v - 0xDC00) == c
  {}

  /** What is appended decodes to the same code points exactly when none of them is a surrogate. */
  lemma {:induction false} Utf16RoundTrip(cs: seq<int>)
    requires Codes(cs)
    ensures Utf16Decode(Utf16All(cs)) == Some(cs) <==> forall i :: 0 <= i < |cs| ==> !IsSurrogate(cs[i])
  {
    hide Utf16;
    if cs != [] {
      var c, u, s := cs[0], Utf16(cs[0]), Utf16All(cs);
      UnitsBack(c);
      UnitCount(c);
      Utf16RoundTrip(cs[1..]);
      assert s[|u|..] == Utf16All(cs[1..]);
      assert forall i :: 0 <= i < |u| ==> s[i] == u[i];
      assert [c] + cs[1..] == cs;
      assert forall i :: 1 <= i < |cs| ==> cs[i] == cs[1..][i - 1];
      if IsSurrogate(c) && Utf16Decode(s).Some? {
        assert Utf16Decode(s).value[0] >= 0x10000;
      }
    }
  }

  lemma UnitCount(c: int)
    requires IsCode(c)
    ensures |Utf16(c)| == if c < 0x10000 then 2 else 4
  {}

  // ---------- The conversion ----------

  /** The octets of a C string, up to its first NUL. */
  ghost predicate IsCString(mem: seq<byte>, n: nat)
  {
    n < |mem| && mem[n] == 0 && forall i :: 0 <= i < n ==> mem[i] != 0
  }

  /** One lead octet: the bits it holds, how many tails follow, and the least value that needs them. */
  method Lead(c: byte) returns (utfchar: int, nrExtra: nat, min: int, ok: bool)
    ensures ok <==> c < 128 || 0xC0 <= c < 0xF8
    ensures ok && c < 128 ==> utfchar == c as int && nrExtra == 0 && min == 0
    ensures ok && 0xC0 <= c < 0xE0 ==> utfchar == c as int - 0xC0 && nrExtra == 1 && min == 0x80
    ensures ok && 0xE0 <= c < 0xF0 ==> utfchar == c as int - 0xE0 && nrExtra == 2 && min == 0x800
    ensures ok && 0xF0 <= c < 0xF8 ==> utfchar == c as int - 0xF0 && nrExtra == 3 && min == 0x10000
  {
    if c < 128 {
      return c as int, 0, 0, true;
    } else if c / 32 == 0xC0 / 32 {
      return c as int % 32, 1, 0x80, true;
    } else if c / 16 == 0xE0 / 16 {
      return c as int % 16, 2, 0x800, true;
    } else if c / 8 == 0xF0 / 8 {
      return c as int % 8, 3, 0x10000, true;
    }
    return 0, 0, 0, false;
  }

  /** The value built from the lead bits `v` and the tails `bs`. */
  function Accumulate(v: int, bs: seq<byte>): int
  {
    if bs == [] then v else Accumulate(v, bs[..|bs| - 1]) * 64 + (bs[|bs| - 1] as int - 0x80)
  }

  predicate Tails(s: seq<byte>, n: nat) { n < |s| && forall k :: 1 <= k <= n ==> IsTail(s[k]) }

  /** The checks made after the tails accept exactly the first character of the text. */
  lemma {:induction false} AcceptedIffFirstChar(s: seq<byte>, v: int, n: nat, min: int)
    requires s != [] && n <= 3
    requires n == 0 ==> s[0] < 128 && v == s[0] as int && min == 0
    requires n == 1 ==> 0xC0 <= s[0] < 0xE0 && v == s[0] as int - 0xC0 && min == 0x80
    requires n == 2 ==> 0xE0 <= s[0] < 0xF0 && v == s[0] as int - 0xE0 && min == 0x800
    requires n == 3 ==> 0xF0 <= s[0] < 0xF8 && v == s[0] as int - 0xF0 && min == 0x10000
    ensures !Tails(s, n) ==> FirstChar(s).None?
    ensures Tails(s, n) ==>
      var u := Accumulate(v, s[1..n + 1]);
      && u >= 0
      && (if min <= u <= 0x10FFFF then FirstChar(s) == Some(u) && |Utf8(u)| == n + 1 else FirstChar(s).None?)
  {
    if Tails(s, n) {
      AccumulateSteps(v, s[1..n + 1]);
    }
  }

  lemma AccumulateSteps(v: int, bs: seq<byte>)
    requires |bs| <= 3
    ensures |bs| == 0 ==> Accumulate(v, bs) == v
    ensures |bs| == 1 ==> Accumulate(v, bs) == v * 64 + (bs[0] as int - 0x80)
    ensures |bs| == 2 ==> Accumulate(v, bs) == (v * 64 + (bs[0] as int - 0x80)) * 64 + (bs[1] as int - 0x80)
    ensures |bs| == 3 ==>
      Accumulate(v, bs) == ((v * 64 + (bs[0] as int - 0x80)) * 64 + (bs[1] as int - 0x80)) * 64 + (bs[2] as int - 0x80)
  {
    if |bs| >= 2 {
      AccumulateSteps(v, bs[..|bs| - 1]);
    }
  }

  /** Read one character of the C string at `i`; never looks past the terminator at `n`. */
  method ReadChar(mem: seq<byte>, n: nat, i: nat) returns (utfchar: int, next: nat, ok: bool)
    requires IsCString(mem, n) && i < n
    ensures ok <==> FirstChar(mem[i..n]).Some?
    ensures ok ==> FirstChar(mem[i..n]) == Some(utfchar) && next == i + |Utf8(utfchar)| <= n
  {
    hide FirstChar, Utf8, Accumulate;
    var s := mem[i..n];
    var nrExtra, min;
    utfchar, nrExtra, min, ok := Lead(mem[i]);
    next := i + 1;
    if !ok {
      NoLead(s);
      return;
    }
    ghost var v := utfchar;
    AcceptedIffFirstChar(s, v, nrExtra, min);
    AccumulateNil(v);
    var k := 0;
    while k < nrExtra
      invariant 0 <= k <= nrExtra && next == i + 1 + k <= n
      invariant forall j :: 1 <= j <= k ==> IsTail(s[j])
      invariant utfchar == Accumulate(v, s[1..k + 1])
    {
      var c := mem[next];
      next := next + 1;
      if c / 64 != 0x80 / 64 {
        assert next <= n ==> s[k + 1] == c;
        return utfchar, next, false;
      }
      assert s[k + 1] == c;
      AccumulateSnoc(v, s[1..k + 1], c);
      assert s[1..k + 2] == s[1..k + 1] + [c];
      utfchar := utfchar * 64 + c as int % 64;
      k := k + 1;
    }
    ok := !(utfchar > 0x10FFFF || utfchar < min);
  }

  lemma NoLead(s: seq<byte>)
    requires s != [] && !(s[0] < 128 || 0xC0 <= s[0] < 0xF8)
    ensures FirstChar(s).None?
  {}

  lemma AccumulateNil(v: int)
    ensures forall s: seq<byte> :: s == [] ==> Accumulate(v, s) == v
  {}

  lemma AccumulateSnoc(v: int, bs: seq<byte>, c: byte)
    ensures Accumulate(v, bs + [c]) == Accumulate(v, bs) * 64 + (c as int - 0x80)
  {
    assert (bs + [c])[..|bs|] == bs;
  }

  /** Append the UTF-16LE form of one code point; negative if there is no room. */
  method AppendUnits(buf: Buf, c: int) returns (r: int)
    requires buf.Valid() && IsCode(c)
    modifies buf, buf.data
    ensures buf.Valid()
    ensures buf.data == old(buf.data) || fresh(buf.data)
    ensures r == |Utf16(c)| || r == -12
    ensures r >= 0 ==> buf.Text() == old(buf.Text()) + Utf16(c) && buf.error == old(buf.error)
    ensures r < 0 ==> buf.Text() == old(buf.Text()) && buf.error != 0
    ensures Chunks(old(buf.pos) + |Utf16(c)|) <= 131072 && old(buf.error) == 0 ==> r >= 0
    ensures Chunks(old(buf.pos) + |Utf16(c)|) <= old(buf.bufLen) ==>
      buf.data == old(buf.data) && buf.bufLen == old(buf.bufLen) && r >= 0
  {
    hide Chunks;
    var e := buf.EnsureSpace(if c >= 0x10000 then 4 else 2);
    if e != 0 {
      return ENOMEM;
    }
    if c >= 0x10000 {
      PutPair(buf, c);
      return 4;
    } else {
      PutUnit(buf, c);
      return 2;
    }
  }

  method PutPair(buf: Buf, c: int)
    requires buf.Valid() && 0x10000 <= c <= 0x10FFFF && buf.pos + 4 <= buf.bufLen
    modifies buf`pos, buf.data
    ensures buf.Valid() && buf.Text() == old(buf.Text()) + Utf16(c)
  {
    PairOctets(c);
    hide Utf16, buf.Valid;
    var u := c - 0x10000;
    ghost var text := buf.Text();
    buf.Put(u / 1024 % 256);
    buf.Put(0xD8 + u / 262144 % 4);
    buf.Put(u % 256);
    buf.Put(0xDC + u / 256 % 4);
    Four(text, u / 1024 % 256, 0xD8 + u / 262144 % 4, u % 256, 0xDC + u / 256 % 4);
  }

  method PutUnit(buf: Buf, c: int)
    requires buf.Valid() && 0 <= c < 0x10000 && buf.pos + 2 <= buf.bufLen
    modifies buf`pos, buf.data
    ensures buf.Valid() && buf.Text() == old(buf.Text()) + Utf16(c)
  {
    ghost var text := buf.Text();
    buf.Put(c % 256);
    buf.Put(c / 256);
    assert text + [c % 256] + [c / 256] == text + Utf16(c);
  }

  lemma PairOctets(c: int)
    requires 0x10000 <= c <= 0x10FFFF
    ensures var u := c - 0x10000;
      Utf16(c) == [u / 1024 % 256, 0xD8 + u / 262144 % 4, u % 256, 0xDC + u / 256 % 4]
  {
    var u := c - 0x10000;
    UnitOctets(0xD8, u / 1024);
    UnitOctets(0xDC, u % 1024);
    LowTenBits(u);
  }

  lemma UnitOctets(base: int, q: int)
    requires 0 <= base < 252 && 0 <= q < 1024
    ensures UnitLe(base * 256 + q) == [q % 256, base + q / 256]
  {}

  lemma LowTenBits(u: int)
    requires 0 <= u < 0x100000
    ensures u / 1024 / 256 == u / 262144 % 4
    ensures u % 1024 % 256 == u % 256
    ensures u % 1024 / 256 == u / 256 % 4
  {
    var q, r := u / 1024, u % 1024;
    assert u / 262144 == q / 256;
    assert u == q * 1024 + r;
    assert u / 256 == q * 4 + r / 256;
  }

  /** What the conversion of the C string that ends at `n` appends. */
  function Converted(mem: seq<byte>, n: nat): (s: seq<byte>)
    requires n <= |mem|
  {
    Utf16All(GoodPrefix(mem[..n]))
  }

  /**
   Convert the C string that ends at `n`. A result of zero or more is the number of octets appended, for exactly the well-formed
   texts that fit. EINVAL rejects exactly the others that fit, after their well-formed beginning has been appended and
   without recording an error in the buffer.
   */
  method BufAppendUtf16le(buf: Buf, mem: seq<byte>, n: nat) returns (r: int)
    requires buf.Valid() && IsCString(mem, n)
    modifies buf, buf.data
    ensures buf.Valid()
    ensures buf.data == old(buf.data) || fresh(buf.data)
    ensures r >= 0 || r == -22 || r == -12
    ensures r != -12 ==>
      && buf.Text() == old(buf.Text()) + Converted(mem, n) && buf.error == old(buf.error)
      && r == if WellFormed(mem[..n]) then |Converted(mem, n)| else -22
    ensures r == -12 ==> buf.error != 0 && old(buf.Text()) <= buf.Text()
    ensures old(buf.error) == 0 ==> (r == -12 <==> Chunks(old(buf.pos) + |Converted(mem, n)|) > 131072)
    ensures buf.pos <= old(buf.pos) + 2 * n
    ensures old(buf.pos) + 2 * n <= old(buf.bufLen) ==> buf.data == old(buf.data) && buf.bufLen == old(buf.bufLen) && r != -12
  {
    hide Chunks, FirstChar, Utf8, Utf16, Utf8Decode, GoodPrefix, Utf16All;
    var i, len := 0, 0;
    ghost var before, added := buf.Text(), Converted(mem, n);
    assert mem[0..n] == mem[..n];
    while i < n
      invariant 0 <= i <= n && 0 <= len <= 2 * i
      invariant buf.Valid() && buf.error == old(buf.error)
      invariant buf.data == old(buf.data) || fresh(buf.data)
      invariant before <= buf.Text() && buf.pos == |before| + len
      invariant |before| + 2 * n <= old(buf.bufLen) ==> buf.data == old(buf.data) && buf.bufLen == old(buf.bufLen)
      invariant buf.Text() + Utf16All(GoodPrefix(mem[i..n])) == before + added
      invariant WellFormed(mem[i..n]) <==> WellFormed(mem[..n])
      decreases n - i
    {
      var c, next, ok := ReadChar(mem, n, i);
      PrefixStep(buf.Text(), mem[i..n]);
      if !ok {
        FitsAlready(buf);
        return EINVAL;
      }
      assert mem[i..n][next - i..] == mem[next..n];
      AtMostTwice(c);
      if buf.pos + |Utf16(c)| <= buf.bufLen {
        ChunkFits(buf.pos + |Utf16(c)|, buf.bufLen);
      }
      ghost var rest := Utf16All(GoodPrefix(mem[next..n]));
      assert |buf.Text() + Utf16(c) + rest| == |before + added|;
      ChunksMonotone(buf.pos + |Utf16(c)|, |before| + |added|);
      var put := AppendUnits(buf, c);
      if put < 0 {
        return ENOMEM;
      }
      i, len := next, len + put;
    }
    PrefixStep(buf.Text(), mem[i..n]);
    FitsAlready(buf);
    return len;
  }

  lemma FitsAlready(buf: Buf)
    requires buf.Valid()
    ensures Chunks(|buf.Text()|) <= 131072
  {
    ChunkFits(buf.pos, MAX_BUF_LEN);
  }

  lemma AtMostTwice(c: int)
    requires IsCode(c)
    ensures |Utf16(c)| <= 2 * |Utf8(c)|
  {}

  lemma ChunksMonotone(a: nat, b: nat)
    requires a <= b
    ensures Chunks(a) <= Chunks(b)
  {}

  /** How much of the text is still to be converted after one more character. */
  lemma {:induction false} PrefixStep(text: seq<byte>, s: seq<byte>)
    ensures s == [] ==> text + Utf16All(GoodPrefix(s)) == text && WellFormed(s)
    ensures s != [] && FirstChar(s).None? ==> text + Utf16All(GoodPrefix(s)) == text && !WellFormed(s)
    ensures s != [] && FirstChar(s).Some? && |Utf8(FirstChar(s).value)| <= |s| ==>
      var c := FirstChar(s).value;
      var rest := s[|Utf8(c)|..];
      && text + Utf16All(GoodPrefix(s)) == text + Utf16(c) + Utf16All(GoodPrefix(rest))
      && (WellFormed(s) <==> WellFormed(rest))
  {
    hide FirstChar, Utf8, Utf16;
    if s != [] && FirstChar(s).Some? && |Utf8(FirstChar(s).value)| <= |s| {
      var c := FirstChar(s).value;
      var rest := GoodPrefix(s[|Utf8(c)|..]);
      assert ([c] + rest)[1..] == rest;
      assert text + (Utf16(c) + Utf16All(rest)) == text + Utf16(c) + Utf16All(rest);
    }
  }
}
