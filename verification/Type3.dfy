/**
 The layout of the NTLM type-3 message (section 2.2.1.3 of MS-NLMP): a 64-octet head with one
 descriptor per field, followed by the fields.
 */
module Type3 {
  import opened Common
  import opened TextBuf
  import opened Utf16

  const BASE_SIZE := 64
  const LM_RESP_OFFSET := 12
  const NT_RESP_OFFSET := 20
  const DOMAIN_OFFSET := 28
  const USER_OFFSET := 36
  const HOST_OFFSET := 44
  const FLAGS_OFFSET := 60

  /** The head before anything is filled in: signature, message type 3 and flags. */
  function ResponseBase(): (s: seq<byte>)
    ensures |s| == BASE_SIZE
  {
    [78, 84, 76, 77, 83, 83, 80, 0, 3, 0, 0, 0] + seq(48, _ => 0) + [0x82, 1, 0, 0]
  }

  const UNKNOWN: seq<byte> := [85, 78, 75, 78, 79, 87, 78]

  // ---------- Reading a message ----------

  function Le16At(s: seq<byte>, off: nat): (v: int)
    requires off + 2 <= |s|
  {
    s[off] as int + 256 * s[off + 1] as int
  }

  function Le32At(s: seq<byte>, off: nat): (v: int)
    requires off + 4 <= |s|
  {
    Le16At(s, off) + 0x10000 * Le16At(s, off + 2)
  }

  /** What a receiver that follows the descriptor at `off` reads. */
  function ReadField(s: seq<byte>, off: nat): (r: Option<seq<byte>>)
    requires off + 8 <= |s|
  {
    var len, start := Le16At(s, off), Le32At(s, off + 4);
    if start + len <= |s| then Some(s[start..start + len]) else None
  }

  /** A field: the octets that are appended for it and the length its descriptor gives, which has 16 bits. */
  datatype Field = Field(octets: seq<byte>, len: int)

  /** The descriptor gives the length that was appended. */
  predicate Exact(f: Field) { f.len == |f.octets| }

  /** The descriptor at `off` has the field's length, and its octets lie where the descriptor points, after the head. */
  ghost predicate Describes(s: seq<byte>, off: nat, start: nat, f: Field)
  {
    && off + 8 <= BASE_SIZE <= start && start + |f.octets| <= |s|
    && Le16At(s, off) == f.len && Le16At(s, off + 2) == f.len
    && Le32At(s, off + 4) == start
    && s[start..start + |f.octets|] == f.octets
  }

  /** Following a descriptor gives the octets appended for its field exactly if the length is right. */
  lemma ReadBackIff(s: seq<byte>, off: nat, start: nat, f: Field)
    requires Describes(s, off, start, f)
    ensures ReadField(s, off) == Some(f.octets) <==> Exact(f)
  {}

  /** `t` is `s` with another descriptor filled in at `at` and octets added at the end. */
  ghost predicate Amended(s: seq<byte>, t: seq<byte>, at: nat)
  {
    && at + 8 <= BASE_SIZE <= |s| <= |t|
    && forall i :: 0 <= i < |s| && !(at <= i < at + 8) ==> t[i] == s[i]
  }

  lemma StillDescribed(s: seq<byte>, t: seq<byte>, at: nat, off: nat, start: nat, f: Field)
    requires Amended(s, t, at) && Describes(s, off, start, f)
    requires off + 8 <= at || at + 8 <= off
    ensures Describes(t, off, start, f)
  {
    assert forall i :: off <= i < off + 8 ==> t[i] == s[i];
  }

  /** A text: its UTF-16LE form up to the first ill-formed octet; the length of an ill-formed one is EINVAL cut to 16 bits. */
  function TextField(mem: seq<byte>, n: nat): (f: Field)
    requires n <= |mem|
  {
    var octets := Converted(mem, n);
    Field(octets, if WellFormed(mem[..n]) then |octets| % 0x10000 else 65514)
  }

  function BinaryField(octets: seq<byte>): (f: Field) { Field(octets, |octets| % 0x10000) }

  /**
   A text is described exactly if it is well-formed and under 65536 octets long, or ill-formed with a beginning
   that happens to be as long as the error number.
   */
  lemma TextExactIff(mem: seq<byte>, n: nat)
    requires n <= |mem|
    ensures Exact(TextField(mem, n)) <==>
      if WellFormed(mem[..n]) then |Converted(mem, n)| < 0x10000 else |Converted(mem, n)| == 65514
  {}

  // ---------- Writing ----------

  /** Store the low 16 bits of `v`; a negative `v` in two's complement. */
  method StoreLe16(a: array<byte>, off: nat, v: int)
    requires off + 2 <= a.Length
    modifies a
    ensures a[off] as int + 256 * a[off + 1] as int == v % 0x10000
    ensures forall i :: 0 <= i < a.Length && i != off && i != off + 1 ==> a[i] == old(a[i])
  {
    a[off] := v % 256;
    a[off + 1] := v / 256 % 256;
    Octets16(v);
  }

  lemma Octets16(v: int)
    ensures v % 256 + 256 * (v / 256 % 256) == v % 0x10000
  {
    var q := v / 256;
    assert v == q / 256 * 0x10000 + (q % 256 * 256 + v % 256);
  }

  method StoreLe32(a: array<byte>, off: nat, v: nat)
    requires off + 4 <= a.Length && v < 0x1_0000_0000
    modifies a
    ensures a[off] as int + 256 * a[off + 1] as int + 0x10000 * (a[off + 2] as int + 256 * a[off + 3] as int) == v
    ensures forall i :: 0 <= i < a.Length && !(off <= i < off + 4) ==> a[i] == old(a[i])
  {
    a[off] := v % 256;
    a[off + 1] := v / 0x100 % 256;
    a[off + 2] := v / 0x10000 % 256;
    a[off + 3] := v / 0x100_0000;
    Octets16(v);
    assert v / 0x10000 % 256 + 256 * (v / 0x100_0000) == v / 0x10000;
  }

  /** Fill in the descriptor at `offset`: length twice, then position. */
  method Describe(buf: Buf, offset: nat, len: int, at: nat)
    requires buf.Valid() && offset + 8 <= BASE_SIZE <= buf.pos && at <= MAX_BUF_LEN
    modifies buf.data
    ensures buf.Valid()
    ensures Amended(old(buf.Text()), buf.Text(), offset) && |buf.Text()| == |old(buf.Text())|
    ensures Le16At(buf.Text(), offset) == Le16At(buf.Text(), offset + 2) == len % 0x10000
    ensures Le32At(buf.Text(), offset + 4) == at
  {
    StoreLe16(buf.data, offset, len);
    StoreLe16(buf.data, offset + 2, len);
    StoreLe32(buf.data, offset + 4, at);
  }

  /**
   Append a string in UTF-16LE and describe it. Only a lack of room is recorded as an error: a text that is
   not well-formed is appended up to its first ill-formed octet and described with a wrong length.
   */
  method SetStringUtf8(buf: Buf, offset: nat, mem: seq<byte>, n: nat)
    requires buf.Valid() && offset + 8 <= BASE_SIZE <= buf.pos && IsCString(mem, n)
    modifies buf, buf.data
    ensures buf.Valid()
    ensures buf.data == old(buf.data) || fresh(buf.data)
    ensures Amended(old(buf.Text()), buf.Text(), offset) && BASE_SIZE <= buf.pos
    ensures old(buf.error) != 0 ==> buf.error != 0
    ensures old(buf.error) == 0 ==> (buf.error == 0 <==> old(buf.pos) + |Converted(mem, n)| <= 131072)
    ensures buf.error == 0 ==>
      buf.pos == old(buf.pos) + |Converted(mem, n)| && Describes(buf.Text(), offset, old(buf.pos), TextField(mem, n))
  {
    hide Converted, WellFormed, Chunks, Describes;
    var oldpos := buf.pos;
    ghost var before := buf.Text();
    CapIsMultiple(oldpos + |Converted(mem, n)|);
    var len := BufAppendUtf16le(buf, mem, n);
    ghost var appended := buf.Text();
    assert before == appended[..oldpos];
    Describe(buf, offset, len, oldpos);
    if buf.error == 0 {
      FieldThere(before, appended, buf.Text(), offset, TextField(mem, n));
    }
  }

  /** The descriptor and the appended octets together. */
  lemma FieldThere(before: seq<byte>, appended: seq<byte>, after: seq<byte>, off: nat, f: Field)
    requires off + 8 <= BASE_SIZE <= |before| && appended == before + f.octets
    requires Amended(appended, after, off) && |after| == |appended|
    requires Le16At(after, off) == Le16At(after, off + 2) == f.len && Le32At(after, off + 4) == |before|
    ensures Describes(after, off, |before|, f)
  {
    assert after[|before|..|before| + |f.octets|] == f.octets;
  }

  /** Describe and append a field of octets. */
  method SetStringBinary(buf: Buf, offset: nat, field: seq<byte>)
    requires buf.Valid() && offset + 8 <= BASE_SIZE <= buf.pos
    modifies buf, buf.data
    ensures buf.Valid()
    ensures buf.data == old(buf.data) || fresh(buf.data)
    ensures Amended(old(buf.Text()), buf.Text(), offset) && BASE_SIZE <= buf.pos
    ensures old(buf.error) != 0 ==> buf.error != 0
    ensures old(buf.error) == 0 ==> (buf.error == 0 <==> old(buf.pos) + |field| + 1 <= 131072)
    ensures buf.error == 0 ==>
      buf.pos == old(buf.pos) + |field| && Describes(buf.Text(), offset, old(buf.pos), BinaryField(field))
  {
    hide Chunks;
    CapIsMultiple(buf.pos + |field| + 1);
    Describe(buf, offset, |field|, buf.pos);
    buf.AppendBytes(field);
  }

  /** Where the domain comes from: the part of the user name before the backslash, or the challenge. */
  datatype Domain = FromUser(mem: seq<byte>, n: nat) | FromChallenge(octets: seq<byte>)

  ghost predicate DomainOk(d: Domain) { d.FromUser? ==> IsCString(d.mem, d.n) }

  function DomainField(d: Domain): (f: Field)
    requires d.FromUser? ==> d.n <= |d.mem|
  {
    match d case FromUser(mem, n) => TextField(mem, n) case FromChallenge(octets) => BinaryField(octets)
  }

  const HOST: Field := Field([85, 0, 78, 0, 75, 0, 78, 0, 79, 0, 87, 0, 78, 0], 14)

  lemma {:induction false} HostField()
    ensures TextField(UNKNOWN + [0], 7) == HOST
  {
    var mem := UNKNOWN + [0];
    assert mem[..7] == UNKNOWN;
    PlainText(UNKNOWN, 0);
  }

  lemma PlainChar(s: seq<byte>)
    requires s != [] && s[0] < 0x80
    ensures FirstChar(s) == Some(s[0] as int) && |Utf8(s[0])| == 1 && Utf16.Utf16(s[0]) == [s[0], 0]
  {}

  lemma HostUnit(k: nat)
    requires k < 7
    ensures |UNKNOWN| == 7 && |HOST.octets| == 14 && HOST.octets[2 * k] == UNKNOWN[k] && HOST.octets[2 * k + 1] == 0
  {
    if k == 0 {} else if k == 1 {} else if k == 2 {} else if k == 3 {} else if k == 4 {} else if k == 5 {} else {}
  }

  /** What remains of the host from its `k`th unit on. */
  lemma HostFrom(k: nat)
    requires k < 7
    ensures |UNKNOWN| == 7 && |HOST.octets| == 14 && HOST.octets[2 * k..] == [UNKNOWN[k], 0] + HOST.octets[2 * k + 2..]
  {
    HostUnit(k);
    var h := HOST.octets;
    assert h[2 * k..] == [h[2 * k], h[2 * k + 1]] + h[2 * k + 2..];
  }

  /** Seven plain characters, one at a time. */
  lemma {:induction false} PlainText(s: seq<byte>, k: nat)
    requires s == UNKNOWN && k <= 7
    ensures WellFormed(s[k..]) && Utf16All(GoodPrefix(s[k..])) == HOST.octets[2 * k..]
    ensures s[0..] == s
    decreases 7 - k
  {
    hide Utf16All, GoodPrefix, Utf8Decode, FirstChar, Utf8, Utf16.Utf16;
    PrefixStep([], s[k..]);
    if k < 7 {
      var c: int := s[k];
      PlainChar(s[k..]);
      assert s[k..][1..] == s[k + 1..];
      PlainText(s, k + 1);
      HostFrom(k);
      assert [] + Utf16All(GoodPrefix(s[k..])) == Utf16All(GoodPrefix(s[k..]));
      assert [] + Utf16.Utf16(c) == Utf16.Utf16(c);
    } else {
      assert [] + Utf16All(GoodPrefix(s[k..])) == Utf16All(GoodPrefix(s[k..]));
      assert HOST.octets[2 * k..] == [];
    }
  }

  method SetDomain(resp: Buf, domain: Domain)
    requires resp.Valid() && BASE_SIZE <= resp.pos && DomainOk(domain) && resp.error == 0
    modifies resp, resp.data
    ensures resp.Valid()
    ensures resp.data == old(resp.data) || fresh(resp.data)
    ensures Amended(old(resp.Text()), resp.Text(), DOMAIN_OFFSET) && BASE_SIZE <= resp.pos
    ensures var f, slack := DomainField(domain), if domain.FromUser? then 0 else 1;
      && (resp.error == 0 <==> old(resp.pos) + |f.octets| + slack <= 131072)
      && (resp.error == 0 ==>
            resp.pos == old(resp.pos) + |f.octets| && Describes(resp.Text(), DOMAIN_OFFSET, old(resp.pos), f))
  {
    hide Describes, Amended, Converted, WellFormed;
    match domain {
      case FromUser(mem, n) => SetStringUtf8(resp, DOMAIN_OFFSET, mem, n);
      case FromChallenge(octets) => SetStringBinary(resp, DOMAIN_OFFSET, octets);
    }
  }

  method SetHost(resp: Buf)
    requires resp.Valid() && BASE_SIZE <= resp.pos
    modifies resp, resp.data
    ensures resp.Valid()
    ensures resp.data == old(resp.data) || fresh(resp.data)
    ensures Amended(old(resp.Text()), resp.Text(), HOST_OFFSET) && BASE_SIZE <= resp.pos
    ensures old(resp.error) != 0 ==> resp.error != 0
    ensures old(resp.error) == 0 ==> (resp.error == 0 <==> old(resp.pos) + 14 <= 131072)
    ensures resp.error == 0 ==> resp.pos == old(resp.pos) + 14 && Describes(resp.Text(), HOST_OFFSET, old(resp.pos), HOST)
  {
    HostField();
    hide Describes, Amended, Converted, WellFormed;
    SetStringUtf8(resp, HOST_OFFSET, UNKNOWN + [0], 7);
  }

  /** Five fields, one after the other from the end of the head to the end of the message, each with its descriptor. */
  datatype Fields = Fields(domain: Field, user: Field, host: Field, lm: Field, nt: Field)
  {
    function Total(): nat { BASE_SIZE + |domain.octets| + |user.octets| + |host.octets| + |lm.octets| + |nt.octets| }
  }

  ghost predicate LaidOut(s: seq<byte>, f: Fields)
  {
    var endD := 64 + |f.domain.octets|;
    var endU := endD + |f.user.octets|;
    var endH := endU + |f.host.octets|;
    && Describes(s, 28, 64, f.domain)
    && Describes(s, 36, endD, f.user)
    && Describes(s, 44, endU, f.host)
    && Describes(s, 12, endH, f.lm)
    && Describes(s, 20, endH + |f.lm.octets|, f.nt)
    && |s| == f.Total()
  }

  /** Signature, message type, the unused sixth descriptor and the flags are those of the head, with one octet replaced. */
  ghost predicate HeadKept(s: seq<byte>, flag: byte)
  {
    && |s| >= BASE_SIZE
    && (forall i :: 0 <= i < LM_RESP_OFFSET || HOST_OFFSET + 8 <= i < BASE_SIZE ==>
          s[i] == if i == FLAGS_OFFSET + 2 then flag else ResponseBase()[i])
  }

  /** The octets of the head that no descriptor takes. */
  lemma HeadOctets(s: seq<byte>, flag: byte)
    requires HeadKept(s, flag)
    ensures s[..12] == [78, 84, 76, 77, 83, 83, 80, 0, 3, 0, 0, 0]
    ensures s[52..60] == [0, 0, 0, 0, 0, 0, 0, 0] && s[60..64] == [0x82, 1, flag, 0]
  {
    assert forall i :: 52 <= i < 60 ==> s[i] == 0;
  }

  lemma HeadStays(s: seq<byte>, t: seq<byte>, at: nat, flag: byte)
    requires Amended(s, t, at) && LM_RESP_OFFSET <= at <= HOST_OFFSET && HeadKept(s, flag)
    ensures HeadKept(t, flag)
  {
    hide ResponseBase;
  }

  function MessageFields(domain: Domain, user: seq<byte>, userLen: nat, lmResp: seq<byte>, ntResp: seq<byte>): (f: Fields)
    requires (domain.FromUser? ==> domain.n <= |domain.mem|) && userLen <= |user|
  {
    Fields(DomainField(domain), TextField(user, userLen), HOST, BinaryField(lmResp), BinaryField(ntResp))
  }

  /** The fields after the head, in the order they are written. */
  method SetFields(resp: Buf, ghost flag: byte, domain: Domain, user: seq<byte>, userLen: nat, lmResp: seq<byte>, ntResp: seq<byte>)
    requires resp.Valid() && resp.pos == BASE_SIZE && resp.error == 0 && HeadKept(resp.Text(), flag)
    requires DomainOk(domain) && IsCString(user, userLen)
    modifies resp, resp.data
    ensures resp.Valid()
    ensures resp.data == old(resp.data) || fresh(resp.data)
    ensures HeadKept(resp.Text(), flag)
    ensures var f := MessageFields(domain, user, userLen, lmResp, ntResp);
      && (resp.error == 0 <==> f.Total() + 1 <= 131072)
      && (resp.error == 0 ==> LaidOut(resp.Text(), f))
  {
    hide Describes, Amended, DomainField, TextField, Converted, WellFormed, HeadKept, LaidOut;
    ghost var s0 := resp.Text();
    SetDomain(resp, domain);
    ghost var s1 := resp.Text();
    HeadStays(s0, s1, DOMAIN_OFFSET, flag);
    TextFieldOctets(user, userLen);
    SetStringUtf8(resp, USER_OFFSET, user, userLen);
    ghost var s2 := resp.Text();
    HeadStays(s1, s2, USER_OFFSET, flag);
    SetHost(resp);
    ghost var s3 := resp.Text();
    HeadStays(s2, s3, HOST_OFFSET, flag);
    SetResponses(resp, lmResp, ntResp, flag);
    if resp.error == 0 {
      AllDescribed(s1, s2, s3, resp.Text(), MessageFields(domain, user, userLen, lmResp, ntResp));
    }
  }

  lemma TextFieldOctets(mem: seq<byte>, n: nat)
    requires n <= |mem|
    ensures TextField(mem, n).octets == Converted(mem, n)
  {}

  method SetResponses(resp: Buf, lmResp: seq<byte>, ntResp: seq<byte>, ghost flag: byte)
    requires resp.Valid() && BASE_SIZE <= resp.pos && HeadKept(resp.Text(), flag)
    modifies resp, resp.data
    ensures resp.Valid()
    ensures resp.data == old(resp.data) || fresh(resp.data)
    ensures HeadKept(resp.Text(), flag)
    ensures old(resp.error) != 0 ==> resp.error != 0
    ensures old(resp.error) == 0 ==> (resp.error == 0 <==> old(resp.pos) + |lmResp| + |ntResp| + 1 <= 131072)
    ensures resp.error == 0 ==>
      && |resp.Text()| == old(resp.pos) + |lmResp| + |ntResp|
      && exists s4 :: Amended(old(resp.Text()), s4, LM_RESP_OFFSET) && Amended(s4, resp.Text(), NT_RESP_OFFSET)
           && Describes(s4, LM_RESP_OFFSET, old(resp.pos), BinaryField(lmResp))
           && Describes(resp.Text(), NT_RESP_OFFSET, old(resp.pos) + |lmResp|, BinaryField(ntResp))
  {
    hide Describes, Amended, BinaryField, HeadKept;
    ghost var s3 := resp.Text();
    SetStringBinary(resp, LM_RESP_OFFSET, lmResp);
    ghost var s4 := resp.Text();
    HeadStays(s3, s4, LM_RESP_OFFSET, flag);
    SetStringBinary(resp, NT_RESP_OFFSET, ntResp);
    HeadStays(s4, resp.Text(), NT_RESP_OFFSET, flag);
  }

  /**
   Build the message into a new buffer. It fails exactly if the fields and a final NUL do not fit; otherwise the
   fields are laid out, whether or not their texts are well-formed or short enough for the descriptors.
   */
  method Build(flag: byte, domain: Domain, user: seq<byte>, userLen: nat, lmResp: seq<byte>, ntResp: seq<byte>)
    returns (resp: Buf, r: int)
    requires DomainOk(domain) && IsCString(user, userLen)
    ensures fresh(resp) && fresh(resp.data) && resp.Valid() && r == resp.error
    ensures var f := MessageFields(domain, user, userLen, lmResp, ntResp);
      && (r == 0 <==> f.Total() + 1 <= 131072)
      && (r == 0 ==> LaidOut(resp.Text(), f) && HeadKept(resp.Text(), flag))
      && (r == 0 ==> resp.Text()[..12] == [78, 84, 76, 77, 83, 83, 80, 0, 3, 0, 0, 0] && resp.Text()[60..64] == [0x82, 1, flag, 0])
  {
    hide LaidOut, Chunks, MessageFields, ResponseBase;
    resp := new Buf();
    CapIsMultiple(BASE_SIZE + 1);
    resp.AppendBytes(ResponseBase());
    assert resp.Text() == ResponseBase();
    resp.data[FLAGS_OFFSET + 2] := flag;
    assert resp.Text() == ResponseBase()[FLAGS_OFFSET + 2 := flag];
    SetFields(resp, flag, domain, user, userLen, lmResp, ntResp);
    r := resp.error;
    HeadOctets(resp.Text(), flag);
  }

  /**
   Following the descriptors of a message gives back exactly the octets appended for a field if and only if its length is
   right; the regions follow each other without gaps from the head to the end.
   */
  lemma FieldsAreReadBackIff(s: seq<byte>, f: Fields)
    requires LaidOut(s, f)
    ensures ReadField(s, 28) == Some(f.domain.octets) <==> Exact(f.domain)
    ensures ReadField(s, 36) == Some(f.user.octets) <==> Exact(f.user)
    ensures ReadField(s, 44) == Some(f.host.octets) <==> Exact(f.host)
    ensures ReadField(s, 12) == Some(f.lm.octets) <==> Exact(f.lm)
    ensures ReadField(s, 20) == Some(f.nt.octets) <==> Exact(f.nt)
    ensures s[64..] == f.domain.octets + f.user.octets + f.host.octets + f.lm.octets + f.nt.octets
  {
    hide Describes, ReadField, Exact;
    var endD := 64 + |f.domain.octets|;
    var endU := endD + |f.user.octets|;
    var endH := endU + |f.host.octets|;
    ReadBackIff(s, 28, 64, f.domain);
    ReadBackIff(s, 36, endD, f.user);
    ReadBackIff(s, 44, endU, f.host);
    ReadBackIff(s, 12, endH, f.lm);
    ReadBackIff(s, 20, endH + |f.lm.octets|, f.nt);
    Regions(s, f);
  }

  lemma Regions(s: seq<byte>, f: Fields)
    requires LaidOut(s, f)
    ensures s[64..] == f.domain.octets + f.user.octets + f.host.octets + f.lm.octets + f.nt.octets
  {
    hide Le16At, Le32At;
    var endD := 64 + |f.domain.octets|;
    var endU := endD + |f.user.octets|;
    var endH := endU + |f.host.octets|;
    var endL := endH + |f.lm.octets|;
    assert s[64..] == s[64..endD] + s[endD..endU] + s[endU..endH] + s[endH..endL] + s[endL..];
  }

  /** A single stray continuation octet as user name: built without an error, and its descriptor leads out of the message. */
  method IllFormedUser() returns (resp: Buf, r: int)
    ensures fresh(resp) && resp.Valid() && r == 0 && |resp.Text()| >= 64
    ensures Le16At(resp.Text(), 36) == 65514 && ReadField(resp.Text(), 36) == None
  {
    var nothing, user: seq<byte> := seq(24, _ => 0), [0x80, 0];
    assert user[..1] == [0x80];
    assert FirstChar([0x80]) == None;
    PrefixStep([], [0x80]);
    assert [] + Utf16All(GoodPrefix([0x80])) == Utf16All(GoodPrefix([0x80]));
    assert TextField(user, 1) == Field([], 65514);
    hide TextField;
    resp, r := Build(0, FromChallenge([]), user, 1, nothing, nothing);
  }

  /** No later step disturbs an earlier field. */
  lemma AllDescribed(s1: seq<byte>, s2: seq<byte>, s3: seq<byte>, s5: seq<byte>, f: Fields)
    requires Describes(s1, DOMAIN_OFFSET, BASE_SIZE, f.domain) && |s1| == BASE_SIZE + |f.domain.octets|
    requires Describes(s2, USER_OFFSET, |s1|, f.user) && |s2| == |s1| + |f.user.octets|
    requires Describes(s3, HOST_OFFSET, |s2|, f.host) && |s3| == |s2| + |f.host.octets|
    requires Amended(s1, s2, USER_OFFSET) && Amended(s2, s3, HOST_OFFSET)
    requires exists s4 :: Amended(s3, s4, LM_RESP_OFFSET) && Amended(s4, s5, NT_RESP_OFFSET)
               && Describes(s4, LM_RESP_OFFSET, |s3|, f.lm) && Describes(s5, NT_RESP_OFFSET, |s3| + |f.lm.octets|, f.nt)
    requires |s5| == |s3| + |f.lm.octets| + |f.nt.octets|
    ensures LaidOut(s5, f)
  {
    hide Describes, Amended;
    var s4 :| Amended(s3, s4, LM_RESP_OFFSET) && Amended(s4, s5, NT_RESP_OFFSET)
      && Describes(s4, LM_RESP_OFFSET, |s3|, f.lm) && Describes(s5, NT_RESP_OFFSET, |s3| + |f.lm.octets|, f.nt);
    StillDescribed(s1, s2, USER_OFFSET, DOMAIN_OFFSET, BASE_SIZE, f.domain);
    StillDescribed(s2, s3, HOST_OFFSET, DOMAIN_OFFSET, BASE_SIZE, f.domain);
    StillDescribed(s3, s4, LM_RESP_OFFSET, DOMAIN_OFFSET, BASE_SIZE, f.domain);
    StillDescribed(s4, s5, NT_RESP_OFFSET, DOMAIN_OFFSET, BASE_SIZE, f.domain);
    StillDescribed(s2, s3, HOST_OFFSET, USER_OFFSET, |s1|, f.user);
    StillDescribed(s3, s4, LM_RESP_OFFSET, USER_OFFSET, |s1|, f.user);
    StillDescribed(s4, s5, NT_RESP_OFFSET, USER_OFFSET, |s1|, f.user);
    StillDescribed(s3, s4, LM_RESP_OFFSET, HOST_OFFSET, |s2|, f.host);
    StillDescribed(s4, s5, NT_RESP_OFFSET, HOST_OFFSET, |s2|, f.host);
    StillDescribed(s4, s5, NT_RESP_OFFSET, LM_RESP_OFFSET, |s3|, f.lm);
  }
}
