/** The NT hash of a password: the MD4 digest of its UTF-16LE form, followed by five zero octets. */
module NtHash {
  import opened Common
  import opened TextBuf
  import opened Utf16
  import opened Md4

  /** What is reserved beforehand for a password of `n` octets. */
  function Reserved(n: nat): (len: nat) { (2 * n + 1 + 8 + 63) / 64 * 64 }

  /** The padded UTF-16LE form fits into what is reserved. */
  lemma ReservedCovers(n: nat, pos: nat)
    requires pos <= 2 * n
    ensures pos <= Reserved(n) && PaddedLength(pos) <= Reserved(n)
    ensures Reserved(n) % 64 == 0 && 2 * n + 9 <= Reserved(n) < 2 * n + 9 + 64
  {
    Rounded(pos + 72, 2 * n + 72);
    Rounded(pos, pos);
  }

  lemma Rounded(p: nat, q: nat)
    requires p <= q
    ensures p / 64 * 64 <= q / 64 * 64 && q - 64 < q / 64 * 64 <= q
  {}

  /**
   Exactly the well-formed passwords short enough for the buffer are hashed. The array reserved at the start, `store`, is the
   only one that ever holds the converted password, and it is wiped at the end.
   */
  method NtlmNtHash(pass: seq<byte>, n: nat, hash: array<byte>) returns (r: int, ghost store: array<byte>)
    requires IsCString(pass, n) && hash.Length == 21
    modifies hash
    ensures fresh(store)
    ensures r == if Reserved(n) > 131072 then -7 else if Utf8Decode(pass[..n]).None? then -22 else 0
    ensures r == 0 ==>
      var text := Utf16All(Utf8Decode(pass[..n]).value);
      && |text| <= 2 * n && 8 * |text| < 0x1_0000_0000_0000_0000
      && hash[..] == Md4.Md4(text) + [0, 0, 0, 0, 0]
      && |text| <= store.Length && forall i :: 0 <= i < |text| ==> store[i] == 0
  {
    hide Utf8Decode, GoodPrefix, Utf16All, Md4.Md4, Chunks, PaddedLength, Reserved;
    var utf16pass := new Buf();
    CapIsMultiple(Reserved(n));
    r := utf16pass.EnsureSpace(Reserved(n));
    store := utf16pass.data;
    if r != 0 {
      return;
    }
    ReservedCovers(n, 2 * n);
    r := BufAppendUtf16le(utf16pass, pass, n);
    if r < 0 {
      return;
    }
    GoodPrefixWhole(pass[..n]);
    assert utf16pass.Text() == Utf16All(Utf8Decode(pass[..n]).value);
    ReservedCovers(n, utf16pass.pos);
    ChunkFits(PaddedLength(utf16pass.pos), utf16pass.bufLen);
    var digest := new byte[16];
    r := Md4Sum(utf16pass, digest);
    forall i | 0 <= i < 21 {
      hash[i] := if i < 16 then digest[i] else 0;
    }
    assert hash[..] == digest[..] + [0, 0, 0, 0, 0];
    assert utf16pass.data != hash;
    forall i | 0 <= i < utf16pass.pos {
      utf16pass.data[i] := 0;
    }
  }
}
