/** The frames of the tunnel: an eight-octet header, big-endian length, packet type, payload. */
module CstpFrame {
  import opened Common

  const AC_PKT_DATA: byte := 0
  const AC_PKT_DPD_OUT: byte := 3
  const AC_PKT_DPD_RESP: byte := 4
  const AC_PKT_DISCONN: byte := 5
  const AC_PKT_KEEPALIVE: byte := 7
  const AC_PKT_COMPRESSED: byte := 8
  const AC_PKT_TERM_SERVER: byte := 9

  /** The header for a payload of `len` octets; the length is cut to 16 bits. */
  function Header(type_: byte, len: nat): (h: seq<byte>)
    ensures |h| == 8
  {
    [83, 84, 70, 1, len / 256 % 256, len % 256, type_, 0]
  }

  function Frame(type_: byte, payload: seq<byte>): (f: seq<byte>)
  {
    Header(type_, |payload|) + payload
  }

  /** The three static packets. */
  lemma StaticOctets()
    ensures Frame(AC_PKT_DPD_OUT, []) == [83, 84, 70, 1, 0, 0, 3, 0]
    ensures Frame(AC_PKT_DPD_RESP, []) == [83, 84, 70, 1, 0, 0, 4, 0]
    ensures Frame(AC_PKT_KEEPALIVE, []) == [83, 84, 70, 1, 0, 0, 7, 0]
  {}

  /** Type 0 is data as it is, type 8 compressed data. */
  lemma DataOctets(payload: seq<byte>)
    ensures Frame(AC_PKT_DATA, payload) == [83, 84, 70, 1, |payload| / 256 % 256, |payload| % 256, 0, 0] + payload
    ensures Frame(AC_PKT_COMPRESSED, payload) == [83, 84, 70, 1, |payload| / 256 % 256, |payload| % 256, 8, 0] + payload
  {}

  datatype Received =
    | Typed(type_: byte, payload: seq<byte>)
    | BadLength
    | Unknown

  /** What one read from the TLS connection holds. */
  function Parse(buf: seq<byte>): (r: Received)
  {
    if |buf| < 8 || buf[..4] != [83, 84, 70, 1] || buf[7] != 0 then Unknown
    else if |buf| != 8 + buf[4] as int * 256 + buf[5] as int then BadLength
    else Typed(buf[6], buf[8..])
  }

  /** The packet types a peer may send; anything else ends the session. */
  predicate KnownType(t: byte) {
    t in {AC_PKT_DATA, AC_PKT_DPD_OUT, AC_PKT_DPD_RESP, AC_PKT_DISCONN, AC_PKT_KEEPALIVE, AC_PKT_COMPRESSED, AC_PKT_TERM_SERVER}
  }

  /** A frame is read back as what was framed exactly when its length fits the header's 16 bits. */
  lemma ParseFrame(type_: byte, payload: seq<byte>)
    ensures Parse(Frame(type_, payload)) == Typed(type_, payload) <==> |payload| < 0x10000
  {
    var f := Frame(type_, payload);
    var n := |payload|;
    assert f[..4] == [83, 84, 70, 1];
    assert f[8..] == payload;
    assert f[4] as int * 256 + f[5] as int == n % 0x10000 by {
      assert n == n / 256 / 256 * 0x10000 + n / 256 % 256 * 256 + n % 256;
    }
  }

  /** And every buffer read as a packet is the frame of that packet. */
  lemma FrameParse(buf: seq<byte>)
    requires Parse(buf).Typed?
    ensures Frame(Parse(buf).type_, Parse(buf).payload) == buf
  {
    var p := Parse(buf);
    var n := |p.payload|;
    assert n / 256 % 256 == buf[4] as int && n % 256 == buf[5] as int;
    assert buf == buf[..4] + [buf[4], buf[5], buf[6], buf[7]] + buf[8..];
  }
}
