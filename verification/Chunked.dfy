/** Reading a chunked HTTP body (section 4.1 of RFC 7230) from a connection that returns short reads. */
module Chunked {
  import opened Common

  const MAX_BUF_LEN := 131072
  const CR: byte := 13
  const LF: byte := 10

  // ---------- Lines and numbers ----------

  function LineEnd(s: seq<byte>): (i: nat)
    ensures i <= |s|
    ensures i < |s| ==> s[i] == LF
    ensures forall k :: 0 <= k < i ==> s[k] != LF
  {
    if s == [] || s[0] == LF then 0 else 1 + LineEnd(s[1..])
  }

  /**
   What one line read takes from the input: the line, without LF and one CR before it, and the rest.
   A line too long for the caller's buffer is cut; the end of the input ends a line; there is no line at the end.
   */
  function TakeLine(s: seq<byte>): (r: Option<(seq<byte>, seq<byte>)>)
    ensures r.Some? ==> |r.value.1| < |s|
  {
    var i := LineEnd(s);
    if s == [] then None
    else if i >= MAX_BUF_LEN - 1 then Some((s[..MAX_BUF_LEN - 1], s[MAX_BUF_LEN - 1..]))
    else if i == |s| then Some((s, []))
    else if i > 0 && s[i - 1] == CR then Some((s[..i - 1], s[i + 1..]))
    else Some((s[..i], s[i + 1..]))
  }

  /** The value of a hexadecimal digit, 16 for any other octet. */
  function HexDigit(c: byte): (d: nat)
    ensures d <= 16
  {
    if 48 <= c <= 57 then c - 48 else if 65 <= c <= 70 then c - 55 else if 97 <= c <= 102 then c - 87 else 16
  }

  function HexValue(acc: nat, s: seq<byte>): (v: nat)
    decreases |s|
  {
    if s == [] || HexDigit(s[0]) == 16 then acc else HexValue(acc * 16 + HexDigit(s[0]), s[1..])
  }

  /** `strtol(line, NULL, 16)`: blanks, sign, optional 0x, digits up to the first other character. */
  function Strtol16(s: seq<byte>): (v: int)
  {
    if s == [] then 0
    else if s[0] == 32 || 9 <= s[0] <= 13 then Strtol16(s[1..])
    else if s[0] == 45 then -(Unsigned16(s[1..]) as int)
    else if s[0] == 43 then Unsigned16(s[1..])
    else Unsigned16(s)
  }

  function Unsigned16(s: seq<byte>): (v: nat)
  {
    if |s| >= 3 && s[0] == 48 && (s[1] == 120 || s[1] == 88) && HexDigit(s[2]) < 16 then HexValue(0, s[2..])
    else HexValue(0, s)
  }

  const LONG_MAX := 0x7fff_ffff_ffff_ffff

  /** A chunk size: the number saturates at the width of a long, and an int keeps its low 32 bits. */
  function ChunkLen(line: seq<byte>): (n: int)
    ensures -0x8000_0000 <= n < 0x8000_0000
  {
    var v := Strtol16(line);
    var low := (if v > LONG_MAX then LONG_MAX else if v < -LONG_MAX - 1 then -LONG_MAX - 1 else v) % 0x1_0000_0000;
    if low < 0x8000_0000 then low else low - 0x1_0000_0000
  }

  // ---------- The decoding ----------

  /**
   What the system does where the input does not decide: whether reads at the end of the input come back empty, again and
   again, or fail; and whether an allocation of no octets gives a block.
   */
  datatype Env = Env(emptyReads: bool, emptyBlock: bool)

  /** Besides a body and an error: a read is asked for outside the allocation, or the reading goes on for ever. */
  datatype Result = Done(payload: seq<byte>, rest: seq<byte>) | Failed | Overrun | Endless

  /** A complete chunk, with its size line and the empty line behind it, and the rest of the input. */
  function TakeChunk(s: seq<byte>): (r: Option<(seq<byte>, seq<byte>)>)
    ensures r.Some? ==> |r.value.1| < |s|
  {
    match TakeLine(s)
    case None => None
    case Some((line, s1)) =>
      var n := ChunkLen(line);
      if line == [] || n <= 0 || n > |s1| then None
      else
        match TakeLine(s1[n..])
        case None => None
        case Some((line2, s2)) => if line2 == [] then Some((s1[..n], s2)) else None
  }

  /** What happens at a size line with a negative number when `len` octets have been read. */
  function NegativeSize(len: nat, n: int, env: Env): (r: Result)
    requires n < 0
  {
    var size := len + n + 1;
    if size > 0 || (size == 0 && env.emptyBlock) then Overrun else Failed
  }

  /** How the body ends where no complete chunk stands; an empty line in place of a size ends it too. */
  function Finish(s: seq<byte>, len: nat, env: Env): (r: Result)
  {
    match TakeLine(s)
    case None => Failed
    case Some((line, s1)) =>
      var n := ChunkLen(line);
      if line == [] then Done([], s1)
      else if n == 0 then
        match TakeLine(s1)
        case None => Failed
        case Some((line2, s2)) => if line2 == [] then Done([], s2) else Failed
      else if n < 0 then NegativeSize(len, n, env)
      else if n > |s1| then (if env.emptyReads then Endless else Failed)
      else Failed
  }

  function Prepend(data: seq<byte>, r: Result): Result
  {
    match r case Done(p, rest) => Done(data + p, rest) case _ => r
  }

  /** The payload and the unread rest, when `len` octets have been read before. */
  function Decode(s: seq<byte>, len: nat, env: Env): (r: Result)
    decreases |s|
  {
    match TakeChunk(s)
    case Some((data, rest)) => Prepend(data, Decode(rest, len + |data|, env))
    case None => Finish(s, len, env)
  }

  // ---------- When the reading leaves its allocation, and when it never ends ----------

  /** The input and the number of octets read after `k` complete chunks. */
  function AfterChunks(s: seq<byte>, len: nat, k: nat): (r: Option<(seq<byte>, nat)>)
    decreases k
  {
    if k == 0 then Some((s, len))
    else
      match TakeChunk(s)
      case None => None
      case Some((data, rest)) => AfterChunks(rest, len + |data|, k - 1)
  }

  /** After `k` chunks stands a size line with a negative number for which the allocation still succeeds. */
  predicate NegativeAt(s: seq<byte>, len: nat, env: Env, k: nat)
  {
    match AfterChunks(s, len, k)
    case None => false
    case Some((r, l)) =>
      match TakeLine(r)
      case None => false
      case Some((line, _)) =>
        var n := ChunkLen(line);
        n < 0 && (l + n + 1 > 0 || (l + n + 1 == 0 && env.emptyBlock))
  }

  /** After `k` chunks stands a size line with more than the input still holds. */
  predicate StarvedAt(s: seq<byte>, len: nat, k: nat)
  {
    match AfterChunks(s, len, k)
    case None => false
    case Some((r, _)) =>
      match TakeLine(r)
      case None => false
      case Some((line, s1)) => ChunkLen(line) > |s1|
  }

  lemma EmptyLine()
    ensures ChunkLen([]) == 0
  {}

  lemma NoChunkAt(s: seq<byte>, len: nat, env: Env)
    requires NegativeAt(s, len, env, 0) || StarvedAt(s, len, 0)
    ensures TakeChunk(s).None?
  {
    hide ChunkLen;
    EmptyLine();
  }

  /** The reading leaves its allocation exactly if a size line that is reached has such a negative number. */
  lemma {:induction false} OverrunIff(s: seq<byte>, len: nat, env: Env)
    ensures Decode(s, len, env) == Overrun <==> exists k: nat :: NegativeAt(s, len, env, k)
    decreases |s|
  {
    hide TakeLine, ChunkLen;
    EmptyLine();
    match TakeChunk(s)
    case None =>
      assert Finish(s, len, env) == Overrun <==> NegativeAt(s, len, env, 0);
      assert forall k: nat :: k > 0 ==> !NegativeAt(s, len, env, k);
    case Some((data, rest)) =>
      var l := len + |data|;
      OverrunIff(rest, l, env);
      assert forall k: nat :: AfterChunks(s, len, k + 1) == AfterChunks(rest, l, k);
      if k: nat :| NegativeAt(rest, l, env, k) {
        assert NegativeAt(s, len, env, k + 1);
      }
      if k: nat :| NegativeAt(s, len, env, k) {
        if k == 0 {
          NoChunkAt(s, len, env);
        } else {
          assert NegativeAt(rest, l, env, k - 1);
        }
      }
  }

  /** It never ends exactly if reads come back empty while a chunk is unfinished. */
  lemma {:induction false} EndlessIff(s: seq<byte>, len: nat, env: Env)
    ensures Decode(s, len, env) == Endless <==> env.emptyReads && exists k: nat :: StarvedAt(s, len, k)
    decreases |s|
  {
    hide TakeLine, ChunkLen;
    EmptyLine();
    match TakeChunk(s)
    case None =>
      assert Finish(s, len, env) == Endless <==> env.emptyReads && StarvedAt(s, len, 0);
      assert forall k: nat :: k > 0 ==> !StarvedAt(s, len, k);
    case Some((data, rest)) =>
      var l := len + |data|;
      EndlessIff(rest, l, env);
      if k: nat :| StarvedAt(rest, l, k) {
        assert StarvedAt(s, len, k + 1);
      }
      if k: nat :| StarvedAt(s, len, k) {
        if k == 0 {
          NoChunkAt(s, len, env);
        } else {
          assert StarvedAt(rest, l, k - 1);
        }
      }
  }

  /** A size of minus one at the start: the allocation is for no octets at all. */
  lemma {:induction false} MinusOneOverruns(tail: seq<byte>, emptyReads: bool)
    ensures Decode([45, 49, CR, LF] + tail, 0, Env(emptyReads, true)) == Overrun
  {
    var line: seq<byte> := [45, 49];
    assert line[1..] == [49] && [49 as byte][1..] == [];
    assert HexValue(0, [49]) == HexValue(1, []) == 1;
    assert ChunkLen(line) == -1;
    TakeWrittenLine(line, tail);
    assert [45, 49, CR, LF] + tail == line + [CR, LF] + tail;
  }

  /** One octet of a chunk of five, then the end of the input. */
  lemma {:induction false} TruncatedChunkIsEndless(emptyBlock: bool)
    ensures Decode([53, CR, LF, 65], 0, Env(true, emptyBlock)) == Endless
    ensures Decode([53, CR, LF, 65], 0, Env(false, emptyBlock)) == Failed
  {
    var line: seq<byte> := [53];
    assert line[1..] == [];
    assert HexValue(0, line) == HexValue(5, []) == 5;
    assert ChunkLen(line) == 5;
    TakeWrittenLine(line, [65]);
    assert [53, CR, LF, 65] == line + [CR, LF] + [65];
  }

  // ---------- What a sender writes ----------

  /** A chunk header: its number is the length of the chunk; extensions may follow the digits. */
  predicate HeaderFor(line: seq<byte>, n: nat)
  {
    && line != [] && |line| < MAX_BUF_LEN - 2
    && LF !in line
    && Strtol16(line) == n < 0x8000_0000
  }

  datatype Chunk = Chunk(header: seq<byte>, data: seq<byte>)

  predicate WellFormed(c: Chunk) { c.data != [] && HeaderFor(c.header, |c.data|) }

  function Encode(chunks: seq<Chunk>, last: seq<byte>): (s: seq<byte>)
  {
    if chunks == [] then last + [13, 10] + [13, 10]
    else chunks[0].header + [13, 10] + chunks[0].data + [13, 10] + Encode(chunks[1..], last)
  }

  function Payload(chunks: seq<Chunk>): (s: seq<byte>)
  {
    if chunks == [] then [] else chunks[0].data + Payload(chunks[1..])
  }

  lemma {:induction false} LineEndAfter(line: seq<byte>, tail: seq<byte>)
    requires LF !in line
    ensures LineEnd(line + [LF] + tail) == |line|
  {
    var s := line + [LF] + tail;
    if line != [] {
      LineEndAfter(line[1..], tail);
      assert s[1..] == line[1..] + [LF] + tail;
    }
  }

  lemma TakeWrittenLine(line: seq<byte>, tail: seq<byte>)
    requires LF !in line && |line| < MAX_BUF_LEN - 2
    ensures TakeLine(line + [CR, LF] + tail) == Some((line, tail))
  {
    var s := line + [CR, LF] + tail;
    LineEndAfter(line + [CR], tail);
    assert s == line + [CR] + [LF] + tail;
    assert s[..|line|] == line;
    assert s[|line| + 2..] == tail;
  }

  /** A line is cut after 131071 octets, which leave room for the terminator in the caller's buffer. */
  lemma LongLineIsCut(s: seq<byte>)
    requires |s| >= 131071 && forall k :: 0 <= k < 131071 ==> s[k] != 10
    ensures TakeLine(s) == Some((s[..131071], s[131071..]))
  {}

  // ---------- Numbers as a sender writes them ----------

  /** A hexadecimal digit, small or capital. */
  predicate IsDigit(c: byte, d: nat)
  {
    d < 16 && (c == "0123456789abcdef"[d] as int || c == "0123456789ABCDEF"[d] as int)
  }

  /** The text of a number by repeated division: its last digit is the remainder, the digits before it are the text of the quotient. */
  predicate Numeral(s: seq<byte>, n: nat)
  {
    && s != []
    && IsDigit(s[|s| - 1], n % 16)
    && (if |s| == 1 then n < 16 else Numeral(s[..|s| - 1], n / 16))
  }

  /** A size line: the text of the number, and perhaps an extension, which begins with neither a digit nor an x. */
  predicate SizeLine(line: seq<byte>, n: nat, digits: nat)
  {
    && digits <= |line| < 131070 && 10 !in line
    && Numeral(line[..digits], n)
    && (digits < |line| ==> line[digits] != 120 && line[digits] != 88 && forall d: nat | d < 16 :: !IsDigit(line[digits], d))
  }

  lemma DigitIs(c: byte, d: nat)
    requires d < 16
    ensures IsDigit(c, d) <==> HexDigit(c) == d
  {}

  lemma {:induction false} NumeralDigits(s: seq<byte>, n: nat)
    requires Numeral(s, n)
    ensures forall k :: 0 <= k < |s| ==> HexDigit(s[k]) < 16
    decreases |s|
  {
    DigitIs(s[|s| - 1], n % 16);
    hide IsDigit, HexDigit;
    if |s| > 1 {
      NumeralDigits(s[..|s| - 1], n / 16);
    }
  }

  lemma NextDigit(n: nat, c: byte, t: seq<byte>)
    requires HexDigit(c) == n % 16
    ensures HexValue(n / 16, [c] + t) == HexValue(n, t)
  {
    hide HexDigit;
    assert ([c] + t)[1..] == t;
    assert n == n / 16 * 16 + n % 16;
  }

  lemma {:induction false} NumeralValue(s: seq<byte>, n: nat, t: seq<byte>)
    requires Numeral(s, n)
    ensures HexValue(0, s + t) == HexValue(n, t)
    decreases |s|
  {
    var p, c := s[..|s| - 1], s[|s| - 1];
    DigitIs(c, n % 16);
    NextDigit(n, c, t);
    hide IsDigit, HexDigit, HexValue;
    assert s + t == p + ([c] + t);
    if |s| > 1 {
      NumeralValue(p, n / 16, [c] + t);
    } else {
      assert p + ([c] + t) == [c] + t;
    }
  }

  lemma SizeValue(line: seq<byte>, n: nat, digits: nat)
    requires SizeLine(line, n, digits)
    ensures line != [] && Strtol16(line) == n
  {
    var s, t := line[..digits], line[digits..];
    NumeralValue(s, n, t);
    NumeralDigits(s, n);
    assert s + t == line && s[0] == line[0];
    if t != [] {
      NotADigit(t[0]);
    }
    assert HexValue(n, t) == n;
    assert |s| > 1 ==> s[1] == line[1];
    assert |s| == 1 && t != [] ==> t[0] == line[1];
    hide IsDigit, Numeral, HexValue;
  }

  /** A size below 2^31 is read as it stands; others lose all but 32 bits, and from 2^63 on minus one is read. */
  lemma SizeIsRead(line: seq<byte>, n: nat, digits: nat)
    requires SizeLine(line, n, digits)
    ensures n < 0x8000_0000 ==> HeaderFor(line, n) && ChunkLen(line) == n
    ensures ChunkLen(line) == if n >= 0x8000_0000_0000_0000 then -1
      else if n % 0x1_0000_0000 < 0x8000_0000 then n % 0x1_0000_0000 else n % 0x1_0000_0000 - 0x1_0000_0000
  {
    SizeValue(line, n, digits);
    hide Strtol16, Numeral, IsDigit;
  }

  lemma NotADigit(c: byte)
    requires forall d: nat | d < 16 :: !IsDigit(c, d)
    ensures HexDigit(c) == 16
  {
    if HexDigit(c) < 16 {
      DigitIs(c, HexDigit(c));
    }
  }

  /** Every number has a text, so chunks of every size can be written. */
  function HexText(n: nat): (s: seq<byte>)
    ensures Numeral(s, n)
  {
    if n < 16 then [HexChar(n)] else HexText(n / 16) + [HexChar(n % 16)]
  }

  function HexChar(d: nat): (c: byte)
    requires d < 16
    ensures IsDigit(c, d)
  {
    if d < 10 then 48 + d else 87 + d
  }

  /**
   Every body, however it is split into non-empty chunks, is decoded to exactly its octets, and
   reading stops right after the final empty line.
   */
  lemma {:induction false} DecodeEncode(chunks: seq<Chunk>, last: seq<byte>, tail: seq<byte>, len: nat, env: Env)
    requires forall c :: c in chunks ==> WellFormed(c)
    requires HeaderFor(last, 0)
    ensures Decode(Encode(chunks, last) + tail, len, env) == Done(Payload(chunks), tail)
    decreases |chunks|
  {
    hide TakeLine, ChunkLen, TakeChunk, HeaderFor;
    var s := Encode(chunks, last) + tail;
    if chunks == [] {
      assert s == last + [CR, LF] + ([CR, LF] + tail);
      LastChunk(last, tail, len, env);
    } else {
      var c, more := chunks[0], Encode(chunks[1..], last) + tail;
      assert WellFormed(c);
      assert s == c.header + [CR, LF] + (c.data + ([CR, LF] + more));
      WrittenChunk(c, more);
      DecodeEncode(chunks[1..], last, tail, len + |c.data|, env);
    }
  }

  /** The same for sizes written in hexadecimal: the sizes are those of the chunks, and the last one is zero. */
  lemma {:induction false} DecodeWritten(chunks: seq<Chunk>, last: seq<byte>, tail: seq<byte>, len: nat, env: Env)
    requires forall c :: c in chunks ==> c.data != [] && |c.data| < 0x8000_0000 && exists digits: nat :: SizeLine(c.header, |c.data|, digits)
    requires exists digits: nat :: SizeLine(last, 0, digits)
    ensures Decode(Encode(chunks, last) + tail, len, env) == Done(Payload(chunks), tail)
  {
    hide SizeLine, HeaderFor, ChunkLen, Decode, Encode;
    forall c | c in chunks ensures WellFormed(c) {
      var digits: nat :| SizeLine(c.header, |c.data|, digits);
      SizeIsRead(c.header, |c.data|, digits);
    }
    var digits: nat :| SizeLine(last, 0, digits);
    SizeIsRead(last, 0, digits);
    DecodeEncode(chunks, last, tail, len, env);
  }

  lemma LastChunk(last: seq<byte>, tail: seq<byte>, len: nat, env: Env)
    requires HeaderFor(last, 0)
    ensures Decode(last + [CR, LF] + ([CR, LF] + tail), len, env) == Done([], tail)
  {
    hide TakeLine, Strtol16;
    TakeWrittenLine(last, [CR, LF] + tail);
    assert [CR, LF] + tail == [] + [CR, LF] + tail;
    TakeWrittenLine([], tail);
  }

  lemma WrittenChunk(c: Chunk, more: seq<byte>)
    requires WellFormed(c)
    ensures TakeChunk(c.header + [CR, LF] + (c.data + ([CR, LF] + more))) == Some((c.data, more))
  {
    hide TakeLine, Strtol16;
    var s1 := c.data + ([CR, LF] + more);
    TakeWrittenLine(c.header, s1);
    assert s1[|c.data|..] == [] + [CR, LF] + more && s1[..|c.data|] == c.data;
    TakeWrittenLine([], more);
  }

  // ---------- The connection ----------

  /** Input octets and an arbitrary schedule of how many each read returns beyond the first. */
  class Wire {
    const bytes: seq<byte>
    const schedule: nat -> nat
    const emptyReads: bool
    var cur: nat
    var calls: nat

    ghost predicate Valid() reads this { cur <= |bytes| }

    ghost function Remaining(): seq<byte>
      requires Valid()
      reads this
    {
      bytes[cur..]
    }

    constructor (bytes: seq<byte>, schedule: nat -> nat, emptyReads: bool)
      ensures Valid() && Remaining() == bytes && calls == 0 && this.emptyReads == emptyReads
    {
      this.bytes, this.schedule, this.emptyReads := bytes, schedule, emptyReads;
      cur, calls := 0, 0;
    }

    /** Read a line octet by octet; the length, or negative at the end of the input. */
    method Gets() returns (i: int, line: seq<byte>)
      requires Valid()
      modifies this`cur
      ensures Valid()
      ensures match TakeLine(old(Remaining()))
        case None => i < 0 && cur == old(cur)
        case Some((l, rest)) => i == |l| && line == l && Remaining() == rest
    {
      hide LineEnd;
      ghost var s := Remaining();
      i, line := 0, [];
      while cur < |bytes|
        invariant old(cur) <= cur <= |bytes| && i == cur - old(cur) == |line|
        invariant line == s[..i] && LF !in line && Remaining() == s[i..]
        invariant 0 <= i < MAX_BUF_LEN - 1
      {
        var c := bytes[cur];
        cur := cur + 1;
        if c == LF {
          LineEndIs(s, i);
          if i > 0 && line[i - 1] == CR {
            i, line := i - 1, line[..i - 1];
          }
          return;
        }
        line, i := line + [c], i + 1;
        if i >= MAX_BUF_LEN - 1 {
          NoLineEnd(s, i);
          return;
        }
      }
      NoLineEnd(s, |s|);
      if i == 0 {
        i := -5;
      }
    }

    /** One read of at most `n` octets: at least one, unless the input is at its end, where it is empty or fails. */
    method Read(body: array<byte>, done: nat, n: nat) returns (i: int)
      requires Valid() && n > 0 && done + n <= body.Length
      modifies this, body
      ensures Valid() && calls == old(calls) + 1
      ensures old(Remaining()) == [] ==>
        i == (if emptyReads then 0 else -5) && body[..] == old(body[..]) && cur == old(cur)
      ensures old(Remaining()) != [] ==>
        && 1 <= i <= n && i <= |old(Remaining())|
        && body[..done + i] == old(body[..done]) + old(Remaining())[..i]
        && Remaining() == old(Remaining())[i..]
    {
      var avail := |bytes| - cur;
      calls := calls + 1;
      if avail == 0 {
        return if emptyReads then 0 else -5;
      }
      i := 1 + schedule(calls);
      if i > n { i := n; }
      if i > avail { i := avail; }
      forall k | 0 <= k < i {
        body[done + k] := bytes[cur + k];
      }
      assert body[..done + i] == old(body[..done]) + bytes[cur..][..i];
      cur := cur + i;
    }
  }

  lemma {:induction false} LineEndIs(s: seq<byte>, i: nat)
    requires i < |s| && s[i] == LF && LF !in s[..i]
    ensures LineEnd(s) == i
  {
    assert forall k :: 0 <= k < i ==> s[k] == s[..i][k];
  }

  lemma {:induction false} NoLineEnd(s: seq<byte>, i: nat)
    requires i <= |s| && LF !in s[..i]
    ensures LineEnd(s) >= i
  {
    assert forall k :: 0 <= k < i ==> s[k] == s[..i][k];
  }

  // ---------- The reader ----------

  /** How the reading of a chunk ends; `Cut` if the number of reads allowed for the run is used up. */
  datatype Fetch = Got | Broke | Cut

  /** Read exactly `n` octets behind the first `done`, in as many reads as it takes. */
  method ReadChunk(w: Wire, body: array<byte>, done: nat, n: nat, budget: nat) returns (f: Fetch)
    requires w.Valid() && done + n <= body.Length && w.calls <= budget
    modifies w, body
    ensures w.Valid() && w.calls <= budget
    ensures n > |old(w.Remaining())| ==> f == Cut || (f == Broke && !w.emptyReads)
    ensures n <= |old(w.Remaining())| ==> f == Got || f == Cut
    ensures f == Got ==>
      && w.Remaining() == old(w.Remaining())[n..]
      && body[..done + n] == old(body[..done]) + old(w.Remaining())[..n]
      && w.calls + |w.Remaining()| <= old(w.calls) + |old(w.Remaining())|
    ensures f == Cut && !(w.emptyReads && n > |old(w.Remaining())|) ==> budget <= old(w.calls) + |old(w.Remaining())|
  {
    ghost var s := w.Remaining();
    var chunklen, got := n, 0;
    while chunklen > 0
      invariant w.Valid() && got + chunklen == n && 0 <= chunklen && got <= |s| && w.calls <= budget
      invariant w.Remaining() == s[got..]
      invariant body[..done + got] == old(body[..done]) + s[..got]
      invariant w.calls + |w.Remaining()| <= old(w.calls) + |s| || (w.emptyReads && n > |s|)
      decreases budget - w.calls
    {
      if w.calls == budget {
        return Cut;
      }
      var i := w.Read(body, done + got, chunklen);
      if i < 0 {
        return Broke;
      }
      assert s[..got] + s[got..][..i] == s[..got + i];
      chunklen, got := chunklen - i, got + i;
    }
    return Got;
  }

  /** The first `n` octets of `old_` in an allocation of `len`. */
  method Realloc(old_: array?<byte>, n: nat, len: nat) returns (a: array<byte>)
    requires n <= len && (if old_ == null then n == 0 else n <= old_.Length)
    ensures fresh(a) && a.Length == len
    ensures old_ != null ==> a[..n] == old_[..n]
  {
    a := new byte[len];
    if old_ != null {
      forall i | 0 <= i < n {
        a[i] := old_[i];
      }
    }
  }

  ghost function Body(body: array?<byte>, done: nat): seq<byte>
    requires if body == null then done == 0 else done <= body.Length
    reads body
  {
    if body == null then [] else body[..done]
  }

  datatype Progress = More | End | Error(code: int) | Outside | Stopped

  /**
   One turn of the loop: a chunk is read into an allocation of `done + chunklen + 1` octets, which also has room for the
   final NUL. A negative size leads to an allocation that does not hold what has been read, and to a read behind it.
   */
  method NextChunk(w: Wire, body0: array?<byte>, done0: nat, emptyBlock: bool, budget: nat)
    returns (p: Progress, body: array?<byte>, done: nat)
    requires w.Valid() && w.calls <= budget && (if body0 == null then done0 == 0 else done0 < body0.Length)
    modifies w
    ensures w.Valid() && w.calls <= budget
    ensures body == body0 || (body != null && fresh(body))
    ensures if body == null then done == 0 else done < body.Length
    ensures var whole := old(Prepend(Body(body0, done0), Decode(w.Remaining(), done0, Env(w.emptyReads, emptyBlock))));
      match p
      case Error(code) => whole == Failed && code < 0
      case Outside => whole == Overrun
      case End => whole == Done(Body(body, done), w.Remaining())
      case More =>
        && whole == Prepend(Body(body, done), Decode(w.Remaining(), done, Env(w.emptyReads, emptyBlock)))
        && |w.Remaining()| < |old(w.Remaining())|
        && w.calls + |w.Remaining()| <= old(w.calls) + |old(w.Remaining())|
      case Stopped => whole == Endless || budget <= old(w.calls) + |old(w.Remaining())|
  {
    hide TakeLine, ChunkLen, Decode;
    body, done := body0, done0;
    ghost var soFar, env := Body(body, done), Env(w.emptyReads, emptyBlock);
    DecodeStep(w.Remaining(), soFar, done, env);
    EmptyLine();
    var i, line := w.Gets();
    if i < 0 {
      return Error(i), body, done;
    }
    if i == 0 {
      return End, body, done;
    }
    var chunklen := ChunkLen(line);
    if chunklen == 0 {
      i, line := w.Gets();
      return if i == 0 then End else Error(-22), body, done;
    }
    var size := done + chunklen + 1;
    if size < 0 || (size == 0 && !emptyBlock) {
      return Error(-12), body, done;
    }
    if chunklen < 0 {
      return Outside, body, done;
    }
    body := Realloc(body, done, size);
    assert body[..done] == soFar;
    var f := ReadChunk(w, body, done, chunklen, budget);
    if f == Cut {
      return Stopped, body, done;
    }
    if f == Broke {
      return Error(-22), body, done;
    }
    done := done + chunklen;
    i, line := w.Gets();
    return if i == 0 then More else Error(-22), body, done;
  }

  /** The number of octets and the body, or an error; a read outside the allocation; or a run that was cut off. */
  datatype Outcome = Returned(done: nat) | Refused(code: int) | Overran | CutOff

  /**
   Read the body with at most `budget` reads. The result is the decoding of the input, for every schedule of reads;
   a run that never ends is cut off by every budget, any other one by none that exceeds the length of the input.
   */
  method ReadBody(w: Wire, emptyBlock: bool, budget: nat) returns (o: Outcome, body: array?<byte>)
    requires w.Valid() && w.calls <= budget
    modifies w
    ensures w.Valid()
    ensures var whole := Decode(old(w.Remaining()), 0, Env(w.emptyReads, emptyBlock));
      && (whole == Endless ==> o == CutOff)
      && (o == CutOff ==> whole == Endless || budget <= old(w.calls) + |old(w.Remaining())|)
      && (o == Overran ==> whole == Overrun)
      && (o.Refused? ==> whole == Failed && o.code < 0)
      && (o.Returned? ==>
            && (if body == null then o.done == 0 else fresh(body) && o.done < body.Length && body[o.done] == 0)
            && whole == Done(Body(body, o.done), w.Remaining()))
  {
    hide Decode;
    ghost var whole := Decode(w.Remaining(), 0, Env(w.emptyReads, emptyBlock));
    var done: nat := 0;
    body := null;
    Start(whole);
    while true
      invariant w.Valid() && w.calls <= budget
      invariant if body == null then done == 0 else fresh(body) && done < body.Length
      invariant whole == Prepend(Body(body, done), Decode(w.Remaining(), done, Env(w.emptyReads, emptyBlock)))
      invariant w.calls + |w.Remaining()| <= old(w.calls) + |old(w.Remaining())|
      decreases |w.Remaining()|
    {
      var p;
      p, body, done := NextChunk(w, body, done, emptyBlock, budget);
      match p {
        case Error(code) => return Refused(code), null;
        case Outside => return Overran, null;
        case Stopped => return CutOff, null;
        case End => break;
        case More =>
      }
    }
    if body != null {
      ghost var text := Body(body, done);
      body[done] := 0;
      assert Body(body, done) == text;
    }
    o := Returned(done);
  }

  lemma Start(r: Result)
    ensures Prepend([], r) == r
  {
    if r.Done? { assert [] + r.payload == r.payload; }
  }

  /** The decoding behind what has been read, one chunk further or at its end. */
  lemma {:induction false} DecodeStep(s: seq<byte>, prefix: seq<byte>, len: nat, env: Env)
    ensures var e := Prepend(prefix, Decode(s, len, env));
      match TakeChunk(s)
      case None => e == Prepend(prefix, Finish(s, len, env))
      case Some((data, rest)) => e == Prepend(prefix + data, Decode(rest, len + |data|, env))
    ensures prefix + [] == prefix
  {
    hide TakeChunk, Finish;
    if TakeChunk(s).Some? {
      var (data, rest) := TakeChunk(s).value;
      var r := Decode(rest, len + |data|, env);
      if r.Done? {
        assert prefix + (data + r.payload) == prefix + data + r.payload;
      }
    }
  }
}
