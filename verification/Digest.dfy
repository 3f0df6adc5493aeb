/** Quoted strings in a Digest challenge: scanning one, and escaping text for one. */
module Digest {
  import opened Common
  import opened TextBuf

  const QUOTE: byte := 34
  const BACKSLASH: byte := 92

  /** Text as it stands between quotes: each quote and backslash preceded by a backslash. */
  function Escaped(s: seq<byte>): (e: seq<byte>)
  {
    if s == [] then []
    else (if s[0] == 34 || s[0] == 92 then [92, s[0]] else [s[0]]) + Escaped(s[1..])
  }

  /** Reading escaped text: a backslash stands for the octet after it. */
  function Unescaped(e: seq<byte>): (s: seq<byte>)
    decreases |e|
  {
    if e == [] then []
    else if e[0] == 92 && |e| > 1 then [e[1]] + Unescaped(e[2..])
    else [e[0]] + Unescaped(e[1..])
  }

  lemma {:induction false} UnescapeEscape(s: seq<byte>)
    ensures Unescaped(Escaped(s)) == s
  {
    if s != [] {
      UnescapeEscape(s[1..]);
      var e := Escaped(s);
      if s[0] == QUOTE || s[0] == BACKSLASH {
        assert e[2..] == Escaped(s[1..]);
      } else {
        assert e[1..] == Escaped(s[1..]);
      }
    }
  }

  /** Where the closing quote is, `escaped` telling whether a backslash came just before; |s| if there is none. */
  function Closing(s: seq<byte>, escaped: bool): (i: nat)
    ensures i <= |s|
    ensures i < |s| ==> s[i] == QUOTE
  {
    if s == [] || (!escaped && s[0] == QUOTE) then 0
    else 1 + Closing(s[1..], !escaped && s[0] == BACKSLASH)
  }

  lemma {:induction false} ClosingAfterEscaped(s: seq<byte>, rest: seq<byte>)
    ensures Closing(Escaped(s) + [QUOTE] + rest, false) == |Escaped(s)|
  {
    var t := Escaped(s) + [QUOTE] + rest;
    if s != [] {
      ClosingAfterEscaped(s[1..], rest);
      var u := Escaped(s[1..]) + [QUOTE] + rest;
      if s[0] == QUOTE || s[0] == BACKSLASH {
        assert t[1..] == [s[0]] + u;
        assert t[1..][1..] == u;
      } else {
        assert t[1..] == u;
      }
    }
  }

  /** A quoted string at the head of `s`: its text, escapes kept, and what follows it. */
  function QuotedString(s: seq<byte>): (r: Option<(seq<byte>, seq<byte>)>)
  {
    if s == [] || s[0] != QUOTE then None
    else
      var i := Closing(s[1..], false);
      if i == |s| - 1 then None else Some((s[1..i + 1], s[i + 2..]))
  }

  /** Escaped text put between quotes is scanned back whole, whatever follows, and means the original text. */
  lemma QuotedRoundTrip(s: seq<byte>, rest: seq<byte>)
    ensures QuotedString([34] + Escaped(s) + [34] + rest) == Some((Escaped(s), rest))
    ensures Unescaped(Escaped(s)) == s
  {
    var t := [QUOTE] + Escaped(s) + [QUOTE] + rest;
    assert t[1..] == Escaped(s) + [QUOTE] + rest;
    ClosingAfterEscaped(s, rest);
    UnescapeEscape(s);
    assert t[1..|Escaped(s)| + 1] == Escaped(s);
    assert t[|Escaped(s)| + 2..] == rest;
  }

  /** Append text with its quotes and backslashes escaped; an error is recorded exactly if it does not fit with a final NUL. */
  method BufAppendUnq(buf: Buf, str: seq<byte>)
    requires buf.Valid()
    modifies buf, buf.data
    ensures buf.Valid()
    ensures buf.data == old(buf.data) || fresh(buf.data)
    ensures old(buf.error) != 0 ==> buf.error != 0
    ensures old(buf.error) == 0 ==> (buf.error == 0 <==> str == [] || old(buf.pos) + |Escaped(str)| + 1 <= 131072)
    ensures buf.error == 0 ==> buf.Text() == old(buf.Text()) + Escaped(str)
  {
    hide Escaped, Chunks;
    ghost var before := buf.Text();
    assert str[0..] == str;
    for i := 0 to |str|
      invariant buf.Valid()
      invariant buf.data == old(buf.data) || fresh(buf.data)
      invariant buf.error == 0 ==> old(buf.error) == 0 && (i > 0 ==> buf.pos + 1 <= MAX_BUF_LEN)
      invariant buf.error == 0 ==> buf.Text() + Escaped(str[i..]) == before + Escaped(str)
      invariant buf.error != 0 && old(buf.error) == 0 ==> i > 0 && |before + Escaped(str)| + 1 > MAX_BUF_LEN
    {
      ghost var text := buf.Text();
      EscapedStep(str, i, text);
      CapIsMultiple(buf.pos + 2);
      CapIsMultiple(buf.pos + 3);
      if str[i] == QUOTE || str[i] == BACKSLASH {
        buf.AppendBytes([BACKSLASH]);
      }
      buf.AppendBytes([str[i]]);
    }
    NothingLeft(str[|str|..], buf.Text());
  }

  lemma NothingLeft(s: seq<byte>, text: seq<byte>)
    requires s == []
    ensures text + Escaped(s) == text
  {}

  lemma {:induction false} EscapedStep(s: seq<byte>, i: nat, text: seq<byte>)
    requires i < |s|
    ensures text + Escaped(s[i..]) ==
      (if s[i] == QUOTE || s[i] == BACKSLASH then text + [BACKSLASH] + [s[i]] else text + [s[i]]) + Escaped(s[i + 1..])
  {
    assert s[i..][1..] == s[i + 1..];
    var tail := Escaped(s[i + 1..]);
    assert text + ([BACKSLASH, s[i]] + tail) == text + [BACKSLASH] + [s[i]] + tail;
    assert text + ([s[i]] + tail) == text + [s[i]] + tail;
  }

  /**
   Scan a quoted string at the head of the C string `str`. The text is copied with its escapes;
   null if there is none, or if the text does not fit a buffer.
   */
  method GetQs(str: seq<byte>) returns (res: Buf?, rest: seq<byte>)
    ensures res != null ==> fresh(res) && fresh(res.data) && res.Valid() && res.error == 0
    ensures res != null ==> QuotedString(str) == Some((res.Text(), rest))
    ensures QuotedString(str).None? ==> res == null && rest == str
    ensures QuotedString(str).Some? && |QuotedString(str).value.0| < 131072 ==> res != null
  {
    hide Closing, Chunks;
    rest := str;
    if str == [] || str[0] != QUOTE {
      return null, rest;
    }
    var buf := new Buf();
    var p, escaped := 1, false;
    ghost var i := Closing(str[1..], false);
    while p < |str|
      invariant 1 <= p <= |str|
      invariant fresh(buf) && fresh(buf.data) && buf.Valid()
      invariant buf.error == 0 ==> buf.Text() == str[1..p]
      invariant p - 1 < MAX_BUF_LEN ==> buf.error == 0 && buf.pos == p - 1
      invariant i == p - 1 + Closing(str[p..], escaped)
    {
      ClosingStep(str, p, escaped);
      if !escaped && str[p] == QUOTE {
        if buf.error != 0 {
          return null, str[p + 1..];
        }
        return buf, str[p + 1..];
      }
      if escaped {
        escaped := false;
      } else if str[p] == BACKSLASH {
        escaped := true;
      }
      RoomFor(p);
      buf.AppendBytes([str[p]]);
      assert str[1..p + 1] == str[1..p] + [str[p]];
      p := p + 1;
    }
    ClosingEnd(str[p..], escaped);
    return null, str;
  }

  lemma RoomFor(p: nat)
    ensures 1 <= p < 131072 ==> Chunks(p - 1 + 1 + 1) <= 131072
  {}

  lemma ClosingEnd(s: seq<byte>, escaped: bool)
    requires s == []
    ensures Closing(s, escaped) == 0
  {}

  lemma {:induction false} ClosingStep(s: seq<byte>, p: nat, escaped: bool)
    requires p < |s|
    ensures Closing(s[p..], escaped) ==
      if !escaped && s[p] == QUOTE then 0 else 1 + Closing(s[p + 1..], !escaped && s[p] == BACKSLASH)
  {
    assert s[p..][1..] == s[p + 1..];
  }
}
