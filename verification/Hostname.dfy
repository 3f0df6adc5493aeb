/**
 Matching the host name against a name found in the server's certificate (section 3.1 of RFC 2818).
 A C string is the sequence of its characters before the terminator.
 */
module Hostname {
  import opened Common

  function ToUpper(c: char): (u: char)
  {
    if 'a' <= c <= 'z' then c - 'a' + 'A' else c
  }

  // ---------- What a match means ----------

  predicate Letter(c: char) { 'A' <= c <= 'Z' || 'a' <= c <= 'z' }

  /** The same character, or a letter in its two forms, whose codes are 32 apart. */
  predicate Same(c: char, d: char)
  {
    c == d || (Letter(c) && Letter(d) && (c as int == d as int + 32 || d as int == c as int + 32))
  }

  /** Comparing after the conversion is comparing without regard to case. */
  lemma ToUpperSame(c: char, d: char)
    ensures ToUpper(c) == ToUpper(d) <==> Same(c, d)
  {}

  /** How the characters of one label are shared out to the characters of its pattern. */
  ghost predicate SharedOut(parts: seq<string>, host: string, pattern: string)
  {
    && |parts| == |pattern|
    && Flatten(parts) == host
    && forall k :: 0 <= k < |pattern| ==>
         if pattern[k] == '*' then |parts[k]| >= 1
         else |parts[k]| == 1 && Same(parts[k][0], pattern[k])
  }

  ghost predicate LabelMatches(host: string, pattern: string)
  {
    exists parts :: SharedOut(parts, host, pattern)
  }

  function IndexOf(s: string, c: char): (i: nat)
    ensures i <= |s|
    ensures i < |s| ==> s[i] == c
    ensures forall j :: 0 <= j < i ==> s[j] != c
  {
    if s == [] || s[0] == c then 0 else 1 + IndexOf(s[1..], c)
  }

  /** The dot-separated labels of a name; a name without dots is one label. */
  function Labels(s: string): (ls: seq<string>)
    ensures |ls| >= 1
    decreases |s|
  {
    var i := IndexOf(s, '.');
    if i == |s| then [s] else [s[..i]] + Labels(s[i + 1..])
  }

  function Joined(ls: seq<string>): (s: string)
    requires |ls| >= 1
  {
    if |ls| == 1 then ls[0] else ls[0] + "." + Joined(ls[1..])
  }

  /** The labels are the pieces without dots that, joined by dots, are the name. */
  lemma {:induction false} LabelsJoined(s: string)
    ensures Joined(Labels(s)) == s && forall k :: 0 <= k < |Labels(s)| ==> '.' !in Labels(s)[k]
    decreases |s|
  {
    var i := IndexOf(s, '.');
    if i < |s| {
      LabelsJoined(s[i + 1..]);
      var ls := Labels(s[i + 1..]);
      assert ([s[..i]] + ls)[1..] == ls;
      assert s == s[..i] + "." + s[i + 1..];
    }
  }

  ghost predicate NameMatches(host: string, pattern: string)
  {
    AllMatch(Labels(host), Labels(pattern))
  }

  ghost predicate AllMatch(hosts: seq<string>, patterns: seq<string>)
  {
    && |hosts| == |patterns|
    && forall k :: 0 <= k < |hosts| ==> LabelMatches(hosts[k], patterns[k])
  }

  // ---------- The backtracking search inside one element ----------

  /** Zero for a match in the source; here, whether there is one. */
  method MatchHostnameElem(host: string, pattern: string) returns (matched: bool)
    ensures matched <==> LabelMatches(host, pattern)
    decreases |pattern|
  {
    if |host| == 0 && |pattern| == 0 {
      assert SharedOut([], host, pattern);
      return true;
    }
    if |host| == 0 || |pattern| == 0 {
      OneSideEmpty(host, pattern);
      return false;
    }
    if pattern[0] == '*' {
      for i := 1 to |host| + 1
        invariant forall k :: 1 <= k < i ==> !LabelMatches(host[k..], pattern[1..])
      {
        var rest := MatchHostnameElem(host[i..], pattern[1..]);
        if rest {
          Prepend(host, pattern, i);
          return true;
        }
      }
      Split(host, pattern);
      return false;
    }
    Split(host, pattern);
    ToUpperSame(host[0], pattern[0]);
    if ToUpper(host[0]) == ToUpper(pattern[0]) {
      matched := MatchHostnameElem(host[1..], pattern[1..]);
      if matched {
        Prepend(host, pattern, 1);
      }
      return matched;
    }
    return false;
  }

  lemma {:induction false} OneSideEmpty(host: string, pattern: string)
    requires (|host| == 0) != (|pattern| == 0)
    ensures !LabelMatches(host, pattern)
  {
    forall parts: seq<string> | |parts| == |pattern| && Flatten(parts) == host && pattern != []
      ensures |parts[0]| == 0
    {
      assert |parts[0]| <= |Flatten(parts)|;
    }
  }

  /** A label matches if its first `i` characters go to the first pattern character and the rest matches the rest. */
  lemma Prepend(host: string, pattern: string, i: nat)
    requires 1 <= i <= |host| && pattern != []
    requires pattern[0] == '*' || (i == 1 && Same(host[0], pattern[0]))
    requires LabelMatches(host[i..], pattern[1..])
    ensures LabelMatches(host, pattern)
  {
    var rest :| SharedOut(rest, host[i..], pattern[1..]);
    var parts := [host[..i]] + rest;
    assert parts[1..] == rest;
    assert host[..i] + host[i..] == host;
    assert SharedOut(parts, host, pattern);
  }

  /** And only if: the first pattern character takes some leading characters, the rest matches the rest. */
  lemma Split(host: string, pattern: string)
    requires host != [] && pattern != []
    ensures LabelMatches(host, pattern) ==>
      exists i :: 1 <= i <= |host| && (pattern[0] == '*' || (i == 1 && Same(host[0], pattern[0])))
        && LabelMatches(host[i..], pattern[1..])
  {
    if LabelMatches(host, pattern) {
      var parts :| SharedOut(parts, host, pattern);
      var i := |parts[0]|;
      assert host == parts[0] + Flatten(parts[1..]);
      assert host[i..] == Flatten(parts[1..]);
      assert SharedOut(parts[1..], host[i..], pattern[1..]);
      assert LabelMatches(host[i..], pattern[1..]);
    }
  }

  // ---------- The loop over elements ----------

  /** `strchr`: the offset of the first `c`, if there is one. */
  method StrChr(s: string, c: char) returns (r: Option<nat>)
    ensures r == if IndexOf(s, c) < |s| then Some(IndexOf(s, c)) else None
  {
    var i := 0;
    while i < |s|
      invariant 0 <= i <= |s|
      invariant IndexOf(s, c) == i + IndexOf(s[i..], c)
    {
      if s[i] == c {
        return Some(i);
      }
      assert s[i..][1..] == s[i + 1..];
      i := i + 1;
    }
    return None;
  }

  /** An element passed to the search is a label together with the dot that ends it. */
  lemma DottedLabel(host: string, pattern: string)
    requires '.' !in host && '.' !in pattern
    ensures LabelMatches(host + ".", pattern + ".") <==> LabelMatches(host, pattern)
  {
    if LabelMatches(host, pattern) {
      var parts :| SharedOut(parts, host, pattern);
      FlattenSnoc(parts, ".");
      assert SharedOut(parts + ["."], host + ".", pattern + ".");
    }
    if LabelMatches(host + ".", pattern + ".") {
      var parts :| SharedOut(parts, host + ".", pattern + ".");
      var n := |pattern|;
      assert parts == parts[..n] + [parts[n]];
      FlattenSnoc(parts[..n], parts[n]);
      var f := Flatten(parts[..n]);
      assert (pattern + ".")[n] == '.';
      assert f + parts[n] == host + ".";
      assert |f| == |host|;
      assert f == (f + parts[n])[..|f|] == (host + ".")[..|host|] == host;
      forall k | 0 <= k < n
        ensures if pattern[k] == '*' then |parts[k]| >= 1
                else |parts[k]| == 1 && Same(parts[k][0], pattern[k])
      {
        assert (pattern + ".")[k] == pattern[k];
      }
      assert SharedOut(parts[..n], host, pattern);
    }
  }

  lemma FlattenSnoc<T>(parts: seq<seq<T>>, last: seq<T>)
    ensures Flatten(parts + [last]) == Flatten(parts) + last
  {
    if parts == [] {
      assert parts + [last] == [last];
    } else {
      assert (parts + [last])[1..] == parts[1..] + [last];
      FlattenSnoc(parts[1..], last);
    }
  }

  lemma EmptyMatchesOnlyEmpty(host: string)
    ensures LabelMatches(host, "") <==> host == ""
  {
    if host == "" {
      assert SharedOut([], host, "");
    }
  }

  /** Peeling the first label off both names. */
  lemma {:induction false} NameMatchesStep(host: string, pattern: string)
    ensures var h, m := IndexOf(host, '.'), IndexOf(pattern, '.');
      if h < |host| && m < |pattern| then
        NameMatches(host, pattern) <==> LabelMatches(host[..h + 1], pattern[..m + 1]) && NameMatches(host[h + 1..], pattern[m + 1..])
      else if h == |host| && m == |pattern| then
        NameMatches(host, pattern) <==> LabelMatches(host, pattern)
      else !NameMatches(host, pattern)
  {
    hide LabelMatches, AllMatch;
    var h, m := IndexOf(host, '.'), IndexOf(pattern, '.');
    if h < |host| && m < |pattern| {
      DottedLabel(host[..h], pattern[..m]);
      assert host[..h] + "." == host[..h + 1];
      assert pattern[..m] + "." == pattern[..m + 1];
      AllMatchCons(host[..h], Labels(host[h + 1..]), pattern[..m], Labels(pattern[m + 1..]));
    } else if h == |host| && m == |pattern| {
      AllMatchCons(host, [], pattern, []);
      assert [host] + [] == [host] && [pattern] + [] == [pattern];
      NoLabels();
    } else {
      DifferentCounts(Labels(host), Labels(pattern));
    }
  }

  lemma NoLabels()
    ensures AllMatch([], [])
  {}

  lemma DifferentCounts(hs: seq<string>, ms: seq<string>)
    requires |hs| != |ms|
    ensures !AllMatch(hs, ms)
  {}

  lemma AllMatchCons(h: string, hs: seq<string>, m: string, ms: seq<string>)
    ensures AllMatch([h] + hs, [m] + ms) <==> LabelMatches(h, m) && AllMatch(hs, ms)
  {
    if AllMatch([h] + hs, [m] + ms) {
      assert LabelMatches(([h] + hs)[0], ([m] + ms)[0]);
      forall k | 0 <= k < |hs| ensures LabelMatches(hs[k], ms[k]) {
        assert LabelMatches(([h] + hs)[k + 1], ([m] + ms)[k + 1]);
      }
    }
  }

  /**
   Accepted exactly when both names have the same number of labels and each host label matches
   its pattern label.
   */
  method MatchHostname(hostname: string, match_: string) returns (matched: bool)
    ensures matched <==> NameMatches(hostname, match_)
  {
    hide LabelMatches, NameMatches;
    var h, m := 0, 0;
    while m < |match_|
      invariant 0 <= h <= |hostname| && 0 <= m <= |match_|
      invariant NameMatches(hostname, match_) <==> NameMatches(hostname[h..], match_[m..])
      decreases |match_| - m
    {
      NameMatchesStep(hostname[h..], match_[m..]);
      var hDot := StrChr(hostname[h..], '.');
      var mDot := StrChr(match_[m..], '.');
      var hLen, mLen;
      if hDot.Some? && mDot.Some? {
        hLen, mLen := hDot.value + 1, mDot.value + 1;
      } else if hDot.None? && mDot.None? {
        hLen, mLen := |hostname| - h, |match_| - m;
      } else {
        return false;
      }
      var helem, melem := hostname[h..h + hLen], match_[m..m + mLen];
      assert helem == hostname[h..][..hLen] && melem == match_[m..][..mLen];
      assert hDot.None? ==> helem == hostname[h..] && melem == match_[m..];
      var ok := MatchHostnameElem(helem, melem);
      if !ok {
        return false;
      }
      assert hostname[h..][hLen..] == hostname[h + hLen..] && match_[m..][mLen..] == match_[m + mLen..];
      h, m := h + hLen, m + mLen;
      if hDot.None? {
        NameMatchesStep("", "");
        EmptyMatchesOnlyEmpty("");
        assert hostname[h..] == "" && match_[m..] == "";
      }
    }
    NameMatchesStep(hostname[h..], match_[m..]);
    EmptyMatchesOnlyEmpty(hostname[h..]);
    return h == |hostname|;
  }
}
