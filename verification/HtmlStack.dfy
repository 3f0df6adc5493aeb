/**
 The open-element stack of the HTML parser: what start tags, end tags and text do to it, and the
 SAX events that are emitted on the way.
 */
module HtmlStack {
  import opened Common
  import opened HtmlTables

  // ---------- Events ----------

  /** `Abandon` is the silent pop of an element whose start tag is not terminated. */
  datatype Event = Start(name: string) | End(name: string) | Abandon(name: string)

  function Apply(s: Option<seq<string>>, e: Event): (r: Option<seq<string>>)
  {
    match s
    case None => None
    case Some(open) =>
      match e
      case Start(n) => Some(open + [n])
      case _ => if open != [] && open[|open| - 1] == e.name then Some(open[..|open| - 1]) else None
  }

  /** The elements open after a trace, if each end matches the innermost open start. */
  function Replay(trace: seq<Event>): (r: Option<seq<string>>)
  {
    if trace == [] then Some([]) else Apply(Replay(trace[..|trace| - 1]), trace[|trace| - 1])
  }

  lemma ReplaySnoc(trace: seq<Event>, e: Event)
    ensures Replay(trace + [e]) == Apply(Replay(trace), e)
  {
    assert (trace + [e])[..|trace|] == trace;
  }

  lemma ReplayStart(trace: seq<Event>, s: seq<string>, n: string)
    requires Replay(trace) == Some(s)
    ensures Replay(trace + [Start(n)]) == Some(s + [n])
  {
    ReplaySnoc(trace, Start(n));
  }

  lemma ReplayPop(trace: seq<Event>, s: seq<string>, e: Event)
    requires Replay(trace) == Some(s) && s != [] && !e.Start? && e.name == s[|s| - 1]
    ensures Replay(trace + [e]) == Some(s[..|s| - 1])
  {
    ReplaySnoc(trace, e);
  }

  // ---------- The shape of the stack ----------

  /** `html` only at the bottom and always there, `head` only just above it, `body` at most once. */
  ghost predicate Shape(s: seq<string>)
  {
    && (s != [] ==> s[0] == "html")
    && (forall i :: 0 <= i < |s| && s[i] == "html" ==> i == 0)
    && (forall i :: 0 <= i < |s| && s[i] == "head" ==> i == 1)
    && (forall i, j :: 0 <= i < j < |s| && s[i] == "body" ==> s[j] != "body")
  }

  lemma ShapeOfPrefix(s: seq<string>, k: nat)
    requires Shape(s) && k <= |s|
    ensures Shape(s[..k])
  {}

  lemma ShapePush(s: seq<string>, n: string)
    requires Shape(s)
    requires n == "html" ==> s == []
    requires n != "html" ==> s != []
    requires n == "head" ==> |s| == 1
    requires n == "body" ==> "body" !in s
    ensures Shape(s + [n])
  {}

  lemma PushPlaced(s: seq<string>, n: string)
    requires Shape(s) && !Misplaced(s, n)
    requires n != "html" ==> s != []
    ensures Shape(s + [n])
  {}

  /** A start tag is discarded exactly if opening its element would break the shape. */
  lemma MisplacedIff(s: seq<string>, n: string)
    requires Shape(s)
    requires n != "html" ==> s != []
    ensures Misplaced(s, n) <==> !Shape(s + [n])
  {
    var r := s + [n];
    assert r[|s|] == n && forall i :: 0 <= i < |s| ==> r[i] == s[i];
  }

  // ---------- What the operations do to the stack ----------

  /** The position of the last open element called `name`; |s| if there is none. */
  function LastOpen(s: seq<string>, name: string): (k: nat)
    ensures k <= |s|
    ensures k < |s| ==> s[k] == name && forall j :: k < j < |s| ==> s[j] != name
    ensures k == |s| <==> name !in s
  {
    if s == [] then 0
    else if s[|s| - 1] == name then |s| - 1
    else
      var k := LastOpen(s[..|s| - 1], name);
      if k == |s| - 1 then |s| else k
  }

  /** An end tag reaches the last element of its name over elements of no higher priority. */
  ghost predicate Reaches(s: seq<string>, name: string)
  {
    var k := LastOpen(s, name);
    k < |s| && forall j :: k < j < |s| ==> EndPriority(s[j]) <= EndPriority(name)
  }

  /** How far a start tag closes elements from the top. */
  function ClosedDownTo(s: seq<string>, newtag: string): (k: nat)
    ensures k <= |s|
    ensures forall j :: k <= j < |s| ==> Closes(newtag, s[j])
    ensures k > 0 ==> !Closes(newtag, s[k - 1])
  {
    hide Closes;
    if s != [] && Closes(newtag, s[|s| - 1]) then ClosedDownTo(s[..|s| - 1], newtag) else |s|
  }

  /** The end events for closing everything above the first `k` elements, innermost first. */
  function Ends(s: seq<string>, k: nat): (t: seq<Event>)
    requires k <= |s|
    decreases |s|
  {
    if k == |s| then [] else [End(s[|s| - 1])] + Ends(s[..|s| - 1], k)
  }

  predicate HeadOnly(n: string) { n in {"script", "style", "meta", "link", "title", "base"} }
  predicate Frames(n: string) { n in {"noframes", "frame", "frameset"} }
  predicate Structural(n: string) { n == "html" || n == "body" || n == "head" }

  /** The elements implied before `newtag` when `s` is open and `html` records what was seen. */
  function ImpliedBefore(s: seq<string>, html: int, newtag: string): (add: seq<string>)
  {
    var root := if newtag != "html" && s == [] then ["html"] else [];
    var n := |s| + |root|;
    if Structural(newtag) then root
    else if HeadOnly(newtag) && n <= 1 then
      if html < 3 then root + ["head"] else root
    else if !Frames(newtag) && html < 10 && "body" !in s && "head" !in s then root + ["body"]
    else root
  }

  /** `html` above anything, `head` anywhere but just above `html`, a second `body`. */
  predicate Misplaced(s2: seq<string>, n: string)
  {
    (n == "html" && s2 != []) || (n == "head" && |s2| != 1) || (n == "body" && "body" in s2)
  }

  function Starts(names: seq<string>): (t: seq<Event>)
  {
    seq(|names|, i requires 0 <= i < |names| => Start(names[i]))
  }

  datatype Terminator = SelfClosed | Closed | Missing

  datatype Input =
    | StartTag(tag: Option<string>, term: Terminator, atEnd: bool)
    | EndTag(tag: Option<string>)
    | NextTag(next: string)
    | Text
    | EndOfInput

  // ---------- What each input does, as a value ----------

  /** The stack after an input and the events emitted for it. */
  datatype Effect = Effect(open: seq<string>, events: seq<Event>)

  function CloseEffect(s: seq<string>, newtag: string): Effect
  {
    Effect(s[..ClosedDownTo(s, newtag)], Ends(s, ClosedDownTo(s, newtag)))
  }

  function ImplyEffect(s: seq<string>, html: int, implies: bool, newtag: string): Effect
  {
    var add := if implies then ImpliedBefore(s, html, newtag) else [];
    Effect(s + add, Starts(add))
  }

  /** A start tag first closes, then implies, and is then opened unless it is misplaced. */
  function StartEffect(s: seq<string>, html: int, implies: bool, n: string): Effect
  {
    var e1 := CloseEffect(s, n);
    var e2 := ImplyEffect(e1.open, html, implies, n);
    if Misplaced(e2.open, n) then Effect(e2.open, e1.events + e2.events)
    else Effect(e2.open + [n], e1.events + e2.events + [Start(n)])
  }

  /** An element is closed at once if it is empty, and abandoned if its start tag is not terminated. */
  function FinishEffect(a: seq<string>, term: Terminator, atEnd: bool): Effect
  {
    if a == [] then Effect(a, [])
    else
      var below, top := a[..|a| - 1], a[|a| - 1];
      if term == SelfClosed || (term == Closed && IsEmptyElement(top)) then Effect(below, [End(top)])
      else if term == Closed then Effect(a, [])
      else if atEnd then Effect([], [Abandon(top)] + Ends(below, 0))
      else Effect(below, [Abandon(top)])
  }

  function ElementEffect(s: seq<string>, html: int, implies: bool, tag: Option<string>, term: Terminator, atEnd: bool): Effect
  {
    if tag.None? then Effect(s, [])
    else
      var e1 := StartEffect(s, html, implies, tag.value);
      var e2 := FinishEffect(e1.open, term, atEnd);
      Effect(e2.open, e1.events + e2.events)
  }

  predicate Swallowed(depth: nat, tag: Option<string>) { tag.Some? && depth > 0 && Structural(tag.value) }

  ghost function EndTagEffect(s: seq<string>, depth: nat, tag: Option<string>): Effect
  {
    if tag.Some? && !Swallowed(depth, tag) && Reaches(s, tag.value) then
      Effect(s[..LastOpen(s, tag.value)], Ends(s, LastOpen(s, tag.value)))
    else Effect(s, [])
  }

  /** Text where the innermost element takes none opens a paragraph. */
  function TextEffect(s: seq<string>, html: int, implies: bool, omittedDefault: bool): Effect
  {
    if s == [] || (omittedDefault && s[|s| - 1] in {"html", "head"}) then
      var e1 := CloseEffect(s, "p");
      var e2 := ImplyEffect(e1.open, html, implies, "p");
      Effect(e2.open + ["p"], e1.events + e2.events + [Start("p")])
    else Effect(s, [])
  }

  ghost function InputEffect(s: seq<string>, html: int, depth: nat, implies: bool, omittedDefault: bool, input: Input): Effect
  {
    match input
    case StartTag(tag, term, atEnd) => ElementEffect(s, html, implies, tag, term, atEnd)
    case EndTag(tag) => EndTagEffect(s, depth, tag)
    case NextTag(next) => CloseEffect(s, next)
    case Text => TextEffect(s, html, implies, omittedDefault)
    case EndOfInput => Effect([], Ends(s, 0))
  }

  /**
   An end tag leaves the stack as it is, or cuts it just below the last element of that name; every element closed on
   the way has a priority no higher than the tag's, and each gets its end event.
   */
  lemma EndTagCuts(s: seq<string>, depth: nat, n: string)
    ensures var e := EndTagEffect(s, depth, Some(n));
      || (e.open == s && e.events == [])
      || (&& |e.open| < |s| && e.open == s[..|e.open|] && s[|e.open|] == n
          && (forall j :: |e.open| < j < |s| ==> s[j] != n && EndPriority(s[j]) <= EndPriority(n))
          && |e.events| == |s| - |e.open| && forall i :: 0 <= i < |e.events| ==> e.events[i] == End(s[|s| - 1 - i]))
  {
    hide EndPriority;
    EndsAt(s, LastOpen(s, n));
  }

  lemma {:induction false} EndsAt(s: seq<string>, k: nat)
    requires k <= |s|
    ensures |Ends(s, k)| == |s| - k && forall i :: 0 <= i < |s| - k ==> Ends(s, k)[i] == End(s[|s| - 1 - i])
    decreases |s|
  {
    if k < |s| {
      EndsAt(s[..|s| - 1], k);
    }
  }

  /** Implied elements give a tag its place: everything is below html, content in a body or head unless a body was seen. */
  lemma ImpliedPlaces(s: seq<string>, html: int, n: string)
    ensures var add := ImpliedBefore(s, html, n);
      && (n == "html" ==> add == [])
      && (n != "html" ==> s + add != [] && (s == [] ==> add[0] == "html"))
      && (s != [] && n in {"html", "head", "body"} ==> add == [])
      && (n in {"script", "style", "meta", "link", "title", "base"} && |s| <= 1 && html < 3 ==> |s + add| == 2 && (s + add)[1] == "head")
      && (s != [] && n in {"script", "style", "meta", "link", "title", "base"} && |s| <= 1 && html >= 3 ==> add == [])
      && (s != [] && n in {"noframes", "frame", "frameset"} ==> add == [])
      && (n !in {"html", "head", "body", "script", "style", "meta", "link", "title", "base", "noframes", "frame", "frameset"} && html < 10
          ==> "body" in s + add || "head" in s + add)
      && (|s| > 1 && ("body" in s || "head" in s || html >= 10) ==> add == [])
  {}

  /** Text before anything else opens the three elements it needs. */
  lemma TextOutcome(html: int)
    requires html < 10
    ensures TextEffect([], html, true, true) == Effect(["html", "body", "p"], [Start("html"), Start("body"), Start("p")])
    ensures TextEffect([], html, false, false) == Effect(["p"], [Start("p")])
  {
    hide Closes;
    assert ImpliedBefore([], html, "p") == ["html", "body"];
  }

  // ---------- What becomes of an element ----------

  /** What a start tag closes and what it implies, and the stack the element is then opened on. */
  function Implied(s: seq<string>, html: int, implies: bool, n: string): (add: seq<string>)
  {
    if implies then ImpliedBefore(s[..ClosedDownTo(s, n)], html, n) else []
  }

  function Base(s: seq<string>, html: int, implies: bool, n: string): (base: seq<string>)
  {
    s[..ClosedDownTo(s, n)] + Implied(s, html, implies, n)
  }

  function Before(s: seq<string>, html: int, implies: bool, n: string): (t: seq<Event>)
  {
    Ends(s, ClosedDownTo(s, n)) + Starts(Implied(s, html, implies, n))
  }

  lemma StartOutcome(s: seq<string>, html: int, implies: bool, n: string)
    requires !Misplaced(Base(s, html, implies, n), n)
    ensures StartEffect(s, html, implies, n) == Effect(Base(s, html, implies, n) + [n], Before(s, html, implies, n) + [Start(n)])
  {
    hide Misplaced, ImpliedBefore, ClosedDownTo, Ends, Starts;
  }

  lemma FinishOutcome(base: seq<string>, n: string, term: Terminator, atEnd: bool)
    ensures var e := FinishEffect(base + [n], term, atEnd);
      && (term == SelfClosed ==> e == Effect(base, [End(n)]))
      && (term == Closed && IsEmptyElement(n) ==> e == Effect(base, [End(n)]))
      && (term == Closed && !IsEmptyElement(n) ==> e == Effect(base + [n], []))
      && (term == Missing && !atEnd ==> e == Effect(base, [Abandon(n)]))
      && (term == Missing && atEnd ==> e == Effect([], [Abandon(n)] + Ends(base, 0)))
  {
    hide IsEmptyElement, Ends;
    assert (base + [n])[..|base|] == base;
  }

  /**
   A self-closed element, and an empty one whose start tag ends, leave the stack they were opened on, with a start and an
   end; any other one whose tag ends stays open; one whose tag does not end is abandoned, and at the end of the input
   everything below it is closed.
   */
  lemma ElementOutcome(s: seq<string>, html: int, implies: bool, n: string, term: Terminator, atEnd: bool)
    requires !Misplaced(Base(s, html, implies, n), n)
    ensures var base, t := Base(s, html, implies, n), Before(s, html, implies, n);
      var e := ElementEffect(s, html, implies, Some(n), term, atEnd);
      && (term == SelfClosed ==> e.open == base && e.events == t + [Start(n), End(n)])
      && (term == Closed && IsEmptyElement(n) ==> e.open == base && e.events == t + [Start(n), End(n)])
      && (term == Closed && !IsEmptyElement(n) ==> e.open == base + [n] && e.events == t + [Start(n)])
      && (term == Missing && !atEnd ==> e.open == base && e.events == t + [Start(n), Abandon(n)])
      && (term == Missing && atEnd ==> e.open == [] && e.events == t + [Start(n), Abandon(n)] + Ends(base, 0))
  {
    var base, t := Base(s, html, implies, n), Before(s, html, implies, n);
    StartOutcome(s, html, implies, n);
    FinishOutcome(base, n, term, atEnd);
    hide StartEffect, FinishEffect, IsEmptyElement, Base, Before, Ends;
    TwoMore(t, [Start(n)], FinishEffect(base + [n], term, atEnd).events);
    assert [Start(n)] + [End(n)] == [Start(n), End(n)] && [Start(n)] + [] == [Start(n)];
    assert [Start(n)] + [Abandon(n)] == [Start(n), Abandon(n)];
    TwoMore(t, [Start(n), Abandon(n)], Ends(base, 0));
    TwoMore([Start(n)], [Abandon(n)], Ends(base, 0));
  }

  /** A misplaced tag is discarded, but how it ends decides about the innermost element instead. */
  lemma MisplacedOutcome(s: seq<string>, html: int, implies: bool, n: string, term: Terminator, atEnd: bool)
    requires Misplaced(Base(s, html, implies, n), n)
    ensures var base, t := Base(s, html, implies, n), Before(s, html, implies, n);
      var e := ElementEffect(s, html, implies, Some(n), term, atEnd);
      && (base == [] ==> e.open == [] && e.events == t)
      && (base != [] ==>
          var below, top := base[..|base| - 1], base[|base| - 1];
          && (term == SelfClosed ==> e.open == below && e.events == t + [End(top)])
          && (term == Closed && IsEmptyElement(top) ==> e.open == below && e.events == t + [End(top)])
          && (term == Closed && !IsEmptyElement(top) ==> e.open == base && e.events == t)
          && (term == Missing && !atEnd ==> e.open == below && e.events == t + [Abandon(top)])
          && (term == Missing && atEnd ==> e.open == [] && e.events == t + [Abandon(top)] + Ends(below, 0)))
  {
    hide Misplaced, IsEmptyElement, ImpliedBefore, ClosedDownTo, Ends, Starts;
    var t := Before(s, html, implies, n);
    NothingMore(t);
    if Base(s, html, implies, n) != [] {
      var below, top := Base(s, html, implies, n)[..|Base(s, html, implies, n)| - 1], Base(s, html, implies, n)[|Base(s, html, implies, n)| - 1];
      TwoMore(t, [Abandon(top)], Ends(below, 0));
    }
  }

  class Parser {
    var nameTab: array<string>
    var nameNr: nat
    var nameMax: nat
    var name: Option<string>
    var html: int
    var depth: nat
    const noImplied: bool
    const omittedDefault: bool
    /** The elements in the table, outermost first, and the events so far. */
    ghost var open: seq<string>
    ghost var trace: seq<Event>

    ghost predicate Implies() { !noImplied && omittedDefault }

    /** The table holds the open elements and `name` is the innermost one. */
    ghost predicate TableOk()
      reads this`nameTab, this`nameMax, this`nameNr, this`name, this`open, nameTab
    {
      && nameTab.Length == nameMax >= 1 && nameNr <= nameMax
      && open == nameTab[..nameNr]
      && name == (if nameNr == 0 then None else Some(open[nameNr - 1]))
    }

    ghost predicate Valid()
      reads this`nameTab, this`nameMax, this`nameNr, this`name, this`open, this`trace, nameTab
    {
      && TableOk()
      && Replay(trace) == Some(open)
      && (Implies() ==> Shape(open))
    }

    constructor (noImplied: bool, omittedDefault: bool)
      ensures Valid() && fresh(nameTab) && open == [] && trace == [] && html == 1 && depth == 0
      ensures this.noImplied == noImplied && this.omittedDefault == omittedDefault
    {
      nameTab := new string[10](_ => "");
      nameNr, nameMax, name, html, depth, open, trace := 0, 10, None, 1, 0, [], [];
      this.noImplied, this.omittedDefault := noImplied, omittedDefault;
    }

    // ---------- Push and pop, with the event that goes with them ----------

    /** Double the table. */
    method Grow()
      requires TableOk()
      modifies this`nameTab, this`nameMax
      ensures TableOk() && fresh(nameTab) && nameNr < nameMax
    {
      nameMax := nameMax * 2;
      nameTab := Enlarged(nameTab, nameMax);
      assert nameTab[..nameNr] == open;
    }

    method NamePush(value: string)
      requires TableOk()
      modifies this`html, this`nameTab, this`nameMax, this`nameNr, this`name, this`open, nameTab
      ensures TableOk() && (nameTab == old(nameTab) || fresh(nameTab))
      ensures open == old(open) + [value]
      ensures html == (if value == "head" && old(html) < 3 then 3 else if value == "body" && old(html) < 10 then 10 else old(html))
    {
      if html < 3 && value == "head" {
        html := 3;
      }
      if html < 10 && value == "body" {
        html := 10;
      }
      if nameNr >= nameMax {
        Grow();
      }
      nameTab[nameNr] := value;
      name := Some(value);
      nameNr := nameNr + 1;
      assert nameTab[..nameNr] == open + [value];
      open := open + [value];
    }

    method NamePop()
      requires TableOk() && nameNr > 0
      modifies this`nameNr, this`name, this`open, nameTab
      ensures TableOk() && open == old(open)[..|old(open)| - 1]
    {
      nameNr := nameNr - 1;
      name := if nameNr > 0 then Some(nameTab[nameNr - 1]) else None;
      nameTab[nameNr] := "";
      assert nameTab[..nameNr] == open[..nameNr];
      open := open[..nameNr];
    }

    /** Push an element and emit its start. */
    method Open(value: string)
      requires Valid()
      requires Implies() ==> Shape(open + [value])
      modifies this, nameTab
      ensures Valid() && (nameTab == old(nameTab) || fresh(nameTab))
      ensures open == old(open) + [value] && trace == old(trace) + [Start(value)]
      ensures html == (if value == "head" && old(html) < 3 then 3 else if value == "body" && old(html) < 10 then 10 else old(html))
      ensures depth == old(depth)
    {
      hide Shape, Replay, TableOk;
      ReplayStart(trace, open, value);
      NamePush(value);
      trace := trace + [Start(value)];
    }

    /** Pop the innermost element; `silent` if no end is emitted for it. */
    method Pop(silent: bool)
      requires Valid() && open != []
      modifies this`nameNr, this`name, this`open, this`trace, nameTab
      ensures Valid()
      ensures open == old(open)[..|old(open)| - 1]
      ensures trace == old(trace) + [if silent then Abandon(old(open)[|old(open)| - 1]) else End(old(open)[|old(open)| - 1])]
    {
      hide Shape, Replay;
      ghost var e := if silent then Abandon(name.value) else End(name.value);
      ReplayPop(trace, open, e);
      if Implies() {
        ShapeOfPrefix(open, |open| - 1);
      }
      NamePop();
      trace := trace + [e];
    }

    // ---------- Closing ----------

    /** Close what the start of `newtag` closes. */
    method AutoClose(newtag: string)
      requires Valid()
      modifies this`nameNr, this`name, this`open, this`trace, nameTab
      ensures Valid()
      ensures open == CloseEffect(old(open), newtag).open && trace == old(trace) + CloseEffect(old(open), newtag).events
    {
      hide Closes, Shape, Replay;
      ghost var s, k := open, ClosedDownTo(open, newtag);
      while true
        invariant Valid()
        invariant k <= nameNr <= |s| && open == s[..nameNr]
        invariant k == ClosedDownTo(open, newtag)
        invariant trace + Ends(open, k) == old(trace) + Ends(s, k)
        decreases nameNr
      {
        if name.None? {
          break;
        }
        var closes := CheckAutoClose(newtag, name.value);
        if !closes {
          break;
        }
        EndsStep(open, k, trace);
        Pop(false);
      }
      assert nameNr == k;
    }

    /** Close everything at the end of the input. */
    method AutoCloseOnEnd()
      requires Valid()
      modifies this`nameNr, this`name, this`open, this`trace, nameTab
      ensures Valid() && open == []
      ensures trace == old(trace) + Ends(old(open), 0)
    {
      hide Shape, Replay;
      ghost var s := open;
      var i := nameNr;
      while i > 0
        invariant Valid() && 0 <= i == nameNr <= |s|
        invariant trace + Ends(open, 0) == old(trace) + Ends(s, 0)
      {
        EndsStep(open, 0, trace);
        Pop(false);
        i := i - 1;
      }
    }

    /** Look for the element an end tag names, giving up at one of higher priority. */
    method FindOpen(newtag: string) returns (i: int)
      requires Valid()
      ensures i == if Reaches(open, newtag) then LastOpen(open, newtag) else -1
      ensures i >= 0 ==> newtag in open
    {
      hide EndPriority, Shape, Replay;
      ghost var s := open;
      var priority := GetEndPriority(newtag);
      i := nameNr - 1;
      while i >= 0
        invariant -1 <= i < |s|
        invariant forall j :: i < j < |s| ==> s[j] != newtag && EndPriority(s[j]) <= priority
      {
        assert nameTab[i] == s[i];
        if newtag == nameTab[i] {
          assert LastOpen(s, newtag) == i;
          return;
        }
        var p := GetEndPriority(nameTab[i]);
        if p > priority {
          assert LastOpen(s, newtag) < |s| ==> LastOpen(s, newtag) < i;
          return -1;
        }
        i := i - 1;
      }
    }

    /** Close down to the element an end tag names, unless something of higher priority is in the way. */
    method AutoCloseOnClose(newtag: string)
      requires Valid()
      modifies this`nameNr, this`name, this`open, this`trace, nameTab
      ensures Valid()
      ensures var s, k := old(open), LastOpen(old(open), newtag);
        if Reaches(s, newtag) then open == s[..k + 1] && trace == old(trace) + Ends(s, k + 1)
        else open == s && trace == old(trace)
    {
      hide EndPriority, Shape, Replay, Reaches;
      var i := FindOpen(newtag);
      if i < 0 {
        return;
      }
      CloseAbove(newtag);
    }

    /** Close elements until the innermost one bears the name. */
    method CloseAbove(newtag: string)
      requires Valid() && newtag in open
      modifies this`nameNr, this`name, this`open, this`trace, nameTab
      ensures Valid()
      ensures var s, k := old(open), LastOpen(old(open), newtag);
        open == s[..k + 1] && trace == old(trace) + Ends(s, k + 1)
    {
      hide Shape, Replay;
      ghost var s, k := open, LastOpen(open, newtag);
      hide LastOpen, Ends;
      while name != Some(newtag)
        invariant Valid() && k < |open| && open == s[..|open|]
        invariant trace + Ends(open, k + 1) == old(trace) + Ends(s, k + 1)
        decreases nameNr
      {
        assert open[|open| - 1] == s[|open| - 1];
        EndsStep(open, k + 1, trace);
        Pop(false);
      }
      assert open[|open| - 1] == s[|open| - 1];
      EndsStep(open, k + 1, trace);
    }

    /**
     An end tag. A misplaced one is swallowed once for each start tag discarded before; otherwise
     the stack is cut just below the last element of that name, or left alone.
     */
    method ParseEndTag(tag: Option<string>) returns (closed: bool)
      requires Valid()
      modifies this`nameNr, this`name, this`open, this`trace, this`depth, nameTab
      ensures Valid()
      ensures depth == if Swallowed(old(depth), tag) then old(depth) - 1 else old(depth)
      ensures var e := EndTagEffect(old(open), old(depth), tag); open == e.open && trace == old(trace) + e.events
      ensures closed <==> open != old(open)
    {
      hide Shape, EndPriority, Replay, Reaches, LastOpen, Ends;
      NothingMore(trace);
      if tag.None? {
        return false;
      }
      var n := tag.value;
      if depth > 0 && (n == "html" || n == "body" || n == "head") {
        depth := depth - 1;
        return false;
      }
      var found := IsOpen(n);
      if !found {
        NotReached(open, n);
        return false;
      }
      closed := CloseElement(n);
    }

    /** The element an end tag names, if it can be reached, and everything above it are closed. */
    method CloseElement(n: string) returns (closed: bool)
      requires Valid() && n in open
      modifies this`nameNr, this`name, this`open, this`trace, nameTab
      ensures Valid() && (closed <==> Reaches(old(open), n))
      ensures closed ==> open == old(open)[..LastOpen(old(open), n)] && trace == old(trace) + Ends(old(open), LastOpen(old(open), n))
      ensures !closed ==> open == old(open) && trace == old(trace)
    {
      hide Shape, EndPriority, Replay, Reaches, Ends;
      ghost var s, k := open, LastOpen(open, n);
      AutoCloseOnClose(n);
      closed := name == Some(n);
      if closed {
        TopReached(s, n, open);
        EndsLast(s, k, old(trace));
        Pop(false);
        assert s[..k + 1][..k] == s[..k];
      }
    }

    method IsOpen(n: string) returns (found: bool)
      requires Valid()
      ensures found <==> n in open
    {
      hide Shape, Replay;
      var i: int := nameNr - 1;
      while i >= 0 && n != nameTab[i]
        invariant -1 <= i < nameNr
        invariant forall j :: i < j < nameNr ==> open[j] != n
      {
        i := i - 1;
      }
      return i >= 0;
    }

    // ---------- Opening ----------

    /** Open the elements that are implied before `newtag`. */
    method CheckImplied(newtag: string)
      requires Valid()
      modifies this, nameTab
      ensures Valid() && (nameTab == old(nameTab) || fresh(nameTab)) && depth == old(depth)
      ensures var e := ImplyEffect(old(open), old(html), Implies(), newtag); open == e.open && trace == old(trace) + e.events
    {
      hide Shape, Replay, HeadOnly, Frames, Starts;
      ghost var s, t := open, trace;
      NothingAdded(s, t);
      if noImplied {
        return;
      }
      if !omittedDefault {
        return;
      }
      if newtag == "html" {
        return;
      }
      ghost var root := ImplyRoot();
      if newtag == "body" || newtag == "head" {
        return;
      }
      ghost var more := ImplyHeadOrBody(newtag);
      TwoAdded(s, t, root, more);
    }

    method ImplyRoot() returns (ghost root: seq<string>)
      requires Valid() && Implies()
      modifies this, nameTab
      ensures Valid() && (nameTab == old(nameTab) || fresh(nameTab)) && depth == old(depth) && html == old(html)
      ensures root == if old(open) == [] then ["html"] else []
      ensures open == old(open) + root && trace == old(trace) + Starts(root) && open != []
    {
      hide Shape, Replay;
      root := [];
      if nameNr <= 0 {
        PushRoot();
        Open("html");
        root := ["html"];
      }
    }

    /** The second half: a head for what belongs there, else a body unless one was seen. */
    method ImplyHeadOrBody(newtag: string) returns (ghost add: seq<string>)
      requires Valid() && Implies() && open != []
      modifies this, nameTab
      ensures Valid() && (nameTab == old(nameTab) || fresh(nameTab)) && depth == old(depth)
      ensures add == if HeadOnly(newtag) && |old(open)| <= 1 then (if old(html) < 3 then ["head"] else [])
        else if !Frames(newtag) && old(html) < 10 && "body" !in old(open) && "head" !in old(open) then ["body"] else []
      ensures open == old(open) + add && trace == old(trace) + Starts(add)
    {
      hide Shape, Replay, HeadOnly, Frames;
      add := [];
      if nameNr <= 1 && HeadOnly(newtag) {
        if html >= 3 {
          return;
        }
        ShapePush(open, "head");
        Open("head");
        add := ["head"];
      } else if !Frames(newtag) {
        if html >= 10 {
          return;
        }
        for i := 0 to nameNr
          invariant forall j :: 0 <= j < i ==> open[j] != "body" && open[j] != "head"
        {
          if nameTab[i] == "body" {
            assert open[i] == "body";
            return;
          }
          if nameTab[i] == "head" {
            assert open[i] == "head";
            return;
          }
        }
        ShapePush(open, "body");
        Open("body");
        add := ["body"];
      }
    }

    /** Text implies a paragraph where the innermost element takes no content. */
    method CheckParagraph() returns (inserted: bool)
      requires Valid()
      modifies this, nameTab
      ensures Valid() && (nameTab == old(nameTab) || fresh(nameTab)) && depth == old(depth)
      ensures inserted <==> old(name).None? || (omittedDefault && old(name).value in {"html", "head"})
      ensures var e := TextEffect(old(open), old(html), Implies(), omittedDefault); open == e.open && trace == old(trace) + e.events
    {
      hide Shape, Replay, CloseEffect, ImplyEffect;
      if name.None? || (omittedDefault && (name.value == "html" || name.value == "head")) {
        InsertParagraph();
        return true;
      }
      return false;
    }

    method InsertParagraph()
      requires Valid()
      modifies this, nameTab
      ensures Valid() && (nameTab == old(nameTab) || fresh(nameTab)) && depth == old(depth)
      ensures var e1 := CloseEffect(old(open), "p");
        var e2 := ImplyEffect(e1.open, old(html), Implies(), "p");
        open == e2.open + ["p"] && trace == old(trace) + (e1.events + e2.events + [Start("p")])
    {
      hide Shape, Replay, CloseEffect, ImplyEffect;
      AutoClose("p");
      ghost var s1, h, t := open, html, trace;
      CheckImplied("p");
      if Implies() {
        ImpliedRoot(s1, h, "p");
        ShapePush(open, "p");
      }
      ThreeAdded(old(trace), CloseEffect(old(open), "p").events, ImplyEffect(s1, h, Implies(), "p").events, [Start("p")]);
      Open("p");
    }

    /** The stack part of a start tag: nothing for a bad name, else close, imply, and open unless misplaced. */
    method ParseStartTag(tag: Option<string>) returns (failed: int)
      requires Valid()
      modifies this, nameTab
      ensures Valid() && (nameTab == old(nameTab) || fresh(nameTab))
      ensures failed == -1 <==> tag.None?
      ensures failed in {-1, 0, 1}
      ensures failed == -1 ==> open == old(open) && trace == old(trace) && depth == old(depth)
      ensures failed != -1 ==>
        var s2 := ImplyEffect(CloseEffect(old(open), tag.value).open, old(html), Implies(), tag.value).open;
        var e := StartEffect(old(open), old(html), Implies(), tag.value);
        && (failed == 1 <==> Misplaced(s2, tag.value))
        && open == e.open && trace == old(trace) + e.events
        && (failed == 1 <==> depth > old(depth))
        && (Implies() && failed == 1 ==> depth == old(depth) + 1)
    {
      hide Shape, Replay, CloseEffect, ImplyEffect;
      if tag.None? {
        return -1;
      }
      var n := tag.value;
      AutoClose(n);
      ghost var s1, h := open, html;
      CheckImplied(n);
      hide Misplaced;
      var discard := CheckMisplaced(n);
      ThreeAdded(old(trace), CloseEffect(old(open), n).events, ImplyEffect(s1, h, Implies(), n).events, [Start(n)]);
      if discard == 0 {
        if Implies() {
          if n != "html" {
            ImpliedRoot(s1, h, n);
          }
          PushPlaced(open, n);
        }
        Open(n);
      }
      return discard;
    }

    /** Whether a start tag is to be discarded; if so its end tag will have to be swallowed. */
    method CheckMisplaced(n: string) returns (discard: int)
      requires Valid()
      modifies this`depth
      ensures Valid()
      ensures discard == if Misplaced(open, n) then 1 else 0
      ensures Misplaced(open, n) <==> depth > old(depth)
      ensures Implies() && Misplaced(open, n) ==> depth == old(depth) + 1
    {
      hide Shape, Replay;
      discard := 0;
      if nameNr > 0 && n == "html" {
        discard := 1;
        depth := depth + 1;
      }
      if nameNr != 1 && n == "head" {
        discard := 1;
        depth := depth + 1;
      }
      if n == "body" {
        var found := CountBodies();
        if found > 0 {
          discard := 1;
        }
      }
    }

    /** Count the open bodies, each of which deepens the nesting of discarded tags. */
    method CountBodies() returns (found: nat)
      requires Valid()
      modifies this`depth
      ensures Valid()
      ensures depth == old(depth) + found
      ensures found > 0 <==> "body" in open
      ensures Implies() ==> found <= 1
    {
      found := 0;
      for indx := 0 to nameNr
        invariant Valid() && depth == old(depth) + found
        invariant found > 0 <==> "body" in open[..indx]
        invariant Implies() ==> found <= 1
      {
        assert open[indx] == nameTab[indx];
        assert open[..indx + 1] == open[..indx] + [nameTab[indx]];
        if nameTab[indx] == "body" {
          depth := depth + 1;
          found := found + 1;
        }
      }
      assert open[..nameNr] == open;
    }

    /** An element from its start tag to the end of that tag; `atEnd` tells whether the input ends there. */
    method ParseElementInternal(tag: Option<string>, term: Terminator, atEnd: bool)
      requires Valid()
      modifies this, nameTab
      ensures Valid() && (nameTab == old(nameTab) || fresh(nameTab))
      ensures var e := ElementEffect(old(open), old(html), Implies(), tag, term, atEnd); open == e.open && trace == old(trace) + e.events
      ensures tag.Some? ==>
        var n := tag.value;
        var base, t := Base(old(open), old(html), Implies(), n), Before(old(open), old(html), Implies(), n);
        !Misplaced(base, n) ==>
          && (term == SelfClosed ==> open == base && trace == old(trace) + (t + [Start(n), End(n)]))
          && (term == Closed && IsEmptyElement(n) ==> open == base && trace == old(trace) + (t + [Start(n), End(n)]))
          && (term == Closed && !IsEmptyElement(n) ==> open == base + [n] && trace == old(trace) + (t + [Start(n)]))
          && (term == Missing && !atEnd ==> open == base && trace == old(trace) + (t + [Start(n), Abandon(n)]))
    {
      hide Shape, Replay, IsEmptyElement, StartEffect, Ends, Base, Before, Misplaced;
      NothingMore(trace);
      if tag.Some? && !Misplaced(Base(open, html, Implies(), tag.value), tag.value) {
        ElementOutcome(open, html, Implies(), tag.value, term, atEnd);
      }
      var failed := ParseStartTag(tag);
      if failed == -1 {
        return;
      }
      ghost var e := StartEffect(old(open), old(html), Implies(), tag.value);
      hide ElementEffect;
      NothingMore(old(trace) + e.events);
      TwoMore(old(trace), e.events, FinishEffect(open, term, atEnd).events);
      if name.None? {
        return;
      }
      Finish(term, atEnd);
    }

    /** What follows an element's start tag decides whether it stays open. */
    method Finish(term: Terminator, atEnd: bool)
      requires Valid() && open != []
      modifies this, nameTab
      ensures Valid() && nameTab == old(nameTab)
      ensures var e := FinishEffect(old(open), term, atEnd); open == e.open && trace == old(trace) + e.events
    {
      hide Shape, Replay, IsEmptyElement, Ends;
      NothingMore(trace);
      if term == SelfClosed {
        Pop(false);
        return;
      }
      if term == Missing {
        Pop(true);
        if atEnd {
          TwoMore(old(trace), [Abandon(old(open)[|old(open)| - 1])], Ends(open, 0));
          AutoCloseOnEnd();
        }
        return;
      }
      if IsEmptyElement(name.value) {
        Pop(false);
      }
    }

    /** One event of the content loop. */
    method Step(input: Input)
      requires Valid()
      modifies this, nameTab
      ensures Valid() && (nameTab == old(nameTab) || fresh(nameTab))
      ensures var e := InputEffect(old(open), old(html), old(depth), Implies(), omittedDefault, input);
        open == e.open && trace == old(trace) + e.events
    {
      hide ElementEffect, EndTagEffect, CloseEffect, TextEffect, Closes, Replay, Shape;
      match input {
        case StartTag(tag, term, atEnd) => ParseElementInternal(tag, term, atEnd);
        case EndTag(tag) => var closed := ParseEndTag(tag);
        case NextTag(next) =>
          NothingClosed(open, next, trace);
          if name.Some? {
            var closes := CheckAutoClose(next, name.value);
            if closes {
              AutoClose(next);
            }
          }
        case Text => var inserted := CheckParagraph();
        case EndOfInput => AutoCloseOnEnd();
      }
    }

    /**
     For every sequence of events the trace is properly nested and replaying it gives the stack;
     with implied tags the stack keeps its shape; at the end of the input everything is closed.
     */
    method Run(inputs: seq<Input>)
      requires Valid()
      modifies this, nameTab
      ensures Valid() && (nameTab == old(nameTab) || fresh(nameTab))
      ensures Replay(trace) == Some(open) && (Implies() ==> Shape(open))
      ensures inputs != [] && inputs[|inputs| - 1].EndOfInput? ==> Replay(trace) == Some([])
    {
      hide Shape, Replay, ElementEffect, EndTagEffect, CloseEffect, TextEffect, Ends;
      for i := 0 to |inputs|
        invariant Valid() && (nameTab == old(nameTab) || fresh(nameTab))
        invariant i > 0 && inputs[i - 1].EndOfInput? ==> open == []
      {
        Step(inputs[i]);
      }
    }
  }

  /** The same names in a table of `max` places. */
  method Enlarged(tab: array<string>, max: nat) returns (bigger: array<string>)
    requires tab.Length <= max
    ensures fresh(bigger) && bigger.Length == max && bigger[..tab.Length] == tab[..]
  {
    bigger := new string[max](_ => "");
    forall i | 0 <= i < tab.Length {
      bigger[i] := tab[i];
    }
  }

  /** Below anything but `html` itself there is an open element. */
  lemma ImpliedRoot(s: seq<string>, html: int, newtag: string)
    requires newtag != "html"
    ensures ImplyEffect(s, html, true, newtag).open != []
  {
    hide HeadOnly, Frames;
  }

  lemma NothingAdded(s: seq<string>, t: seq<Event>)
    ensures s + [] == s && t + Starts([]) == t
  {}

  lemma TwoAdded(s: seq<string>, t: seq<Event>, a: seq<string>, b: seq<string>)
    ensures s + a + b == s + (a + b) && t + Starts(a) + Starts(b) == t + Starts(a + b)
    ensures [] + b == b && a + [] == a
  {}

  lemma NotReached(s: seq<string>, n: string)
    requires n !in s
    ensures !Reaches(s, n)
  {}

  lemma NothingMore(t: seq<Event>)
    ensures t + [] == t
  {}

  lemma TwoMore(t: seq<Event>, a: seq<Event>, b: seq<Event>)
    ensures t + a + b == t + (a + b)
  {}

  lemma ThreeAdded(t: seq<Event>, a: seq<Event>, b: seq<Event>, c: seq<Event>)
    ensures t + a + b == t + (a + b) && t + a + b + c == t + (a + b + c)
  {}

  /** A tag that does not close the innermost element closes nothing. */
  lemma NothingClosed(s: seq<string>, newtag: string, t: seq<Event>)
    ensures s == [] || !Closes(newtag, s[|s| - 1]) ==>
      CloseEffect(s, newtag).open == s && t + CloseEffect(s, newtag).events == t
  {
    hide Closes;
  }

  lemma PushRoot()
    ensures Shape([] + ["html"])
  {}

  lemma {:induction false} EndsStep(s: seq<string>, k: nat, t: seq<Event>)
    requires k <= |s|
    ensures k == |s| ==> t + Ends(s, k) == t
    ensures k < |s| ==> t + Ends(s, k) == t + [End(s[|s| - 1])] + Ends(s[..|s| - 1], k)
  {
    if k < |s| {
      assert t + ([End(s[|s| - 1])] + Ends(s[..|s| - 1], k)) == t + [End(s[|s| - 1])] + Ends(s[..|s| - 1], k);
    }
  }

  /** Closing one more element at the bottom of what is closed. */
  lemma {:induction false} EndsLast(s: seq<string>, k: nat, t: seq<Event>)
    requires k < |s|
    ensures Ends(s, k) == Ends(s, k + 1) + [End(s[k])]
    ensures t + Ends(s, k + 1) + [End(s[k])] == t + Ends(s, k)
    decreases |s|
  {
    if k + 1 < |s| {
      EndsLast(s[..|s| - 1], k, t);
      var e := End(s[|s| - 1]);
      assert [e] + (Ends(s[..|s| - 1], k + 1) + [End(s[k])]) == [e] + Ends(s[..|s| - 1], k + 1) + [End(s[k])];
    }
  }

  /** If the innermost element bears the name, the end tag reached it. */
  lemma TopReached(s: seq<string>, n: string, after: seq<string>)
    requires n in s && after != [] && after[|after| - 1] == n
    requires if Reaches(s, n) then after == s[..LastOpen(s, n) + 1] else after == s
    ensures Reaches(s, n)
  {
    if !Reaches(s, n) {
      assert LastOpen(s, n) == |s| - 1;
    }
  }
}
