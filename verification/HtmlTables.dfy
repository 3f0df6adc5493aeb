/** The tables that drive the HTML parser's open-element stack. Tag names are in lower case. */
module HtmlTables {
  /** Rows of a start tag followed by the open elements it closes. */
  function StartClose(): (rows: seq<seq<string>>)
  {
    [
    ["form", "form", "p", "hr", "h1", "h2", "h3", "h4", "h5", "h6", "dl", "ul", "ol", "menu", "dir", "address", "pre",
     "listing", "xmp", "head"],
    ["head", "p"],
    ["title", "p"],
    ["body", "head", "style", "link", "title", "p"],
    ["frameset", "head", "style", "link", "title", "p"],
    ["li", "p", "h1", "h2", "h3", "h4", "h5", "h6", "dl", "address", "pre", "listing", "xmp", "head", "li"],
    ["hr", "p", "head"],
    ["h1", "p", "head"],
    ["h2", "p", "head"],
    ["h3", "p", "head"],
    ["h4", "p", "head"],
    ["h5", "p", "head"],
    ["h6", "p", "head"],
    ["dir", "p", "head"],
    ["address", "p", "head", "ul"],
    ["pre", "p", "head", "ul"],
    ["listing", "p", "head"],
    ["xmp", "p", "head"],
    ["blockquote", "p", "head"],
    ["dl", "p", "dt", "menu", "dir", "address", "pre", "listing", "xmp", "head"],
    ["dt", "p", "menu", "dir", "address", "pre", "listing", "xmp", "head", "dd"],
    ["dd", "p", "menu", "dir", "address", "pre", "listing", "xmp", "head", "dt"],
    ["ul", "p", "head", "ol", "menu", "dir", "address", "pre", "listing", "xmp"],
    ["ol", "p", "head", "ul"],
    ["menu", "p", "head", "ul"],
    ["p", "p", "head", "h1", "h2", "h3", "h4", "h5", "h6", "tt", "i", "b", "u", "s", "strike", "big", "small"],
    ["div", "p", "head"],
    ["noscript", "p", "head"],
    ["center", "font", "b", "i", "p", "head"],
    ["a", "a"],
    ["caption", "p"],
    ["colgroup", "caption", "colgroup", "col", "p"],
    ["col", "caption", "col", "p"],
    ["table", "p", "head", "h1", "h2", "h3", "h4", "h5", "h6", "pre", "listing", "xmp", "a"],
    ["th", "th", "td", "p", "span", "font", "a", "b", "i", "u"],
    ["td", "th", "td", "p", "span", "font", "a", "b", "i", "u"],
    ["tr", "th", "td", "tr", "caption", "col", "colgroup", "p"],
    ["thead", "caption", "col", "colgroup"],
    ["tfoot", "th", "td", "tr", "caption", "col", "colgroup", "thead", "tbody", "p"],
    ["tbody", "th", "td", "tr", "caption", "col", "colgroup", "thead", "tfoot", "tbody", "p"],
    ["optgroup", "option"],
    ["option", "option"],
    ["fieldset", "legend", "p", "head", "h1", "h2", "h3", "h4", "h5", "h6", "pre", "listing", "xmp", "a"]]
  }

  /** Priorities of end tags; all other elements have 100. */
  function EndPriorities(): (rows: seq<(string, int)>)
  {
    [
    ("div", 150), ("td", 160), ("th", 160), ("tr", 170), ("thead", 180), ("tbody", 180), ("tfoot", 180),
    ("table", 190), ("head", 200), ("body", 200), ("html", 220)]
  }

  /** Elements without content. */
  predicate IsEmptyElement(name: string)
  {
    name in {"area", "base", "basefont", "br", "col", "frame", "hr", "img", "input", "isindex", "link", "meta", "param"}
  }

  /** Whether the first row for `newtag` lists `oldtag`. */
  predicate ClosesIn(rows: seq<seq<string>>, newtag: string, oldtag: string)
  {
    if rows == [] then false
    else if rows[0] != [] && rows[0][0] == newtag then oldtag in rows[0][1..]
    else ClosesIn(rows[1..], newtag, oldtag)
  }

  /** Whether the start of `newtag` closes an open `oldtag`. */
  predicate Closes(newtag: string, oldtag: string)
  {
    ClosesIn(StartClose(), newtag, oldtag)
  }

  method CheckAutoClose(newtag: string, oldtag: string) returns (closes: bool)
    ensures closes <==> Closes(newtag, oldtag)
  {
    hide StartClose;
    closes := CheckRows(StartClose(), newtag, oldtag);
  }

  /** Find the row, then look for the old tag in it. */
  method CheckRows(rows: seq<seq<string>>, newtag: string, oldtag: string) returns (closes: bool)
    ensures closes <==> ClosesIn(rows, newtag, oldtag)
  {
    var i := 0;
    assert rows[0..] == rows;
    while i < |rows|
      invariant 0 <= i <= |rows|
      invariant ClosesIn(rows, newtag, oldtag) <==> ClosesIn(rows[i..], newtag, oldtag)
    {
      if rows[i] != [] && rows[i][0] == newtag {
        for j := 1 to |rows[i]|
          invariant oldtag !in rows[i][1..j]
        {
          if rows[i][j] == oldtag {
            assert rows[i][1..][j - 1] == oldtag;
            return true;
          }
        }
        return false;
      }
      assert rows[i..][1..] == rows[i + 1..];
      i := i + 1;
    }
    return false;
  }

  function PriorityIn(rows: seq<(string, int)>, name: string): (p: int)
  {
    if rows == [] then 100 else if rows[0].0 == name then rows[0].1 else PriorityIn(rows[1..], name)
  }

  function EndPriority(name: string): (p: int)
  {
    PriorityIn(EndPriorities(), name)
  }

  /** The priorities: everything that is not part of a division, a table or the document's structure is equal. */
  lemma EndPriorityIs(name: string)
    ensures EndPriority(name)
         == if name == "html" then 220 else if name in {"head", "body"} then 200 else if name == "table" then 190
            else if name in {"thead", "tbody", "tfoot"} then 180 else if name == "tr" then 170 else if name in {"td", "th"} then 160
            else if name == "div" then 150 else 100
  {
    UpperRows(name);
    PriorityFrom(name, 7); PriorityFrom(name, 8); PriorityFrom(name, 9); PriorityFrom(name, 10); PriorityFrom(name, 11);
    hide PriorityIn;
  }

  lemma UpperRows(name: string)
    ensures |EndPriorities()| == 11
    ensures EndPriority(name)
         == if name in {"thead", "tbody", "tfoot"} then 180 else if name == "tr" then 170 else if name in {"td", "th"} then 160
            else if name == "div" then 150 else PriorityIn(EndPriorities()[7..], name)
  {
    PriorityFrom(name, 0); PriorityFrom(name, 1); PriorityFrom(name, 2); PriorityFrom(name, 3);
    PriorityFrom(name, 4); PriorityFrom(name, 5); PriorityFrom(name, 6);
    assert EndPriorities()[0..] == EndPriorities();
    hide PriorityIn;
  }

  lemma PriorityFrom(name: string, i: nat)
    requires i <= |EndPriorities()|
    ensures var rows := EndPriorities();
      PriorityIn(rows[i..], name)
      == if i == |rows| then 100 else if rows[i].0 == name then rows[i].1 else PriorityIn(rows[i + 1..], name)
  {
    hide EndPriorities;
    var rows := EndPriorities();
    if i < |rows| {
      assert rows[i..][1..] == rows[i + 1..];
    }
  }

  method GetEndPriority(name: string) returns (p: int)
    ensures p == EndPriority(name)
  {
    hide EndPriorities;
    p := ScanPriority(EndPriorities(), name);
  }

  method ScanPriority(rows: seq<(string, int)>, name: string) returns (p: int)
    ensures p == PriorityIn(rows, name)
  {
    var i := 0;
    assert rows[0..] == rows;
    while i < |rows| && rows[i].0 != name
      invariant 0 <= i <= |rows|
      invariant PriorityIn(rows, name) == PriorityIn(rows[i..], name)
    {
      assert rows[i..][1..] == rows[i + 1..];
      i := i + 1;
    }
    return if i < |rows| then rows[i].1 else 100;
  }
}
