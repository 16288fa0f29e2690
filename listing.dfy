/** The filter chain of the list handler: by name, then by `reading`, then
    by `finished`, each over the result of the one before. */
module Listing {
  import opened Books
  import opened Sequences
  import opened Text

  /** A `reading`/`finished` query value: "0" asks for false, "1" for true,
      anything else (absent included) filters nothing. */
  datatype Flag = Unset | WantFalse | WantTrue

  /** The query string. An absent parameter is the empty string: both are
      falsy to the handler's `if(name)`, `if(reading)`, `if(finished)`. */
  datatype Query = Query(name: string, reading: string, finished: string)

  function ParseFlag(raw: string): (f: Flag)
    ensures f == WantFalse <==> raw == "0"
    ensures f == WantTrue <==> raw == "1"
    ensures f == Unset <==> raw != "0" && raw != "1"
  {
    if raw == "0" then WantFalse else if raw == "1" then WantTrue else Unset
  }

  /** Case-insensitive containment of the (already quote-trimmed) needle. */
  predicate NameMatches(b: Book, needle: string)
  {
    Contains(LowerAscii(b.name), LowerAscii(needle))
  }

  /** The name step: no filtering for an empty query; otherwise one filter
      by the (quote-trimmed) needle. */
  function ByName(s: seq<Book>, raw: string): (r: seq<Book>)
    ensures r == Keep(s, (b: Book) => raw == "" || NameMatches(b, NameQuery(raw)))
  {
    if raw == "" then
      KeepAll(s, (b: Book) => raw == "" || NameMatches(b, NameQuery(raw)));
      s
    else
      var needle := NameQuery(raw);
      KeepSame(s, (b: Book) => NameMatches(b, needle),
                  (b: Book) => raw == "" || NameMatches(b, NameQuery(raw)));
      Keep(s, (b: Book) => NameMatches(b, needle))
  }

  /** A flag step on the field `field` picks out of each book: one filter by
      what the flag admits. */
  function ByFlag(s: seq<Book>, f: Flag, field: Book -> bool): (r: seq<Book>)
    ensures r == Keep(s, (b: Book) => Admits(f, field(b)))
  {
    match f
    case Unset =>
      KeepAll(s, (b: Book) => Admits(f, field(b)));
      s
    case WantFalse =>
      KeepSame(s, (b: Book) => field(b) == false, (b: Book) => Admits(f, field(b)));
      Keep(s, (b: Book) => field(b) == false)
    case WantTrue =>
      KeepSame(s, (b: Book) => field(b) == true, (b: Book) => Admits(f, field(b)));
      Keep(s, (b: Book) => field(b) == true)
  }

  /** The books the list handler keeps: the name, reading and finished
      filters in a row keep exactly the selected books, in table order. */
  function Filtered(s: seq<Book>, q: Query): (r: seq<Book>)
    ensures r == Keep(s, (b: Book) => Selected(b, q))
  {
    var rd := (b: Book) => b.reading;
    var fd := (b: Book) => b.finished;
    var named := ByName(s, q.name);
    var reading := ByFlag(named, ParseFlag(q.reading), rd);
    var finished := ByFlag(reading, ParseFlag(q.finished), fd);
    var pn := (b: Book) => q.name == "" || NameMatches(b, NameQuery(q.name));
    var pr := (b: Book) => Admits(ParseFlag(q.reading), b.reading);
    var pf := (b: Book) => Admits(ParseFlag(q.finished), b.finished);
    var pnr := (b: Book) => pn(b) && pr(b);
    KeepSame(named, (b: Book) => Admits(ParseFlag(q.reading), rd(b)), pr);
    KeepKeep(s, pn, pr, pnr);
    KeepSame(reading, (b: Book) => Admits(ParseFlag(q.finished), fd(b)), pf);
    KeepKeep(s, pnr, pf, (b: Book) => Selected(b, q));
    finished
  }

  /** The projection of the list view, position by position. */
  function Summaries(s: seq<Book>): (r: seq<Summary>)
    ensures |r| == |s|
    ensures forall k :: 0 <= k < |s| ==> r[k] == Summarize(s[k])
  {
    if s == [] then [] else [Summarize(s[0])] + Summaries(s[1..])
  }

  /** Whether a flag lets a field value through. */
  predicate Admits(f: Flag, v: bool)
  {
    match f
    case Unset => true
    case WantFalse => !v
    case WantTrue => v
  }

  /** The per-book description of the list query, independent of the order
      and shape of the filter chain. */
  predicate Selected(b: Book, q: Query)
  {
    && (q.name == "" || NameMatches(b, NameQuery(q.name)))
    && Admits(ParseFlag(q.reading), b.reading)
    && Admits(ParseFlag(q.finished), b.finished)
  }

  /** The list view: exactly the selected books, in table order, each
      projected to `{id, name, publisher}`. */
  lemma ListViewSpec(s: seq<Book>, q: Query)
    ensures Subseq(Filtered(s, q), s)
    ensures forall b :: b in Filtered(s, q) <==> b in s && Selected(b, q)
    ensures forall v :: v in Summaries(Filtered(s, q)) <==>
              exists b :: b in s && Selected(b, q) && v == Summarize(b)
  {
    KeepIsSubseq(s, (b: Book) => Selected(b, q));
    forall b
      ensures b in Filtered(s, q) <==> b in s && Selected(b, q)
    {
      KeepMembers(s, (b: Book) => Selected(b, q), b);
    }
    var f := Filtered(s, q);
    forall v
      ensures v in Summaries(f) <==> exists b :: b in s && Selected(b, q) && v == Summarize(b)
    {
      if v in Summaries(f) {
        var k :| 0 <= k < |f| && Summaries(f)[k] == v;
        assert f[k] in f;
      }
      if exists b :: b in s && Selected(b, q) && v == Summarize(b) {
        var b :| b in s && Selected(b, q) && v == Summarize(b);
        assert b in f;
        var k :| 0 <= k < |f| && f[k] == b;
        assert Summaries(f)[k] == v;
      }
    }
  }

  /** With `reading=1` only books being read are listed, with `reading=0`
      only those that are not; likewise for `finished`. */
  lemma FlagQueriesSelect(s: seq<Book>, q: Query, b: Book)
    requires b in Filtered(s, q)
    ensures q.reading == "1" ==> b.reading
    ensures q.reading == "0" ==> !b.reading
    ensures q.finished == "1" ==> b.finished
    ensures q.finished == "0" ==> !b.finished
  {
    ListViewSpec(s, q);
  }

  /** The name filter is a case-insensitive substring test: a book matches
      exactly when some slice of its name agrees with the needle up to ASCII
      case. */
  lemma NameMatchesIff(b: Book, needle: string)
    ensures NameMatches(b, needle) <==> exists i :: OccursAtIgnoringCase(b.name, needle, i)
  {
    var hay := LowerAscii(b.name);
    var low := LowerAscii(needle);
    if NameMatches(b, needle) {
      var i :| OccursAt(hay, low, i);
      LowerAsciiSlice(b.name, i, i + |needle|);
      LowerAsciiEqIff(b.name[i..i + |needle|], needle);
      assert OccursAtIgnoringCase(b.name, needle, i);
    }
    if exists i :: OccursAtIgnoringCase(b.name, needle, i) {
      var i :| OccursAtIgnoringCase(b.name, needle, i);
      LowerAsciiSlice(b.name, i, i + |needle|);
      LowerAsciiEqIff(b.name[i..i + |needle|], needle);
      assert OccursAt(hay, low, i);
    }
  }

  /** Changing the case of letters in a book's name or in the needle does
      not change whether the book is listed. */
  lemma NameMatchIgnoresCase(b: Book, c: Book, needle: string, other: string)
    requires CaseFoldEqual(b.name, c.name) && CaseFoldEqual(needle, other)
    ensures NameMatches(b, needle) == NameMatches(c, other)
  {
    LowerAsciiEqIff(b.name, c.name);
    LowerAsciiEqIff(needle, other);
  }
}
