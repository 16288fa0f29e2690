/** Lookups by id over the book table and what the handlers' changes to the
    table do to them: `findIndex` (update, delete), `filter(...)[0]` (get)
    and `filter(...).length > 0` (the check after create). */
module Store {
  import opened Books
  import opened Sequences

  /** Every record with the given id, in table order. */
  function WithId(s: seq<Book>, id: string): (r: seq<Book>)
    ensures forall b :: b in r <==> b in s && b.id == id
  {
    KeepMembership(s, (b: Book) => b.id == id);
    Keep(s, (b: Book) => b.id == id)
  }

  /** `findIndex`: the position of the first record with the id, or -1. */
  function FindIndex(s: seq<Book>, id: string): (r: int)
    ensures -1 <= r < |s|
    ensures r == -1 <==> forall k :: 0 <= k < |s| ==> s[k].id != id
    ensures r >= 0 ==> s[r].id == id && forall k :: 0 <= k < r ==> s[k].id != id
  {
    if s == [] then -1
    else if s[0].id == id then 0
    else
      var t := FindIndex(s[1..], id);
      if t == -1 then -1 else t + 1
  }

  /** `filter(...)[0]`: the first record with the id, if any. */
  function FirstWithId(s: seq<Book>, id: string): (r: Option<Book>)
    ensures r == None <==> IdAbsent(s, id)
    ensures r.Some? ==> r.value in s && r.value.id == id
  {
    var matches := WithId(s, id);
    if |matches| == 0 then None else Some(matches[0])
  }

  predicate IdAbsent(s: seq<Book>, id: string)
  {
    forall k :: 0 <= k < |s| ==> s[k].id != id
  }

  ghost predicate UniqueIds(s: seq<Book>)
  {
    forall i, j :: 0 <= i < j < |s| ==> s[i].id != s[j].id
  }

  /** The table with the record at position `i` removed by `splice(i, 1)`. */
  function RemoveAt(s: seq<Book>, i: nat): (r: seq<Book>)
    requires i < |s|
    ensures |r| == |s| - 1
    ensures forall k :: 0 <= k < i ==> r[k] == s[k]
    ensures forall k :: i <= k < |r| ==> r[k] == s[k + 1]
  {
    s[..i] + s[i + 1..]
  }

  /** The head of the id filter is the record `findIndex` points at, so the
      get handler and the update and delete handlers agree on which record
      an id names. */
  lemma {:induction false} FirstWithIdIsFindIndex(s: seq<Book>, id: string)
    ensures FindIndex(s, id) == -1 ==> FirstWithId(s, id) == None
    ensures FindIndex(s, id) >= 0 ==> FirstWithId(s, id) == Some(s[FindIndex(s, id)])
  {
    if s != [] {
      FirstWithIdIsFindIndex(s[1..], id);
      assert WithId(s, id) == (if s[0].id == id then [s[0]] else []) + WithId(s[1..], id);
    }
  }

  /** After `push`, the id filter finds the pushed record: the create
      handler's 500 branch cannot be taken. */
  lemma AppendedIsFound(s: seq<Book>, b: Book)
    ensures |WithId(s + [b], b.id)| > 0
  {
    KeepAppend(s, [b], (x: Book) => x.id == b.id);
    assert WithId([b], b.id) == [b] + WithId([], b.id);
  }

  /** A record appended under a fresh id is the one that id now finds. */
  lemma FreshAppendFound(s: seq<Book>, b: Book)
    requires IdAbsent(s, b.id)
    ensures FindIndex(s + [b], b.id) == |s|
    ensures FirstWithId(s + [b], b.id) == Some(b)
  {
    var t := s + [b];
    assert t[|s|] == b;
    assert forall k :: 0 <= k < |s| ==> t[k].id != b.id;
    FirstWithIdIsFindIndex(t, b.id);
  }

  /** Appending under a fresh id keeps ids unique. */
  lemma FreshAppendUnique(s: seq<Book>, b: Book)
    requires UniqueIds(s) && IdAbsent(s, b.id)
    ensures UniqueIds(s + [b])
  {
  }

  /** Overwriting a record with one of the same id keeps ids unique. */
  lemma ReplaceUnique(s: seq<Book>, i: nat, b: Book)
    requires i < |s| && UniqueIds(s) && b.id == s[i].id
    ensures UniqueIds(s[i := b])
  {
  }

  /** Removing a record keeps ids unique. */
  lemma RemoveUnique(s: seq<Book>, i: nat)
    requires i < |s| && UniqueIds(s)
    ensures UniqueIds(RemoveAt(s, i))
  {
    var r := RemoveAt(s, i);
    forall a, c | 0 <= a < c < |r|
      ensures r[a].id != r[c].id
    {
      var a' := if a < i then a else a + 1;
      var c' := if c < i then c else c + 1;
      assert r[a] == s[a'] && r[c] == s[c'];
    }
  }

  /** Removing the record an id finds, when ids are unique, leaves no record
      with that id: a later lookup reports it missing. */
  lemma RemoveFoundLeavesNone(s: seq<Book>, id: string)
    requires UniqueIds(s) && FindIndex(s, id) >= 0
    ensures FindIndex(RemoveAt(s, FindIndex(s, id)), id) == -1
    ensures FirstWithId(RemoveAt(s, FindIndex(s, id)), id) == None
  {
    var i := FindIndex(s, id);
    var r := RemoveAt(s, i);
    forall k | 0 <= k < |r|
      ensures r[k].id != id
    {
      if k >= i {
        assert r[k] == s[k + 1];
      }
    }
    FirstWithIdIsFindIndex(r, id);
  }

  /** `splice(i, 1)` takes out exactly one record and keeps the rest in order. */
  lemma RemoveAtTakesOne(s: seq<Book>, i: nat)
    requires i < |s|
    ensures Subseq(RemoveAt(s, i), s)
    ensures multiset(RemoveAt(s, i)) + multiset{s[i]} == multiset(s)
  {
    RemoveAtIsSubseq(s, i);
    RemoveAtMultiset(s, i);
  }
}
