/** The string operations the list handler applies to the `name` query:
    ASCII lower-casing, substring search (`String.prototype.includes`) and
    taking the text after the first double quote (`split("\"")[1]`). */
module Text {

  const Quote: char := '"'

  /** The ASCII alphabet, upper and lower case, letter for letter. */
  const Upper: string := "ABCDEFGHIJKLMNOPQRSTUVWXYZ"
  const Lower: string := "abcdefghijklmnopqrstuvwxyz"

  /** Position k of each table holds the k-th letter of the alphabet. */
  lemma AlphabetTables()
    ensures |Upper| == |Lower| == 26
    ensures forall k :: 0 <= k < 26 ==> Upper[k] as int == 'A' as int + k
    ensures forall k :: 0 <= k < 26 ==> Lower[k] as int == 'a' as int + k
  {
  }

  /** `toLowerCase` of one character, restricted to ASCII letters. */
  function LowerChar(c: char): (d: char)
    ensures forall k :: 0 <= k < |Upper| && c == Upper[k] ==> d == Lower[k]
    ensures c !in Upper ==> d == c
  {
    AlphabetTables();
    if 'A' <= c <= 'Z' then (c as int + 32) as char else c
  }

  /** Two characters that are equal, or the two cases of one letter. */
  ghost predicate SameIgnoringCase(c: char, d: char)
  {
    || c == d
    || exists k :: 0 <= k < |Upper| && ((c == Upper[k] && d == Lower[k]) || (c == Lower[k] && d == Upper[k]))
  }

  /** Two strings of the same length that agree letter by letter up to case. */
  ghost predicate CaseFoldEqual(x: string, y: string)
  {
    |x| == |y| && forall i :: 0 <= i < |x| ==> SameIgnoringCase(x[i], y[i])
  }

  /** `needle` occurs in `hay` at position `i`, up to ASCII case. */
  ghost predicate OccursAtIgnoringCase(hay: string, needle: string, i: int)
  {
    0 <= i && i + |needle| <= |hay| && CaseFoldEqual(hay[i..i + |needle|], needle)
  }

  /** Lower-casing identifies exactly the characters that differ in case only. */
  lemma LowerCharEqIff(c: char, d: char)
    ensures LowerChar(c) == LowerChar(d) <==> SameIgnoringCase(c, d)
  {
    AlphabetTables();
    if LowerChar(c) == LowerChar(d) {
      if c in Upper && d in Upper {
        var k :| 0 <= k < 26 && c == Upper[k];
        var j :| 0 <= j < 26 && d == Upper[j];
        assert Lower[k] == Lower[j];
        assert k == j;
      } else if c in Upper {
        var k :| 0 <= k < 26 && c == Upper[k];
        assert d == Lower[k];
      } else if d in Upper {
        var j :| 0 <= j < 26 && d == Upper[j];
        assert c == Lower[j];
      }
    }
    if SameIgnoringCase(c, d) && c != d {
      var k :| 0 <= k < 26 && ((c == Upper[k] && d == Lower[k]) || (c == Lower[k] && d == Upper[k]));
      assert Lower[k] !in Upper by {
        forall j | 0 <= j < 26 ensures Upper[j] != Lower[k] {
          assert Upper[j] as int < 'a' as int;
        }
      }
    }
  }

  /** `toLowerCase` restricted to ASCII letters. */
  function LowerAscii(s: string): (r: string)
    ensures |r| == |s|
    ensures forall i :: 0 <= i < |s| ==> r[i] == LowerChar(s[i])
  {
    seq(|s|, i requires 0 <= i < |s| => LowerChar(s[i]))
  }

  /** Two strings lower-case to the same string exactly when they agree up
      to ASCII case. */
  lemma LowerAsciiEqIff(x: string, y: string)
    ensures LowerAscii(x) == LowerAscii(y) <==> CaseFoldEqual(x, y)
  {
    if |x| == |y| {
      forall i | 0 <= i < |x|
        ensures LowerChar(x[i]) == LowerChar(y[i]) <==> SameIgnoringCase(x[i], y[i])
      {
        LowerCharEqIff(x[i], y[i]);
      }
      if CaseFoldEqual(x, y) {
        assert LowerAscii(x) == LowerAscii(y);
      }
    }
  }

  /** Lower-casing commutes with taking a slice. */
  lemma LowerAsciiSlice(s: string, i: nat, j: nat)
    requires i <= j <= |s|
    ensures LowerAscii(s)[i..j] == LowerAscii(s[i..j])
  {
  }

  /** `needle` occurs in `hay` starting at position `i`. */
  predicate OccursAt(hay: string, needle: string, i: int)
  {
    0 <= i && i + |needle| <= |hay| && hay[i..i + |needle|] == needle
  }

  /** `hay.includes(needle)`, searched position by position: it succeeds
      exactly when `needle` occurs somewhere in `hay`. */
  function Contains(hay: string, needle: string): (r: bool)
    ensures r <==> exists i :: OccursAt(hay, needle, i)
  {
    if needle <= hay then
      assert OccursAt(hay, needle, 0);
      true
    else if hay == [] then false
    else
      OccursInTail(hay, needle);
      Contains(hay[1..], needle)
  }

  /** An occurrence in the tail is an occurrence one position later in the
      whole, and every occurrence past position 0 comes from the tail. */
  lemma OccursInTail(hay: string, needle: string)
    requires hay != [] && !(needle <= hay)
    ensures (exists i :: OccursAt(hay[1..], needle, i)) <==> exists i :: OccursAt(hay, needle, i)
  {
    if exists i :: OccursAt(hay[1..], needle, i) {
      var i :| OccursAt(hay[1..], needle, i);
      assert hay[1..][i..i + |needle|] == hay[i + 1..i + 1 + |needle|];
      assert OccursAt(hay, needle, i + 1);
    }
    if exists i :: OccursAt(hay, needle, i) {
      var i :| OccursAt(hay, needle, i) && i != 0;
      assert hay[1..][i - 1..i - 1 + |needle|] == hay[i..i + |needle|];
      assert OccursAt(hay[1..], needle, i - 1);
    }
  }

  /** Position of the first `c` in `s`, or `|s|` when there is none. */
  function IndexOf(s: string, c: char): (i: nat)
    ensures i <= |s|
    ensures i < |s| ==> s[i] == c
    ensures forall k :: 0 <= k < i ==> s[k] != c
  {
    if s == [] then 0
    else if s[0] == c then 0
    else 1 + IndexOf(s[1..], c)
  }

  /** `seg` is the text that follows the first quote of `raw` (at `i`) up to
      the next quote or the end: the second piece of `raw.split("\"")`. */
  ghost predicate SecondPiece(raw: string, i: int, seg: string)
  {
    && 0 <= i < |raw|
    && raw[i] == Quote
    && (forall k :: 0 <= k < i ==> raw[k] != Quote)
    && OccursAt(raw, seg, i + 1)
    && Quote !in seg
    && (i + 1 + |seg| == |raw| || raw[i + 1 + |seg|] == Quote)
  }

  /** The name query as the list handler uses it: when it holds a double
      quote, only the text between the first and the second quote. */
  function NameQuery(raw: string): (needle: string)
    ensures Quote !in raw ==> needle == raw
    ensures Quote in raw ==> SecondPiece(raw, IndexOf(raw, Quote), needle)
  {
    if Quote in raw then
      var i := IndexOf(raw, Quote);
      var rest := raw[i + 1..];
      var seg := rest[..IndexOf(rest, Quote)];
      assert raw[i + 1..i + 1 + |seg|] == seg;
      seg
    else raw
  }

  /** The quote-delimited piece is determined by the query: any piece that
      satisfies the description of `NameQuery` is the one it returns. */
  lemma SecondPieceUnique(raw: string, i: int, seg: string)
    requires SecondPiece(raw, i, seg)
    ensures NameQuery(raw) == seg
  {
    IndexOfExact(raw, Quote, i);
    var rest := raw[i + 1..];
    assert rest[..|seg|] == seg;
    IndexOfExact(rest, Quote, |seg|);
  }

  /** A position before which `c` does not occur and at which it does (or the
      end) is the one `IndexOf` reports. */
  lemma IndexOfExact(s: string, c: char, n: nat)
    requires n <= |s|
    requires forall k :: 0 <= k < n ==> s[k] != c
    requires n == |s| || s[n] == c
    ensures IndexOf(s, c) == n
  {
  }
}
