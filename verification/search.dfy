/** The search box of the norm list: a case-insensitive substring match on
    title, description or any tag. The current user plays no part. */
module Search {
  import opened Types
  import Seqs

  /** Lower-casing of one character on the alphabet the repository's texts
      use: ASCII A-Z and the Latin-1 capitals U+00C0..U+00DE (except the
      multiplication sign U+00D7) move up by 0x20; every other character is
      left alone. */
  function LowerChar(c: char): char {
    if 'A' <= c <= 'Z' || ('\U{00C0}' <= c <= '\U{00DE}' && c != '\U{00D7}')
    then (c as int + 0x20) as char
    else c
  }

  function Lower(s: string): string {
    seq(|s|, i requires 0 <= i < |s| => LowerChar(s[i]))
  }

  /** Lower-casing an already lower-cased string changes nothing. */
  lemma LowerIdempotent(s: string)
    ensures Lower(Lower(s)) == Lower(s)
  {
    var l := Lower(s);
    forall i | 0 <= i < |s|
      ensures Lower(l)[i] == l[i]
    {
      var c := s[i];
      assert l[i] == LowerChar(c);
    }
  }

  /** `needle` occurs in `hay` starting at offset `k`. */
  ghost predicate OccursAt(needle: string, hay: string, k: int) {
    0 <= k <= |hay| - |needle| && hay[k..k + |needle|] == needle
  }

  /** `needle` occurs in `hay` at some offset. */
  ghost predicate Occurs(needle: string, hay: string) {
    exists k :: OccursAt(needle, hay, k)
  }

  /** `hay.includes(needle)`: a left-to-right scan for `needle`. The empty
      needle occurs in every string. */
  function Includes(hay: string, needle: string): (r: bool)
    ensures r <==> Occurs(needle, hay)
    decreases |hay|
  {
    if |needle| > |hay| then
      false
    else if needle <= hay then
      assert OccursAt(needle, hay, 0);
      true
    else
      OccursPastHead(needle, hay);
      Includes(hay[1..], needle)
  }

  /** When `needle` is not a prefix of `hay`, it occurs in `hay` exactly when it
      occurs in `hay` without its first character. */
  lemma OccursPastHead(needle: string, hay: string)
    requires |needle| <= |hay|
    requires !(needle <= hay)
    ensures Occurs(needle, hay) <==> Occurs(needle, hay[1..])
  {
    if Occurs(needle, hay[1..]) {
      var k :| OccursAt(needle, hay[1..], k);
      assert hay[k + 1..k + 1 + |needle|] == hay[1..][k..k + |needle|];
      assert OccursAt(needle, hay, k + 1);
    }
    if Occurs(needle, hay) {
      var k :| OccursAt(needle, hay, k);
      // k == 0 would make `needle` a prefix of `hay`
      if k > 0 {
        assert hay[1..][k - 1..k - 1 + |needle|] == hay[k..k + |needle|];
        assert OccursAt(needle, hay[1..], k - 1);
      }
    }
  }

  /** The filter predicate for one norm. */
  predicate Matches(n: Norm, term: string) {
    var lowerSearch := Lower(term);
    Includes(Lower(n.title), lowerSearch)
    || Includes(Lower(n.description), lowerSearch)
    || exists i :: 0 <= i < |n.tags| && Includes(Lower(n.tags[i]), lowerSearch)
  }

  /** `norms.filter(...)`: the norms the search term matches, in list order
      (`FilterCounts`: each as often as the list holds it). */
  function Filter(norms: seq<Norm>, term: string): (r: seq<Norm>)
    ensures Seqs.Subsequence(r, norms)
    ensures forall n :: n in r <==> n in norms && Matches(n, term)
    ensures |r| <= |norms|
    decreases |norms|
  {
    if |norms| == 0 then []
    else
      var rest := Filter(norms[1..], term);
      if Matches(norms[0], term) then
        assert forall n :: n in norms <==> n == norms[0] || n in norms[1..];
        [norms[0]] + rest
      else
        Seqs.SubsequenceCons(rest, norms);
        rest
  }

  /** The filter keeps every copy of a matching norm and no copy of any
      other: on a list holding a matching norm twice, both are listed. */
  lemma {:induction false} FilterCounts(norms: seq<Norm>, term: string)
    ensures forall n :: multiset(Filter(norms, term))[n] == if Matches(n, term) then multiset(norms)[n] else 0
    decreases |norms|
  {
    if |norms| > 0 {
      var rest := Filter(norms[1..], term);
      FilterCounts(norms[1..], term);
      assert norms == [norms[0]] + norms[1..];
      assert multiset(norms) == multiset{norms[0]} + multiset(norms[1..]);
      if Matches(norms[0], term) {
        assert multiset([norms[0]] + rest) == multiset{norms[0]} + multiset(rest);
      }
    }
  }

  /** An empty search term keeps every norm, in order. */
  lemma {:induction false} EmptySearchKeepsAll(norms: seq<Norm>)
    ensures Filter(norms, "") == norms
    decreases |norms|
  {
    if |norms| > 0 {
      assert Includes(Lower(norms[0].title), Lower("")) by {
        assert OccursAt(Lower(""), Lower(norms[0].title), 0);
      }
      EmptySearchKeepsAll(norms[1..]);
      assert [norms[0]] + norms[1..] == norms;
    }
  }

  /** The search is case-insensitive in the term: lower-casing the term first
      selects the same norms. */
  lemma {:induction false} FilterCaseInsensitive(norms: seq<Norm>, term: string)
    ensures Filter(norms, Lower(term)) == Filter(norms, term)
    decreases |norms|
  {
    LowerIdempotent(term);
    if |norms| > 0 {
      FilterCaseInsensitive(norms[1..], term);
    }
  }
}
