/** Generic facts about sequences: the first position satisfying a test
    (what `Array.prototype.find` and `filter` rely on) and order-preserving
    subsequences. */
module Seqs {

  /** Position of the first element satisfying `p`, or `|s|` when none does. */
  function FirstWhere<T>(s: seq<T>, p: T -> bool): (k: nat)
    ensures k <= |s|
    ensures forall j :: 0 <= j < k ==> !p(s[j])
    ensures k < |s| ==> p(s[k])
    decreases |s|
  {
    if |s| == 0 || p(s[0]) then 0
    else 1 + FirstWhere(s[1..], p)
  }

  /** `s` is an order-preserving subsequence of `t`. */
  predicate Subsequence<T(==)>(s: seq<T>, t: seq<T>)
    decreases |t|
  {
    if |s| == 0 then true
    else if |t| == 0 then false
    else if s[0] == t[0] then Subsequence(s[1..], t[1..])
    else Subsequence(s, t[1..])
  }

  /** Dropping the head of the longer sequence keeps a subsequence. */
  lemma {:induction false} SubsequenceCons<T>(s: seq<T>, t: seq<T>)
    requires |t| > 0
    requires Subsequence(s, t[1..])
    ensures Subsequence(s, t)
    decreases |t|, 0
  {
    if |s| > 0 && s[0] == t[0] {
      SubsequenceOfTail(s, t[1..]);
    }
  }

  /** A subsequence with its head removed is still a subsequence. */
  lemma {:induction false} SubsequenceOfTail<T>(s: seq<T>, t: seq<T>)
    requires |s| > 0
    requires Subsequence(s, t)
    ensures Subsequence(s[1..], t)
    decreases |t|, 1
  {
    if s[0] == t[0] {
      SubsequenceCons(s[1..], t);
    } else {
      SubsequenceOfTail(s, t[1..]);
      SubsequenceCons(s[1..], t);
    }
  }
}
