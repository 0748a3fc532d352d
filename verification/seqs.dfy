/** First-match lookup over a sequence, the model of JavaScript's `Array.prototype.find`
    applied with a predicate of the form `x => key(x) === k`. */
module Seqs {
  import opened Wrappers

  /** Position of the first element whose key is `k`, or `|s|` when there is none. */
  function FirstIndex<T>(s: seq<T>, key: T -> string, k: string): (i: nat)
    ensures i <= |s|
    ensures forall j :: 0 <= j < i ==> key(s[j]) != k
    ensures i < |s| ==> key(s[i]) == k
  {
    if |s| == 0 then 0
    else if key(s[0]) == k then 0
    else 1 + FirstIndex(s[1..], key, k)
  }

  /** The first element whose key is `k`, or None: `s.find(x => key(x) === k)`. */
  function Find<T>(s: seq<T>, key: T -> string, k: string): (r: Option<T>)
    ensures r.Some? <==> exists x :: x in s && key(x) == k
    ensures r.Some? ==> r.value in s && key(r.value) == k
    ensures r.Some? ==> exists i :: 0 <= i < |s| && s[i] == r.value
                                    && forall j :: 0 <= j < i ==> key(s[j]) != k
  {
    var i := FirstIndex(s, key, k);
    if i < |s| then Some(s[i]) else None
  }

  /** Appending never changes what an earlier match finds. */
  lemma FindAppend<T>(s: seq<T>, t: seq<T>, key: T -> string, k: string)
    requires Find(s, key, k).Some?
    ensures Find(s + t, key, k) == Find(s, key, k)
  {
    var i := FirstIndex(s, key, k);
    assert (s + t)[i] == s[i];
  }
}
