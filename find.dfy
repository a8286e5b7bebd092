/** `Array.prototype.findIndex` and `Array.prototype.find` over a sequence,
    with the predicate as a function argument. */
module ArrayFind {

  import opened Wrappers

  /** `i` is the lowest position of `s` whose element satisfies `p`. */
  predicate IsFirst<T>(s: seq<T>, p: T -> bool, i: int)
  {
    0 <= i < |s| && p(s[i]) && forall j :: 0 <= j < i ==> !p(s[j])
  }

  /** There is at most one first position. */
  lemma FirstIsUnique<T>(s: seq<T>, p: T -> bool, i: int, k: int)
    requires IsFirst(s, p, i) && IsFirst(s, p, k)
    ensures i == k
  {
  }

  /** findIndex: the first position whose element satisfies `p`, or -1 when
      there is none. */
  function FindIndex<T>(s: seq<T>, p: T -> bool): (r: int)
    ensures -1 <= r < |s|
    ensures r == -1 <==> forall i :: 0 <= i < |s| ==> !p(s[i])
    ensures r != -1 ==> IsFirst(s, p, r)
  {
    if s == [] then -1
    else if p(s[0]) then 0
    else
      var k := FindIndex(s[1..], p);
      if k == -1 then -1 else k + 1
  }

  /** find: the first element satisfying `p`, or nothing (JavaScript's
      `undefined`) when there is none. */
  function Find<T>(s: seq<T>, p: T -> bool): (r: Option<T>)
    ensures r.None? <==> forall i :: 0 <= i < |s| ==> !p(s[i])
    ensures r.Some? ==> p(r.value)
    ensures forall i :: IsFirst(s, p, i) ==> r == Some(s[i])
  {
    var k := FindIndex(s, p);
    if k == -1 then None
    else
      assert forall i :: IsFirst(s, p, i) ==> i == k by {
        forall i | IsFirst(s, p, i) ensures i == k { FirstIsUnique(s, p, i, k); }
      }
      Some(s[k])
  }

  /** Searching a concatenation: a match in the front part wins; otherwise
      the result is that of the back part, whatever the front part holds. */
  lemma FindAppend<T>(a: seq<T>, b: seq<T>, p: T -> bool)
    ensures Find(a + b, p) == if Find(a, p).Some? then Find(a, p) else Find(b, p)
  {
    var ka := FindIndex(a, p);
    if ka != -1 {
      assert IsFirst(a + b, p, ka);
    } else {
      var kb := FindIndex(b, p);
      if kb != -1 {
        assert (a + b)[|a| + kb] == b[kb];
        assert IsFirst(a + b, p, |a| + kb);
      } else {
        forall i | 0 <= i < |a + b| ensures !p((a + b)[i]) {
          if i < |a| { assert (a + b)[i] == a[i]; } else { assert (a + b)[i] == b[i - |a|]; }
        }
      }
    }
  }
}
