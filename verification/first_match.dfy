/**
 The "first index satisfying a predicate" query that every scan of the device
 setup code reduces to: the memory-type selector, the graphics queue-family
 search and the surface-format search all walk indices upwards from zero and
 stop at the first one that qualifies.
 */
module FirstMatch {
  import opened Wrappers

  /** `i` is below `n`, satisfies `p`, and no smaller index does. */
  predicate IsFirst(n: nat, p: nat -> bool, i: nat) {
    i < n && p(i) && forall j :: 0 <= j < i ==> !p(j)
  }

  /** No index below `n` satisfies `p`. */
  predicate NoneBelow(n: nat, p: nat -> bool) {
    forall j :: 0 <= j < n ==> !p(j)
  }

  /** The first index in `[from, n)` satisfying `p`, scanning upwards. */
  function FirstFrom(n: nat, p: nat -> bool, from: nat): (r: Option<nat>)
    requires from <= n
    ensures r.Some? ==> from <= r.value < n && p(r.value)
    ensures r.Some? ==> forall j :: from <= j < r.value ==> !p(j)
    ensures r.None? ==> forall j :: from <= j < n ==> !p(j)
    decreases n - from
  {
    if from == n then None
    else if p(from) then Some(from)
    else FirstFrom(n, p, from + 1)
  }

  /** The first index in `[0, n)` satisfying `p`, or `None` when there is none. */
  function First(n: nat, p: nat -> bool): (r: Option<nat>)
    ensures forall i: nat :: r == Some(i) <==> IsFirst(n, p, i)
    ensures r == None <==> NoneBelow(n, p)
  {
    FirstFrom(n, p, 0)
  }

  /** The first position of `s` whose element satisfies `p`. */
  function FirstIn<T>(s: seq<T>, p: T -> bool): (r: Option<nat>)
    ensures forall i: nat :: r == Some(i) <==> i < |s| && p(s[i]) && forall j :: 0 <= j < i ==> !p(s[j])
    ensures r == None <==> forall j :: 0 <= j < |s| ==> !p(s[j])
  {
    var q := (i: nat) => i < |s| && p(s[i]);
    assert forall i: nat :: IsFirst(|s|, q, i) <==> i < |s| && p(s[i]) && forall j :: 0 <= j < i ==> !p(s[j]) by {
      forall i: nat ensures IsFirst(|s|, q, i) <==> i < |s| && p(s[i]) && forall j :: 0 <= j < i ==> !p(s[j]) {
        if i < |s| {
          assert forall j :: 0 <= j < i ==> q(j) == p(s[j]);
        }
      }
    }
    First(|s|, q)
  }

  /**
   Imperative form of `FirstIn`: walk `s` from the front and stop at the first
   element satisfying `p`. When there is none the loop runs off the end and
   the index equals `|s|`.
   */
  method Scan<T>(s: seq<T>, p: T -> bool) returns (i: nat)
    ensures i <= |s|
    ensures i < |s| ==> p(s[i])
    ensures forall j :: 0 <= j < i ==> !p(s[j])
    ensures i == |s| <==> forall j :: 0 <= j < |s| ==> !p(s[j])
    ensures FirstIn(s, p) == if i < |s| then Some(i) else None
  {
    i := 0;
    while i < |s|
      invariant i <= |s|
      invariant forall j :: 0 <= j < i ==> !p(s[j])
    {
      if p(s[i]) {
        break;
      }
      i := i + 1;
    }
  }
}
