/** Order-preserving filtering of sequences: the shape of every
    "build a new list from the elements that pass a test" loop in the game. */
module Seqs {

  /** The elements of `s` that pass `keep`, in their original order.
      Defined on the last element so that it matches a loop that appends. */
  function Filter<T>(s: seq<T>, keep: T -> bool): (r: seq<T>)
    ensures |r| <= |s|
  {
    if s == [] then []
    else Filter(s[..|s| - 1], keep) + (if keep(s[|s| - 1]) then [s[|s| - 1]] else [])
  }

  /** Filter keeps exactly the passing elements: everything kept passes and
      comes from `s`, and every passing element of `s` is kept. */
  lemma {:induction false} FilterMembers<T>(s: seq<T>, keep: T -> bool)
    ensures forall k :: 0 <= k < |Filter(s, keep)| ==> Filter(s, keep)[k] in s && keep(Filter(s, keep)[k])
    ensures forall k :: 0 <= k < |s| && keep(s[k]) ==> s[k] in Filter(s, keep)
  {
    if s != [] {
      var init := s[..|s| - 1];
      FilterMembers(init, keep);
      var r := Filter(s, keep);
      assert r[..|Filter(init, keep)|] == Filter(init, keep);
      forall k | 0 <= k < |r|
        ensures r[k] in s && keep(r[k])
      {
        if k < |Filter(init, keep)| {
          assert r[k] == Filter(init, keep)[k];
          assert r[k] in init;
        }
      }
      forall k | 0 <= k < |s| && keep(s[k])
        ensures s[k] in r
      {
        if k < |s| - 1 {
          assert s[k] == init[k];
          assert s[k] in Filter(init, keep);
        }
      }
    }
  }

  /** Filtering distributes over concatenation: together with the one-element
      case this says that Filter keeps exactly the passing elements and never
      reorders them. */
  lemma {:induction false} FilterAppend<T>(a: seq<T>, b: seq<T>, keep: T -> bool)
    ensures Filter(a + b, keep) == Filter(a, keep) + Filter(b, keep)
  {
    if b == [] {
      assert a + b == a;
    } else {
      var b' := b[..|b| - 1];
      assert (a + b)[..|a + b| - 1] == a + b';
      FilterAppend(a, b', keep);
    }
  }

  /** One step of a filtering loop: the filter of a one-longer prefix. */
  lemma FilterPrefixStep<T>(s: seq<T>, k: nat, keep: T -> bool)
    requires k < |s|
    ensures Filter(s[..k + 1], keep) == Filter(s[..k], keep) + (if keep(s[k]) then [s[k]] else [])
  {
    assert s[..k + 1][..k] == s[..k];
  }
}
