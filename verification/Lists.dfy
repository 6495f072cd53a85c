/** The lists of timers and of watches: erasing a value from a list of distinct values. */
module Lists {
  import opened Common

  /** The first occurrence is erased. */
  function Without(w: seq<int>, t: int): seq<int> {
    if w == [] then [] else if w[0] == t then w[1..] else [w[0]] + Without(w[1..], t)
  }

  lemma {:induction false} WithoutMembers(w: seq<int>, t: int)
    requires Distinct(w)
    ensures forall x :: x in Without(w, t) <==> x in w && x != t
    ensures forall i :: 0 <= i < |Without(w, t)| ==> Without(w, t)[i] in w
  {
    if w != [] {
      WithoutMembers(w[1..], t);
    }
  }

  lemma {:induction false} DistinctWithout(w: seq<int>, t: int)
    requires Distinct(w)
    ensures Distinct(Without(w, t))
  {
    if w != [] {
      DistinctWithout(w[1..], t);
      WithoutMembers(w[1..], t);
    }
  }

  method Erase(w: seq<int>, t: int) returns (v: seq<int>)
    ensures v == Without(w, t)
  {
    var i := 0;
    while i < |w| && w[i] != t
      invariant 0 <= i <= |w| && t !in w[..i]
    {
      i := i + 1;
    }
    WithoutAt(w, t, i);
    v := if i < |w| then w[..i] + w[i + 1..] else w;
  }

  lemma {:induction false} WithoutAt(w: seq<int>, t: int, i: nat)
    requires i <= |w| && t !in w[..i] && (i < |w| ==> w[i] == t)
    ensures Without(w, t) == if i < |w| then w[..i] + w[i + 1..] else w
  {
    if i > 0 {
      assert w[0] == w[..i][0] && w[1..][..i - 1] == w[..i][1..];
      WithoutAt(w[1..], t, i - 1);
    }
  }
}
