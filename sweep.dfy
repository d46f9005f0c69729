/** The mark-then-sweep filter `list.filter(e => !e.markedForDeletion)`. */
module Sweeping {

  /** The elements of `s` that are not marked, in their original order. */
  function Sweep<T>(s: seq<T>, marked: T -> bool): (r: seq<T>)
    ensures |r| <= |s|
  {
    if s == [] then []
    else
      var last := s[|s| - 1];
      Sweep(s[..|s| - 1], marked) + (if marked(last) then [] else [last])
  }

  /** The swept list holds no marked element, and every unmarked element survives. */
  lemma {:induction false} SweepMembers<T>(s: seq<T>, marked: T -> bool)
    ensures forall x :: x in Sweep(s, marked) ==> x in s && !marked(x)
    ensures forall x :: x in s && !marked(x) ==> x in Sweep(s, marked)
  {
    if s != [] {
      var front := s[..|s| - 1];
      SweepMembers(front, marked);
      assert s == front + [s[|s| - 1]];
    }
  }

  lemma {:induction false} SweepAppend<T>(a: seq<T>, b: seq<T>, marked: T -> bool)
    ensures Sweep(a + b, marked) == Sweep(a, marked) + Sweep(b, marked)
    decreases |b|
  {
    if b == [] {
      assert a + b == a;
    } else {
      var front := b[..|b| - 1];
      assert (a + b)[..|a + b| - 1] == a + front;
      SweepAppend(a, front, marked);
    }
  }

  /** A list with nothing marked passes the sweep unchanged; so sweeping twice is
      sweeping once. */
  lemma {:induction false} SweepUnmarked<T>(s: seq<T>, marked: T -> bool)
    requires forall k :: 0 <= k < |s| ==> !marked(s[k])
    ensures Sweep(s, marked) == s
  {
    if s != [] {
      var front := s[..|s| - 1];
      assert forall k :: 0 <= k < |front| ==> front[k] == s[k];
      SweepUnmarked(front, marked);
      assert s == front + [s[|s| - 1]];
    }
  }

  lemma SweepIdempotent<T>(s: seq<T>, marked: T -> bool)
    ensures Sweep(Sweep(s, marked), marked) == Sweep(s, marked)
  {
    var r := Sweep(s, marked);
    SweepMembers(s, marked);
    forall k | 0 <= k < |r| ensures !marked(r[k]) {
      assert r[k] in r;
    }
    SweepUnmarked(r, marked);
  }

  /** Where the survivor `s[i]` lands in the swept list: after the survivors before it. */
  function SweptIndex<T>(s: seq<T>, marked: T -> bool, i: nat): nat
    requires i <= |s|
  {
    |Sweep(s[..i], marked)|
  }

  lemma SweptAt<T>(s: seq<T>, marked: T -> bool, i: nat)
    requires i < |s| && !marked(s[i])
    ensures SweptIndex(s, marked, i) < |Sweep(s, marked)|
    ensures Sweep(s, marked)[SweptIndex(s, marked, i)] == s[i]
    ensures SweptIndex(s, marked, i + 1) == SweptIndex(s, marked, i) + 1
  {
    assert s == s[..i] + [s[i]] + s[i + 1..];
    assert s[..i + 1] == s[..i] + [s[i]];
    SweepAppend(s[..i] + [s[i]], s[i + 1..], marked);
    SweepAppend(s[..i], [s[i]], marked);
    assert Sweep([s[i]], marked) == [s[i]] by {
      assert [s[i]][..0] == [];
    }
  }

  lemma {:induction false} SweptIndexMonotone<T>(s: seq<T>, marked: T -> bool, i: nat, j: nat)
    requires i <= j <= |s|
    ensures SweptIndex(s, marked, i) <= SweptIndex(s, marked, j)
    decreases j - i
  {
    if i < j {
      SweptIndexMonotone(s, marked, i, j - 1);
      assert s[..j][..j - 1] == s[..j - 1];
    }
  }

  /** The sweep keeps survivors in their original relative order: two survivors
      `s[i]`, `s[j]` with `i < j` land at positions `p < q` of the swept list. */
  lemma KeepsOrder<T>(s: seq<T>, marked: T -> bool, i: nat, j: nat)
    requires i < j < |s| && !marked(s[i]) && !marked(s[j])
    ensures SweptIndex(s, marked, i) < SweptIndex(s, marked, j) < |Sweep(s, marked)|
    ensures Sweep(s, marked)[SweptIndex(s, marked, i)] == s[i]
    ensures Sweep(s, marked)[SweptIndex(s, marked, j)] == s[j]
  {
    SweptAt(s, marked, i);
    SweptAt(s, marked, j);
    SweptIndexMonotone(s, marked, i + 1, j);
  }
}
