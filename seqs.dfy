/** Sequence helpers shared by the converter and the tree builder. */
module Seqs {

  /** `s` back to front: the order in which popping a whole stack (top at the end) emits it. */
  function Reverse<T>(s: seq<T>): (r: seq<T>)
    ensures |r| == |s|
    ensures forall k :: 0 <= k < |s| ==> r[k] == s[|s| - 1 - k]
  {
    if s == [] then [] else Reverse(s[1..]) + [s[0]]
  }

  /** A non-empty sequence is its prefix followed by its last element. */
  lemma SnocLast<T>(s: seq<T>)
    requires s != []
    ensures s == s[..|s| - 1] + [s[|s| - 1]]
  {
  }

  lemma PrefixOfPrefix<T>(s: seq<T>, m: nat, n: nat)
    requires n <= m <= |s|
    ensures s[..m][..n] == s[..n]
  {
  }

  lemma ReverseSnoc<T>(s: seq<T>, x: T)
    ensures Reverse(s + [x]) == [x] + Reverse(s)
  {
    var r, q := Reverse(s + [x]), [x] + Reverse(s);
    assert |r| == |q|;
    forall k | 0 <= k < |r| ensures r[k] == q[k] {
      if k > 0 {
        assert r[k] == (s + [x])[|s| - k];
      }
    }
  }

  lemma ReverseOne<T>(u: T)
    ensures Reverse([u]) == [u]
  {
    assert [u][1..] == [];
  }

  lemma ReverseTwo<T>(u: T, v: T)
    ensures Reverse([u, v]) == [v, u]
  {
    assert [u, v][1..] == [v];
    ReverseOne(v);
  }

  lemma {:induction false} MultisetReverse<T>(s: seq<T>)
    ensures multiset(Reverse(s)) == multiset(s)
  {
    if s != [] {
      MultisetReverse(s[1..]);
      assert s == [s[0]] + s[1..];
    }
  }

  /** The elements of `s` that satisfy `f`, in their order in `s`. */
  function Filter<T>(f: T -> bool, s: seq<T>): (r: seq<T>)
    ensures |r| <= |s|
    ensures forall k :: 0 <= k < |r| ==> r[k] in s && f(r[k])
    ensures forall k :: 0 <= k < |s| && f(s[k]) ==> s[k] in r
  {
    if s == [] then []
    else Filter(f, s[..|s| - 1]) + (if f(s[|s| - 1]) then [s[|s| - 1]] else [])
  }

  lemma FilterSnoc<T>(f: T -> bool, s: seq<T>, x: T)
    ensures Filter(f, s + [x]) == Filter(f, s) + (if f(x) then [x] else [])
  {
    assert (s + [x])[..|s|] == s;
  }

  lemma {:induction false} FilterAppend<T>(f: T -> bool, a: seq<T>, b: seq<T>)
    ensures Filter(f, a + b) == Filter(f, a) + Filter(f, b)
  {
    if b == [] {
      assert a + b == a;
    } else {
      var init := b[..|b| - 1];
      assert a + b == (a + init) + [b[|b| - 1]];
      assert b == init + [b[|b| - 1]];
      FilterAppend(f, a, init);
      FilterSnoc(f, a + init, b[|b| - 1]);
      FilterSnoc(f, init, b[|b| - 1]);
    }
  }

  lemma FilterNone<T>(f: T -> bool, s: seq<T>)
    requires forall k :: 0 <= k < |s| ==> !f(s[k])
    ensures Filter(f, s) == []
  {
  }

  lemma {:induction false} FilterReverse<T>(f: T -> bool, s: seq<T>)
    ensures multiset(Filter(f, Reverse(s))) == multiset(Filter(f, s))
  {
    if s != [] {
      FilterReverse(f, s[1..]);
      FilterSnoc(f, Reverse(s[1..]), s[0]);
      assert s == [s[0]] + s[1..];
      FilterAppend(f, [s[0]], s[1..]);
      FilterSnoc(f, [], s[0]);
    }
  }

  /** The entries popped off a stack that was `rest + Reverse(popped)`, top first. */
  lemma PoppedFromTop<T>(stack: seq<T>, rest: seq<T>, popped: seq<T>)
    requires stack == rest + Reverse(popped)
    ensures forall k :: 0 <= k < |popped| ==> popped[k] == stack[|stack| - 1 - k]
  {
    forall k | 0 <= k < |popped| ensures popped[k] == stack[|stack| - 1 - k] {
      assert stack[|rest| + (|popped| - 1 - k)] == Reverse(popped)[|popped| - 1 - k];
    }
  }
}
