/** Small failure-carrying datatypes shared by every module of the model. */
module Common {

  /** A value that may be absent; `None` stands for the C# `null` reference. */
  datatype Option<+T> = None | Some(value: T)

  /** A computation that either produced a value or failed with an error. */
  datatype Result<+T, +E> = Ok(value: T) | Err(error: E)

  /** A check that either passed or failed with an error, carrying no value. */
  datatype Outcome<+E> = Pass | Fail(error: E)

  /** No element of `xs` occurs twice. */
  predicate NoDuplicates<T(==)>(xs: seq<T>)
  {
    forall i, j :: 0 <= i < j < |xs| ==> xs[i] != xs[j]
  }

  /** The position of the first occurrence of `x` in `xs`. */
  function FirstIndex<T(==)>(xs: seq<T>, x: T): (i: nat)
    requires x in xs
    ensures i < |xs| && xs[i] == x
    ensures x !in xs[..i]
  {
    if xs[0] == x then 0
    else
      var k := FirstIndex(xs[1..], x);
      assert xs[..k + 1] == [xs[0]] + xs[1..][..k];
      k + 1
  }

  /** The values `f` yields on the elements of `xs`, in order, skipping `None`. */
  function FilterMap<A, B>(xs: seq<A>, f: A -> Option<B>): (ys: seq<B>)
  {
    if |xs| == 0 then []
    else
      var init := FilterMap(xs[..|xs| - 1], f);
      match f(xs[|xs| - 1])
      case None => init
      case Some(y) => init + [y]
  }

  /** A value is kept exactly when some element yields it. */
  lemma {:induction false} FilterMapMembers<A, B>(xs: seq<A>, f: A -> Option<B>, y: B)
    ensures y in FilterMap(xs, f) <==> exists i :: 0 <= i < |xs| && f(xs[i]) == Some(y)
  {
    if |xs| > 0 {
      var init := xs[..|xs| - 1];
      FilterMapMembers(init, f, y);
      if exists i :: 0 <= i < |xs| && f(xs[i]) == Some(y) {
        var i :| 0 <= i < |xs| && f(xs[i]) == Some(y);
        if i < |init| {
          assert init[i] == xs[i];
        }
      }
      if exists i :: 0 <= i < |init| && f(init[i]) == Some(y) {
        var i :| 0 <= i < |init| && f(init[i]) == Some(y);
        assert xs[i] == init[i];
      }
    }
  }

  /** A concatenation is duplicate-free exactly when both halves are and they share nothing. */
  lemma NoDuplicatesConcat<T>(a: seq<T>, b: seq<T>)
    ensures NoDuplicates(a + b) <==>
      NoDuplicates(a) && NoDuplicates(b) && forall i :: 0 <= i < |a| ==> a[i] !in b
  {
    var c := a + b;
    if NoDuplicates(a) && NoDuplicates(b) && forall i :: 0 <= i < |a| ==> a[i] !in b {
      forall i, j | 0 <= i < j < |c| ensures c[i] != c[j] {
        if j < |a| {
          assert c[i] == a[i] && c[j] == a[j];
        } else if i >= |a| {
          assert c[i] == b[i - |a|] && c[j] == b[j - |a|];
        } else {
          assert c[i] == a[i] && c[j] == b[j - |a|];
        }
      }
    }
    if NoDuplicates(c) {
      forall i | 0 <= i < |a| ensures a[i] !in b {
        assert c[i] == a[i];
        assert forall j :: 0 <= j < |b| ==> c[|a| + j] == b[j];
      }
      forall i, j | 0 <= i < j < |b| ensures b[i] != b[j] {
        assert c[|a| + i] == b[i] && c[|a| + j] == b[j];
      }
      forall i, j | 0 <= i < j < |a| ensures a[i] != a[j] {
        assert c[i] == a[i] && c[j] == a[j];
      }
    }
  }

  /** Two distinct elements in front keep a sequence duplicate-free exactly when both are new. */
  lemma PairConsNoDuplicates<T>(x: T, y: T, rest: seq<T>)
    requires x != y
    ensures NoDuplicates([x, y] + rest) <==> NoDuplicates(rest) && x !in rest && y !in rest
  {
    NoDuplicatesConcat([x, y], rest);
    assert NoDuplicates([x, y]);
    var pair := [x, y];
    assert pair[0] == x && pair[1] == y;
    assert (forall i :: 0 <= i < |pair| ==> pair[i] !in rest) <==> x !in rest && y !in rest;
  }

  /** The rows of `rows` one after the other, in order. */
  function Flatten<T>(rows: seq<seq<T>>): (flat: seq<T>)
  {
    if |rows| == 0 then [] else rows[0] + Flatten(rows[1..])
  }

  /** Rows of `n` elements each flatten to `|rows| * n` elements. */
  lemma {:induction false} FlattenLength<T>(rows: seq<seq<T>>, n: nat)
    requires forall i :: 0 <= i < |rows| ==> |rows[i]| == n
    ensures |Flatten(rows)| == |rows| * n
  {
    if |rows| > 0 {
      var tail := rows[1..];
      assert forall i :: 0 <= i < |tail| ==> tail[i] == rows[i + 1];
      FlattenLength(tail, n);
      assert |rows| * n == n + |tail| * n;
    }
  }

  /** With rows of `n` elements each, element `k` of row `i` sits at position `i * n + k`. */
  lemma {:induction false} FlattenAt<T>(rows: seq<seq<T>>, n: nat, i: nat, k: nat)
    requires forall r :: 0 <= r < |rows| ==> |rows[r]| == n
    requires i < |rows| && k < n
    ensures i * n + k < |Flatten(rows)|
    ensures Flatten(rows)[i * n + k] == rows[i][k]
  {
    FlattenLength(rows, n);
    var tail := rows[1..];
    assert Flatten(rows) == rows[0] + Flatten(tail);
    if i > 0 {
      assert forall r :: 0 <= r < |tail| ==> tail[r] == rows[r + 1];
      FlattenAt(tail, n, i - 1, k);
      assert i * n + k == n + ((i - 1) * n + k);
    }
  }
}
