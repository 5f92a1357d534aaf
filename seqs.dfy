/**
  Sequence helpers for the list-building code of the server: order-preserving
  de-duplication (`list(dict.fromkeys(xs))`, or appending only what is not yet
  present) and flattening (`extend` in a loop).
 */
module Seqs {

  predicate NoDups<T(==)>(s: seq<T>) {
    forall i, j :: 0 <= i < j < |s| ==> s[i] != s[j]
  }

  /** Append `x` unless it is already present (`if x not in acc: acc.append(x)`). */
  function AddNew<T(==)>(acc: seq<T>, x: T): seq<T> {
    if x in acc then acc else acc + [x]
  }

  /** Add every element of `xs`, in order, to `acc` with `AddNew`. */
  function AddAll<T(==)>(acc: seq<T>, xs: seq<T>): (r: seq<T>)
    ensures NoDups(acc) ==> NoDups(r)
    ensures forall k :: 0 <= k < |r| ==> r[k] in acc || r[k] in xs
    ensures forall k :: 0 <= k < |xs| ==> xs[k] in r
    ensures |acc| <= |r| && r[..|acc|] == acc
  {
    if xs == [] then acc
    else
      var init := xs[..|xs| - 1];
      var prev := AddAll(acc, init);
      assert forall k :: 0 <= k < |init| ==> xs[k] == init[k];
      AddNew(prev, xs[|xs| - 1])
  }

  /** The distinct elements of `xs` in the order of their first occurrence. */
  function Dedup<T(==)>(xs: seq<T>): seq<T> {
    AddAll([], xs)
  }

  /** The index of the first occurrence of `x` in `s`. */
  function FirstIndex<T(==)>(s: seq<T>, x: T): (k: nat)
    requires x in s
    ensures k < |s| && s[k] == x && x !in s[..k]
  {
    if s[0] == x then 0 else 1 + FirstIndex(s[1..], x)
  }

  /** De-duplication keeps what it finds first: an element of `AddAll(acc, xs)`
      that is not from `acc` comes after those from `acc`, and two such
      elements appear in the order of their first occurrences in `xs`. */
  lemma {:induction false} AddAllOrder<T>(acc: seq<T>, xs: seq<T>, i: nat, j: nat)
    requires NoDups(acc)
    requires |acc| <= i < j < |AddAll(acc, xs)|
    ensures AddAll(acc, xs)[i] in xs && AddAll(acc, xs)[j] in xs
    ensures FirstIndex(xs, AddAll(acc, xs)[i]) < FirstIndex(xs, AddAll(acc, xs)[j])
  {
    var r := AddAll(acc, xs);
    var n := |xs| - 1;
    var init := xs[..n];
    var prev := AddAll(acc, init);
    assert xs == init + [xs[n]];
    if xs[n] in prev {
      AddAllOrder(acc, init, i, j);
      FirstIndexPrefix(init, xs, r[i]);
      FirstIndexPrefix(init, xs, r[j]);
    } else {
      assert r == prev + [xs[n]];
      assert r[i] in prev by { assert r[i] == prev[i]; }
      assert r[i] !in acc by { NoDupsNotInPrefix(r, acc, i); }
      assert r[i] in init;
      FirstIndexPrefix(init, xs, r[i]);
      if j < |prev| {
        assert r[j] == prev[j];
        AddAllOrder(acc, init, i, j);
        FirstIndexPrefix(init, xs, r[j]);
      } else {
        assert r[j] == xs[n] && xs[n] !in init;
        FirstIndexLast(init, xs);
      }
    }
  }

  lemma NoDupsNotInPrefix<T>(r: seq<T>, acc: seq<T>, i: nat)
    requires NoDups(r) && |acc| <= i < |r| && r[..|acc|] == acc
    ensures r[i] !in acc
  {
    forall k | 0 <= k < |acc| ensures acc[k] != r[i] {
      assert acc[k] == r[k];
    }
  }

  lemma {:induction false} FirstIndexPrefix<T>(init: seq<T>, xs: seq<T>, x: T)
    requires x in init && StartsWithSeq(xs, init)
    ensures x in xs && FirstIndex(xs, x) == FirstIndex(init, x)
  {
    if init[0] != x {
      FirstIndexPrefix(init[1..], xs[1..], x);
    }
  }

  lemma FirstIndexLast<T>(init: seq<T>, xs: seq<T>)
    requires |xs| == |init| + 1 && xs[..|init|] == init && xs[|init|] !in init
    ensures FirstIndex(xs, xs[|init|]) == |init|
    ensures forall y :: y in init ==> FirstIndex(xs, y) < |init|
  {
    var x := xs[|init|];
    var k := FirstIndex(xs, x);
    assert forall m :: 0 <= m < |init| ==> xs[m] == init[m] && init[m] != x;
    forall y | y in init ensures FirstIndex(xs, y) < |init| {
      FirstIndexPrefix(init, xs, y);
    }
  }

  predicate StartsWithSeq<T(==)>(s: seq<T>, p: seq<T>) {
    |p| <= |s| && s[..|p|] == p
  }

  /** Adding two sequences one after the other is adding their concatenation. */
  lemma {:induction false} AddAllConcat<T>(acc: seq<T>, xs: seq<T>, ys: seq<T>)
    ensures AddAll(AddAll(acc, xs), ys) == AddAll(acc, xs + ys)
  {
    if ys != [] {
      var init := ys[..|ys| - 1];
      AddAllConcat(acc, xs, init);
      assert (xs + ys)[..|xs + ys| - 1] == xs + init;
    } else {
      assert xs + ys == xs;
    }
  }

  /** `Dedup` keeps the first element of a non-empty sequence in front. */
  lemma DedupFirst<T>(xs: seq<T>)
    requires xs != []
    ensures Dedup(xs) != [] && Dedup(xs)[0] == xs[0]
  {
    AddAllHead(xs);
  }

  lemma {:induction false} AddAllHead<T>(xs: seq<T>)
    requires xs != []
    ensures AddAll([], xs) != [] && AddAll([], xs)[0] == xs[0]
  {
    if |xs| > 1 {
      var init := xs[..|xs| - 1];
      AddAllHead(init);
      assert init[0] == xs[0];
    }
  }

  /** `Flatten(xss)` is the concatenation of the `xss` in order. */
  function Flatten<T>(xss: seq<seq<T>>): seq<T> {
    if xss == [] then [] else Flatten(xss[..|xss| - 1]) + xss[|xss| - 1]
  }

  lemma FlattenSingle<T>(xss: seq<seq<T>>, xs: seq<T>)
    ensures Flatten(xss + [xs]) == Flatten(xss) + xs
  {
    assert (xss + [xs])[..|xss|] == xss;
  }

  lemma {:induction false} FlattenConcat<T>(xss: seq<seq<T>>, yss: seq<seq<T>>)
    ensures Flatten(xss + yss) == Flatten(xss) + Flatten(yss)
  {
    if yss == [] {
      assert xss + yss == xss;
    } else {
      var init := yss[..|yss| - 1];
      var last := yss[|yss| - 1];
      FlattenConcat(xss, init);
      assert xss + yss == (xss + init) + [last];
      assert yss == init + [last];
      calc {
        Flatten(xss + yss);
        Flatten((xss + init) + [last]);
        { FlattenSingle(xss + init, last); }
        Flatten(xss + init) + last;
        Flatten(xss) + Flatten(init) + last;
        { FlattenSingle(init, last); }
        Flatten(xss) + Flatten(yss);
      }
    }
  }

  /** Every element of a part is an element of the flattening. */
  lemma {:induction false} FlattenMember<T>(xss: seq<seq<T>>, i: nat, j: nat)
    requires i < |xss| && j < |xss[i]|
    ensures xss[i][j] in Flatten(xss)
  {
    var n := |xss| - 1;
    var init := xss[..n];
    assert xss == init + [xss[n]];
    FlattenSingle(init, xss[n]);
    if i < n {
      assert init[i] == xss[i];
      FlattenMember(init, i, j);
    } else {
      assert xss[i][j] == Flatten(xss)[|Flatten(init)| + j];
    }
  }
}
