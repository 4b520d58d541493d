/** Facts about sequences used as ordered, duplicate-free collections. */
module Sequences {

  lemma AppendAssoc<T>(a: seq<T>, b: seq<T>, c: seq<T>)
    ensures (a + b) + c == a + (b + c)
  {
  }

  predicate Distinct(xs: seq<string>) {
    forall i, j :: 0 <= i < j < |xs| ==> xs[i] != xs[j]
  }

  /** `xs` is `ys` with some elements dropped, the rest kept in order. */
  predicate IsSubsequence(xs: seq<string>, ys: seq<string>) {
    if xs == [] then true
    else if ys == [] then false
    else (xs[0] == ys[0] && IsSubsequence(xs[1..], ys[1..])) || IsSubsequence(xs, ys[1..])
  }

  lemma {:induction false} SubsequenceMembers(xs: seq<string>, ys: seq<string>)
    requires IsSubsequence(xs, ys)
    ensures forall x :: x in xs ==> x in ys
    decreases |ys|
  {
    if xs != [] {
      if xs[0] == ys[0] && IsSubsequence(xs[1..], ys[1..]) {
        SubsequenceMembers(xs[1..], ys[1..]);
        forall x | x in xs ensures x in ys {
          if x != xs[0] { assert x in xs[1..]; assert x in ys[1..]; }
        }
      } else {
        SubsequenceMembers(xs, ys[1..]);
      }
    }
  }

  /** A subsequence of a duplicate-free sequence is duplicate-free. */
  lemma {:induction false} SubsequenceDistinct(xs: seq<string>, ys: seq<string>)
    requires IsSubsequence(xs, ys) && Distinct(ys)
    ensures Distinct(xs)
    decreases |ys|
  {
    if xs != [] {
      assert Distinct(ys[1..]) by {
        forall i, j | 0 <= i < j < |ys[1..]| ensures ys[1..][i] != ys[1..][j] {
          assert ys[1..][i] == ys[i + 1] && ys[1..][j] == ys[j + 1];
        }
      }
      if xs[0] == ys[0] && IsSubsequence(xs[1..], ys[1..]) {
        SubsequenceDistinct(xs[1..], ys[1..]);
        SubsequenceMembers(xs[1..], ys[1..]);
        forall i, j | 0 <= i < j < |xs| ensures xs[i] != xs[j] {
          if i == 0 {
            assert xs[j] == xs[1..][j - 1];
            assert xs[j] in ys[1..];
            var k :| 0 <= k < |ys[1..]| && ys[1..][k] == xs[j];
            assert ys[k + 1] == xs[j];
          } else {
            assert xs[i] == xs[1..][i - 1] && xs[j] == xs[1..][j - 1];
          }
        }
      } else {
        SubsequenceDistinct(xs, ys[1..]);
      }
    }
  }

  lemma {:induction false} SubsequenceLength(xs: seq<string>, ys: seq<string>)
    requires IsSubsequence(xs, ys)
    ensures |xs| <= |ys|
    decreases |ys|
  {
    if xs != [] {
      if xs[0] == ys[0] && IsSubsequence(xs[1..], ys[1..]) {
        SubsequenceLength(xs[1..], ys[1..]);
      } else {
        SubsequenceLength(xs, ys[1..]);
      }
    }
  }


  /* ---------- a JavaScript Set of strings, as Array.from lists it ---------- */

  /** `set.add(x)`: a new element goes to the end, a present one changes nothing. */
  function Insert(members: seq<string>, x: string): seq<string> {
    if x in members then members else members + [x]
  }

  /** Adding every element of `xs`, in order, to `members`. */
  function AddAll(members: seq<string>, xs: seq<string>): seq<string>
    decreases |xs|
  {
    if xs == [] then members else Insert(AddAll(members, xs[..|xs| - 1]), xs[|xs| - 1])
  }

  /** The elements of `xs` in first-occurrence order, each once. */
  function Dedup(xs: seq<string>): seq<string> {
    AddAll([], xs)
  }

  /** Adding two batches one after the other is adding their concatenation. */
  lemma {:induction false} AddAllAppend(members: seq<string>, xs: seq<string>, ys: seq<string>)
    ensures AddAll(AddAll(members, xs), ys) == AddAll(members, xs + ys)
    decreases |ys|
  {
    if ys == [] {
      assert xs + ys == xs;
    } else {
      var zs := xs + ys;
      assert zs[..|zs| - 1] == xs + ys[..|ys| - 1];
      assert zs[|zs| - 1] == ys[|ys| - 1];
      AddAllAppend(members, xs, ys[..|ys| - 1]);
    }
  }

  /** The index of the first occurrence of `x` in `xs`. */
  function FirstIndex(xs: seq<string>, x: string): (r: nat)
    requires x in xs
    ensures r < |xs| && xs[r] == x && x !in xs[..r]
  {
    if xs[0] == x then 0
    else
      var r := 1 + FirstIndex(xs[1..], x);
      assert xs[..r] == [xs[0]] + xs[1..][..r - 1];
      r
  }

  lemma FirstIndexUnique(xs: seq<string>, x: string, r: nat)
    requires r < |xs| && xs[r] == x && x !in xs[..r]
    ensures FirstIndex(xs, x) == r
  {
    var f := FirstIndex(xs, x);
    forall k | 0 <= k < r ensures xs[k] != x { assert xs[..r][k] == xs[k]; }
    forall k | 0 <= k < f ensures xs[k] != x { assert xs[..f][k] == xs[k]; }
  }

  /** Dedup keeps exactly the elements of its input, once each, in the order of
      their first occurrence. */
  lemma {:induction false} DedupProperties(xs: seq<string>)
    ensures Distinct(Dedup(xs))
    ensures forall x :: x in Dedup(xs) <==> x in xs
    ensures forall i, j :: 0 <= i < j < |Dedup(xs)| ==>
      FirstIndex(xs, Dedup(xs)[i]) < FirstIndex(xs, Dedup(xs)[j])
    decreases |xs|
  {
    if xs != [] {
      var front, last := xs[..|xs| - 1], xs[|xs| - 1];
      assert xs == front + [last];
      DedupProperties(front);
      var d := Dedup(front);
      forall y | y in front ensures FirstIndex(xs, y) == FirstIndex(front, y) {
        var f := FirstIndex(front, y);
        assert xs[..f] == front[..f];
        FirstIndexUnique(xs, y, f);
      }
      if last !in d {
        assert xs[..|front|] == front;
        FirstIndexUnique(xs, last, |front|);
        var d' := d + [last];
        assert Dedup(xs) == d';
        forall i, j | 0 <= i < j < |d'| ensures FirstIndex(xs, d'[i]) < FirstIndex(xs, d'[j]) {
          assert d'[i] == d[i] && d[i] in front;
          if j < |d| { assert d'[j] == d[j]; }
        }
      }
    }
  }
}
