/**
 * Generic facts about the two list idioms the pipeline uses: `filter`, and
 * keeping the first element for each key (a `filter` with a `seen` set).
 */
module Seqs {
  import opened Wrappers

  /** `xs` is `ys` with some elements left out, order kept. */
  predicate Subsequence<T(==)>(xs: seq<T>, ys: seq<T>)
    decreases |ys|
  {
    if xs == [] then true
    else if ys == [] then false
    else if xs[|xs| - 1] == ys[|ys| - 1] && Subsequence(xs[..|xs| - 1], ys[..|ys| - 1]) then true
    else Subsequence(xs, ys[..|ys| - 1])
  }

  lemma SubsequenceSnoc<T>(xs: seq<T>, ys: seq<T>, y: T)
    requires Subsequence(xs, ys)
    ensures Subsequence(xs, ys + [y]) && Subsequence(xs + [y], ys + [y])
  {
    assert (ys + [y])[..|ys|] == ys;
    assert (xs + [y])[..|xs|] == xs;
  }

  /** No two elements share a key. */
  predicate DistinctBy<T, K(==)>(xs: seq<T>, key: T -> K) {
    forall i, j :: 0 <= i < j < |xs| ==> key(xs[i]) != key(xs[j])
  }

  /** A subsequence of a subsequence is a subsequence. */
  lemma {:induction false} SubsequenceTrans<T>(xs: seq<T>, ys: seq<T>, zs: seq<T>)
    requires Subsequence(xs, ys) && Subsequence(ys, zs)
    ensures Subsequence(xs, zs)
    decreases |zs|
  {
    if xs != [] {
      var zs' := zs[..|zs| - 1];
      var ys' := ys[..|ys| - 1];
      if ys[|ys| - 1] == zs[|zs| - 1] && Subsequence(ys', zs') {
        var xs' := xs[..|xs| - 1];
        if xs[|xs| - 1] == ys[|ys| - 1] && Subsequence(xs', ys') {
          SubsequenceTrans(xs', ys', zs');
        } else {
          SubsequenceTrans(xs, ys', zs');
        }
      } else {
        SubsequenceTrans(xs, ys, zs');
      }
    }
  }

  /** A subsequence keeps only elements of the original. */
  lemma {:induction false} SubsequenceMembers<T>(xs: seq<T>, ys: seq<T>)
    requires Subsequence(xs, ys)
    ensures forall i :: 0 <= i < |xs| ==> xs[i] in ys
    decreases |ys|
  {
    if xs != [] {
      var ys' := ys[..|ys| - 1];
      var xs' := xs[..|xs| - 1];
      if xs[|xs| - 1] == ys[|ys| - 1] && Subsequence(xs', ys') {
        SubsequenceMembers(xs', ys');
        assert forall i :: 0 <= i < |xs'| ==> xs[i] == xs'[i];
      } else {
        SubsequenceMembers(xs, ys');
      }
    }
  }

  /** A subsequence keeps only elements of the original, and keeps keys distinct. */
  lemma {:induction false} SubsequenceDistinctBy<T, K>(xs: seq<T>, ys: seq<T>, key: T -> K)
    requires Subsequence(xs, ys) && DistinctBy(ys, key)
    ensures DistinctBy(xs, key)
    ensures forall i :: 0 <= i < |xs| ==> xs[i] in ys
    decreases |ys|
  {
    if xs != [] {
      var ys' := ys[..|ys| - 1];
      var xs' := xs[..|xs| - 1];
      assert DistinctBy(ys', key);
      if xs[|xs| - 1] == ys[|ys| - 1] && Subsequence(xs', ys') {
        SubsequenceDistinctBy(xs', ys', key);
        forall i | 0 <= i < |xs'| ensures key(xs'[i]) != key(xs[|xs| - 1]) {
          var k :| 0 <= k < |ys'| && ys'[k] == xs'[i];
          assert ys[k] == xs'[i];
        }
        assert forall i :: 0 <= i < |xs'| ==> xs[i] == xs'[i];
      } else {
        SubsequenceDistinctBy(xs, ys', key);
      }
    }
  }

  // ---------------------------------------------------------------------
  // filter
  // ---------------------------------------------------------------------

  /** `xs.filter(p)`. */
  function Filter<T>(xs: seq<T>, p: T -> bool): (r: seq<T>)
    ensures |r| <= |xs|
    ensures forall i :: 0 <= i < |r| ==> p(r[i])
  {
    if xs == [] then []
    else Filter(xs[..|xs| - 1], p) + (if p(xs[|xs| - 1]) then [xs[|xs| - 1]] else [])
  }

  /** The filter keeps exactly the elements that pass, in order. */
  lemma {:induction false} FilterKeeps<T>(xs: seq<T>, p: T -> bool)
    ensures Subsequence(Filter(xs, p), xs)
    ensures forall x :: x in xs && p(x) ==> x in Filter(xs, p)
  {
    if xs != [] {
      var init := xs[..|xs| - 1];
      var x := xs[|xs| - 1];
      FilterKeeps(init, p);
      assert xs == init + [x];
      SubsequenceSnoc(Filter(init, p), init, x);
      if p(x) {
        assert Filter(xs, p) == Filter(init, p) + [x];
      } else {
        assert Filter(xs, p) == Filter(init, p);
      }
    }
  }

  lemma {:induction false} FilterAppend<T>(xs: seq<T>, ys: seq<T>, p: T -> bool)
    ensures Filter(xs + ys, p) == Filter(xs, p) + Filter(ys, p)
    decreases |ys|
  {
    if ys == [] {
      assert xs + ys == xs;
    } else {
      var n := |ys| - 1;
      assert (xs + ys)[..|xs + ys| - 1] == xs + ys[..n];
      FilterAppend(xs, ys[..n], p);
    }
  }

  // ---------------------------------------------------------------------
  // keep the first element for each key
  // ---------------------------------------------------------------------

  function KeysOf<T, K(==)>(xs: seq<T>, key: T -> K): set<K> {
    set i | 0 <= i < |xs| :: key(xs[i])
  }

  lemma KeysOfSnoc<T, K>(xs: seq<T>, x: T, key: T -> K)
    ensures KeysOf(xs + [x], key) == KeysOf(xs, key) + {key(x)}
  {
    assert (xs + [x])[|xs|] == x;
    assert forall i :: 0 <= i < |xs| ==> (xs + [x])[i] == xs[i];
  }

  /** The elements whose key no earlier element has, in order. */
  function FirstBy<T, K(==)>(xs: seq<T>, key: T -> K): seq<T> {
    if xs == [] then []
    else
      var kept := FirstBy(xs[..|xs| - 1], key);
      var x := xs[|xs| - 1];
      if key(x) in KeysOf(kept, key) then kept else kept + [x]
  }

  /** The kept elements have distinct keys, and every key of the input is kept. */
  lemma {:induction false} FirstByKeys<T, K>(xs: seq<T>, key: T -> K)
    ensures DistinctBy(FirstBy(xs, key), key)
    ensures KeysOf(FirstBy(xs, key), key) == KeysOf(xs, key)
  {
    if xs != [] {
      var init := xs[..|xs| - 1];
      var x := xs[|xs| - 1];
      FirstByKeys(init, key);
      KeysOfSnoc(init, x, key);
      assert xs == init + [x];
      var kept := FirstBy(init, key);
      if key(x) !in KeysOf(kept, key) {
        KeysOfSnoc(kept, x, key);
        forall i | 0 <= i < |kept| ensures key(kept[i]) != key(x) {
          assert key(kept[i]) in KeysOf(kept, key);
        }
      }
    }
  }

  /** The kept elements are in their original order. */
  lemma {:induction false} FirstBySubsequence<T, K>(xs: seq<T>, key: T -> K)
    ensures Subsequence(FirstBy(xs, key), xs)
  {
    if xs != [] {
      var init := xs[..|xs| - 1];
      var x := xs[|xs| - 1];
      FirstBySubsequence(init, key);
      SubsequenceSnoc(FirstBy(init, key), init, x);
      assert init + [x] == xs;
    }
  }

  /** The first element with a given key is kept. */
  lemma {:induction false} FirstByKeepsFirst<T, K>(xs: seq<T>, key: T -> K, i: nat)
    requires i < |xs| && forall j :: 0 <= j < i ==> key(xs[j]) != key(xs[i])
    ensures xs[i] in FirstBy(xs, key)
  {
    var init := xs[..|xs| - 1];
    var kept := FirstBy(init, key);
    if i < |xs| - 1 {
      FirstByKeepsFirst(init, key, i);
      assert xs[i] in kept;
    } else {
      FirstBySubsequence(init, key);
      SubsequenceMembers(kept, init);
      assert key(xs[i]) !in KeysOf(kept, key) by {
        forall k | 0 <= k < |kept| ensures key(kept[k]) != key(xs[i]) {
          var j :| 0 <= j < |init| && init[j] == kept[k];
          assert xs[j] == kept[k];
        }
      }
      assert FirstBy(xs, key) == kept + [xs[i]];
    }
  }

  /** Elements whose keys are already distinct all survive. */
  lemma {:induction false} FirstByOfDistinct<T, K>(xs: seq<T>, key: T -> K)
    requires DistinctBy(xs, key)
    ensures FirstBy(xs, key) == xs
  {
    if xs != [] {
      var init := xs[..|xs| - 1];
      assert DistinctBy(init, key);
      FirstByOfDistinct(init, key);
      assert key(xs[|xs| - 1]) !in KeysOf(init, key) by {
        forall i | 0 <= i < |init| ensures key(init[i]) != key(xs[|xs| - 1]) {
          assert init[i] == xs[i];
        }
      }
    }
  }

  /** When every element has the same key, only the first is kept. */
  lemma {:induction false} FirstBySameKey<T, K>(xs: seq<T>, key: T -> K)
    requires xs != [] && forall i :: 0 <= i < |xs| ==> key(xs[i]) == key(xs[0])
    ensures FirstBy(xs, key) == [xs[0]]
  {
    if |xs| > 1 {
      var init := xs[..|xs| - 1];
      assert init[0] == xs[0];
      FirstBySameKey(init, key);
      assert key(xs[|xs| - 1]) in KeysOf([xs[0]], key) by {
        assert [xs[0]][0] == xs[0];
      }
    } else {
      assert xs[..0] == [];
    }
  }

  /** Keeping the first per key is idempotent. */
  lemma FirstByIdempotent<T, K>(xs: seq<T>, key: T -> K)
    ensures FirstBy(FirstBy(xs, key), key) == FirstBy(xs, key)
  {
    FirstByKeys(xs, key);
    FirstByOfDistinct(FirstBy(xs, key), key);
  }

  // ---------------------------------------------------------------------
  // keep the first strictly highest score
  // ---------------------------------------------------------------------

  /** The scan `if (score > best) { best = score; bestIndex = i }` over the
      eligible elements, starting from `best = floor`: the index of the first
      eligible element with the highest score, if that score beats `floor`. */
  function FirstMax<T>(xs: seq<T>, score: T -> real, eligible: T -> bool, floor: real): (r: Option<nat>)
    ensures r.Some? ==> r.value < |xs| && eligible(xs[r.value]) && score(xs[r.value]) > floor
    ensures r.Some? ==> forall j :: 0 <= j < |xs| && eligible(xs[j]) ==> score(xs[j]) <= score(xs[r.value])
    ensures r.Some? ==> forall j :: 0 <= j < r.value && eligible(xs[j]) ==> score(xs[j]) < score(xs[r.value])
    ensures r.None? ==> forall j :: 0 <= j < |xs| && eligible(xs[j]) ==> score(xs[j]) <= floor
  {
    if xs == [] then None
    else
      var init := xs[..|xs| - 1];
      var k := FirstMax(init, score, eligible, floor);
      var x := xs[|xs| - 1];
      var best := if k.Some? then score(init[k.value]) else floor;
      if !eligible(x) then k
      else if score(x) > best then Some(|xs| - 1)
      else k
  }
  /** One more step of the scan: with `j` the scan's answer on `xs[..i]` and
      `cur` the score it holds, the answer on `xs[..i + 1]` moves to `i` exactly
      when `xs[i]` is eligible and beats `cur`. */
  lemma FirstMaxStep<T>(xs: seq<T>, i: nat, score: T -> real, eligible: T -> bool, floor: real,
                        j: Option<nat>, cur: real)
    requires i < |xs|
    requires j == FirstMax(xs[..i], score, eligible, floor)
    requires j.Some? ==> j.value < i && cur == score(xs[j.value])
    requires j.None? ==> cur == floor
    ensures FirstMax(xs[..i + 1], score, eligible, floor)
         == if eligible(xs[i]) && score(xs[i]) > cur then Some(i) else j
  {
    assert xs[..i + 1][..i] == xs[..i];
  }

  // ---------------------------------------------------------------------
  // the first element that passes a test
  // ---------------------------------------------------------------------

  /** The index of the first element of `xs` satisfying `p`, if any. */
  function FirstWhere<T>(xs: seq<T>, p: T -> bool): (r: Option<nat>)
    ensures r.Some? ==> r.value < |xs| && p(xs[r.value])
    ensures r.Some? ==> forall j :: 0 <= j < r.value ==> !p(xs[j])
    ensures r.None? ==> forall j :: 0 <= j < |xs| ==> !p(xs[j])
  {
    if xs == [] then None
    else if p(xs[0]) then Some(0)
    else
      var k := FirstWhere(xs[1..], p);
      assert forall j :: 1 <= j < |xs| ==> xs[1..][j - 1] == xs[j];
      if k.Some? then Some(k.value + 1) else None
  }

  /** A scan that stops at the first element satisfying `p`, or finds none,
      has computed `FirstWhere`. */
  lemma FirstWhereUnique<T>(xs: seq<T>, p: T -> bool, k: Option<nat>)
    requires k.Some? ==> k.value < |xs| && p(xs[k.value])
    requires k.Some? ==> forall j :: 0 <= j < k.value ==> !p(xs[j])
    requires k.None? ==> forall j :: 0 <= j < |xs| ==> !p(xs[j])
    ensures FirstWhere(xs, p) == k
  {
  }

  // ---------------------------------------------------------------------
  // mapping each element to a sequence and concatenating
  // ---------------------------------------------------------------------

  /** `xs.flatMap(f)`. */
  function FlatMap<T, U>(xs: seq<T>, f: T -> seq<U>): seq<U> {
    if xs == [] then [] else f(xs[0]) + FlatMap(xs[1..], f)
  }

  /** `flatMap` distributes over concatenation. */
  lemma {:induction false} FlatMapAppend<T, U>(xs: seq<T>, ys: seq<T>, f: T -> seq<U>)
    ensures FlatMap(xs + ys, f) == FlatMap(xs, f) + FlatMap(ys, f)
  {
    if xs == [] {
      assert xs + ys == ys;
    } else {
      assert (xs + ys)[0] == xs[0] && (xs + ys)[1..] == xs[1..] + ys;
      FlatMapAppend(xs[1..], ys, f);
      assert f(xs[0]) + (FlatMap(xs[1..], f) + FlatMap(ys, f)) == (f(xs[0]) + FlatMap(xs[1..], f)) + FlatMap(ys, f);
    }
  }
}
