/** Order-preserving selection from a fixed list of labels, and the
    subsequence relation the analysis results are stated with. */
module Seqs {
  import opened JsValues

  /** `xs` is obtained from `ys` by deleting some elements, keeping the order. */
  predicate IsSubsequence<T(==)>(xs: seq<T>, ys: seq<T>)
    decreases |ys|
  {
    if xs == [] then true
    else if ys == [] then false
    else if xs[0] == ys[0] then IsSubsequence(xs[1..], ys[1..])
    else IsSubsequence(xs, ys[1..])
  }

  /** No element occurs twice. */
  predicate Distinct<T(==)>(s: seq<T>) {
    forall i, j :: 0 <= i < j < |s| ==> s[i] != s[j]
  }

  /** The labels whose flag is set, in the order of `labels`: a sequence of
      `if (flag) out.push(label)` statements. */
  function Select<T>(labels: seq<T>, keep: seq<bool>): (r: seq<T>)
    requires |keep| == |labels|
    ensures |r| <= |labels|
  {
    if labels == [] then []
    else (if keep[0] then [labels[0]] else []) + Select(labels[1..], keep[1..])
  }

  /** A subsequence is no longer than the sequence and draws its elements from it. */
  lemma {:induction false} SubsequenceElements<T>(xs: seq<T>, ys: seq<T>)
    requires IsSubsequence(xs, ys)
    ensures |xs| <= |ys|
    ensures forall x :: x in xs ==> x in ys
    decreases |ys|
  {
    if xs == [] {
    } else if xs[0] == ys[0] {
      SubsequenceElements(xs[1..], ys[1..]);
      assert xs == [xs[0]] + xs[1..];
    } else {
      SubsequenceElements(xs, ys[1..]);
    }
  }

  /** Selecting from a list yields a subsequence of it. */
  lemma {:induction false} SelectIsSubsequence<T>(labels: seq<T>, keep: seq<bool>)
    requires |keep| == |labels|
    ensures IsSubsequence(Select(labels, keep), labels)
  {
    if labels != [] {
      SelectIsSubsequence(labels[1..], keep[1..]);
      var rest := Select(labels[1..], keep[1..]);
      if keep[0] {
        assert Select(labels, keep) == [labels[0]] + rest;
        assert ([labels[0]] + rest)[1..] == rest;
      } else {
        assert Select(labels, keep) == rest;
        SubsequenceOfTail(rest, labels);
      }
    }
  }

  /** A subsequence of the tail is a subsequence of the whole sequence. */
  lemma {:induction false} SubsequenceOfTail<T>(xs: seq<T>, ys: seq<T>)
    requires ys != [] && IsSubsequence(xs, ys[1..])
    ensures IsSubsequence(xs, ys)
    decreases |xs| + |ys|
  {
    if xs != [] && xs[0] == ys[0] {
      // xs[1..] is a subsequence of ys[1..] because xs is
      SubsequenceDropHead(xs, ys[1..]);
    }
  }

  /** Dropping the head of a non-empty subsequence keeps it a subsequence. */
  lemma {:induction false} SubsequenceDropHead<T>(xs: seq<T>, ys: seq<T>)
    requires xs != [] && IsSubsequence(xs, ys)
    ensures IsSubsequence(xs[1..], ys)
    decreases |xs| + |ys|
  {
    if xs[0] == ys[0] {
      if xs[1..] != [] {
        SubsequenceOfTail(xs[1..], ys);
      }
    } else {
      SubsequenceDropHead(xs, ys[1..]);
      if xs[1..] != [] {
        SubsequenceOfTail(xs[1..], ys);
      }
    }
  }

  /** With distinct labels, label `i` is selected exactly when its flag is set. */
  lemma {:induction false} SelectMembership<T>(labels: seq<T>, keep: seq<bool>, i: nat)
    requires |keep| == |labels| && Distinct(labels) && i < |labels|
    ensures labels[i] in Select(labels, keep) <==> keep[i]
  {
    var rest := Select(labels[1..], keep[1..]);
    assert Select(labels, keep) == (if keep[0] then [labels[0]] else []) + rest;
    SelectIsSubsequence(labels[1..], keep[1..]);
    SubsequenceElements(rest, labels[1..]);
    if i == 0 {
      assert labels[0] !in labels[1..];
    } else {
      assert labels[1..][i - 1] == labels[i];
      SelectMembership(labels[1..], keep[1..], i - 1);
    }
  }

  /** Two subsequences of a list without repetitions that hold the same
      elements are equal: such a result is fixed by which labels it holds. */
  lemma {:induction false} SubsequenceDeterminedByMembers<T>(xs: seq<T>, zs: seq<T>, ys: seq<T>)
    requires IsSubsequence(xs, ys) && IsSubsequence(zs, ys) && Distinct(ys)
    requires forall x :: x in xs <==> x in zs
    ensures xs == zs
    decreases |ys|
  {
    if ys == [] {
      assert xs == [] && zs == [];
    } else {
      var y := ys[0];
      assert y !in ys[1..];
      if y in xs {
        HeadIsFirst(xs, ys);
        HeadIsFirst(zs, ys);
        SubsequenceElements(xs[1..], ys[1..]);
        SubsequenceElements(zs[1..], ys[1..]);
        assert xs == [y] + xs[1..] && zs == [y] + zs[1..];
        forall x ensures x in xs[1..] <==> x in zs[1..] {
          if x in xs[1..] {
            assert x != y && x in zs;
          }
          if x in zs[1..] {
            assert x != y && x in xs;
          }
        }
        SubsequenceDeterminedByMembers(xs[1..], zs[1..], ys[1..]);
        assert xs == [y] + xs[1..] && zs == [y] + zs[1..];
      } else {
        assert xs == [] || xs[0] != y;
        assert zs == [] || zs[0] != y;
        SubsequenceDeterminedByMembers(xs, zs, ys[1..]);
      }
    }
  }

  /** If the head of a list without repetitions occurs in a subsequence, it
      is the subsequence's head and the rest follows the list's tail. */
  lemma {:induction false} HeadIsFirst<T>(xs: seq<T>, ys: seq<T>)
    requires IsSubsequence(xs, ys) && Distinct(ys) && ys != [] && ys[0] in xs
    ensures xs[0] == ys[0] && IsSubsequence(xs[1..], ys[1..])
  {
    if xs[0] != ys[0] {
      SubsequenceElements(xs, ys[1..]);
      assert false;
    }
  }

  /** The values of the entries that are present, in order: `.filter(Boolean)`
      applied to a sequence of objects some of which are `undefined`. */
  function Present<T>(xs: seq<Option<T>>): (r: seq<T>)
    ensures |r| <= |xs|
    ensures forall x :: x in r ==> Some(x) in xs
  {
    if xs == [] then []
    else
      var init := xs[..|xs| - 1];
      var last := xs[|xs| - 1];
      assert forall k :: 0 <= k < |init| ==> init[k] == xs[k];
      Present(init) + (if last.Some? then [last.value] else [])
  }

  /** `src` explains `r`: the k-th value sits at index `src[k]` of `xs`, the
      indices increase, and every index left out holds `undefined`. */
  ghost predicate PresentAt<T>(xs: seq<Option<T>>, r: seq<T>, src: seq<nat>) {
    && |src| == |r|
    && (forall k :: 0 <= k < |src| ==> src[k] < |xs| && xs[src[k]] == Some(r[k]))
    && (forall k, l :: 0 <= k < l < |src| ==> src[k] < src[l])
    && (forall i :: 0 <= i < |xs| && i !in src ==> xs[i].None?)
  }

  /** A present last entry is kept, after the values of the entries before it. */
  lemma {:induction false} PresentAtKeep<T>(xs: seq<Option<T>>, r0: seq<T>, before: seq<nat>)
    requires xs != [] && xs[|xs| - 1].Some?
    requires PresentAt(xs[..|xs| - 1], r0, before)
    ensures PresentAt(xs, r0 + [xs[|xs| - 1].value], before + [|xs| - 1])
  {
    var n := |xs| - 1;
    var init, src, r := xs[..n], before + [n], r0 + [xs[n].value];
    forall k | 0 <= k < |src| ensures src[k] < |xs| && xs[src[k]] == Some(r[k]) {
      if k < |before| {
        assert src[k] == before[k] && r[k] == r0[k];
        assert init[before[k]] == xs[before[k]];
      }
    }
    forall i | 0 <= i < |xs| && i !in src ensures xs[i].None? {
      assert init[i] == xs[i];
    }
  }

  /** An `undefined` last entry adds nothing. */
  lemma {:induction false} PresentAtSkip<T>(xs: seq<Option<T>>, r0: seq<T>, before: seq<nat>)
    requires xs != [] && xs[|xs| - 1].None?
    requires PresentAt(xs[..|xs| - 1], r0, before)
    ensures PresentAt(xs, r0, before)
  {
    var n := |xs| - 1;
    var init := xs[..n];
    forall k | 0 <= k < |before| ensures xs[before[k]] == init[before[k]] {
    }
    forall i | 0 <= i < |xs| && i !in before ensures xs[i].None? {
      if i < n {
        assert init[i] == xs[i];
      }
    }
  }

  /** Each kept value comes from its own entry, in order, and only the
      `undefined` entries are dropped. */
  lemma {:induction false} PresentTrace<T>(xs: seq<Option<T>>) returns (src: seq<nat>)
    ensures PresentAt(xs, Present(xs), src)
  {
    if xs == [] {
      src := [];
    } else {
      var init := xs[..|xs| - 1];
      var before := PresentTrace(init);
      if xs[|xs| - 1].Some? {
        PresentAtKeep(xs, Present(init), before);
        src := before + [|xs| - 1];
      } else {
        PresentAtSkip(xs, Present(init), before);
        src := before;
      }
    }
  }

  /** `Present` works entry by entry. */
  lemma {:induction false} PresentConcat<T>(a: seq<Option<T>>, b: seq<Option<T>>)
    ensures Present(a + b) == Present(a) + Present(b)
  {
    if b == [] {
      assert a + b == a;
    } else {
      var n := |b| - 1;
      assert (a + b)[..|a + b| - 1] == a + b[..n];
      assert (a + b)[|a + b| - 1] == b[n];
      PresentConcat(a, b[..n]);
    }
  }

  /** Nothing is dropped when every entry is present. */
  lemma {:induction false} PresentAllKept<T>(xs: seq<Option<T>>)
    requires forall k :: 0 <= k < |xs| ==> xs[k].Some?
    ensures |Present(xs)| == |xs|
  {
    if xs != [] {
      var n := |xs| - 1;
      assert forall k :: 0 <= k < |xs[..n]| ==> xs[..n][k].Some?;
      PresentAllKept(xs[..n]);
    }
  }
}
