/** Sequence facts shared by the label algebra and the peer editing. */
module Seqs {

  function Elems<T>(s: seq<T>): set<T> {
    set x | x in s
  }

  predicate Distinct<T(==)>(s: seq<T>) {
    forall i, j :: 0 <= i < j < |s| ==> s[i] != s[j]
  }

  /** A prefix one element longer. */
  lemma PrefixStep<T>(s: seq<T>, n: nat)
    requires n < |s|
    ensures s[..n + 1] == s[..n] + [s[n]]
  {
  }

  /** A sequence followed by a prefix of another, one element longer. */
  lemma AppendPrefixStep<T>(a: seq<T>, b: seq<T>, n: nat)
    requires n < |b|
    ensures a + b[..n + 1] == (a + b[..n]) + [b[n]]
  {
    assert b[..n + 1] == b[..n] + [b[n]];
  }

  /** A duplicate-free sequence has as many elements as its length. */
  lemma {:induction false} DistinctElemsCount<T>(s: seq<T>)
    requires Distinct(s)
    ensures |Elems(s)| == |s|
    decreases |s|
  {
    if s != [] {
      var init := s[..|s| - 1];
      var last := s[|s| - 1];
      DistinctElemsCount(init);
      assert s == init + [last];
      assert Elems(s) == Elems(init) + {last};
    }
  }

  /**
   * `dst` followed, in `src` order, by every element of `src` that is not yet present
   * (neither in `dst` nor earlier in `src`). This is what appendUnique computes, and what
   * ExtendPeers does to each rule's peer list.
   */
  function AppendMissing<T(==)>(dst: seq<T>, src: seq<T>): seq<T>
    decreases |src|
  {
    if src == [] then dst
    else
      var r := AppendMissing(dst, src[..|src| - 1]);
      if src[|src| - 1] in r then r else r + [src[|src| - 1]]
  }

  /** `dst` is kept as an unchanged prefix; only the tail is new. */
  lemma {:induction false} AppendMissingPrefix<T>(dst: seq<T>, src: seq<T>)
    ensures |AppendMissing(dst, src)| >= |dst|
    ensures AppendMissing(dst, src)[..|dst|] == dst
    decreases |src|
  {
    if src != [] {
      AppendMissingPrefix(dst, src[..|src| - 1]);
    }
  }

  /** The result holds exactly the elements of both inputs. */
  lemma {:induction false} AppendMissingElems<T>(dst: seq<T>, src: seq<T>)
    ensures Elems(AppendMissing(dst, src)) == Elems(dst) + Elems(src)
    decreases |src|
  {
    if src != [] {
      var init := src[..|src| - 1];
      AppendMissingElems(dst, init);
      assert src == init + [src[|src| - 1]];
      assert Elems(src) == Elems(init) + {src[|src| - 1]};
      var r := AppendMissing(dst, init);
      if src[|src| - 1] !in r {
        assert Elems(r + [src[|src| - 1]]) == Elems(r) + {src[|src| - 1]};
      }
    }
  }

  /** The appended tail never repeats an element and never repeats one of `dst`. */
  lemma {:induction false} AppendMissingTail<T>(dst: seq<T>, src: seq<T>)
    ensures |AppendMissing(dst, src)| >= |dst|
    ensures Distinct(AppendMissing(dst, src)[|dst|..])
    ensures forall x :: x in AppendMissing(dst, src)[|dst|..] ==> x !in dst
    decreases |src|
  {
    AppendMissingPrefix(dst, src);
    if src != [] {
      var init := src[..|src| - 1];
      var x := src[|src| - 1];
      AppendMissingTail(dst, init);
      AppendMissingPrefix(dst, init);
      var r := AppendMissing(dst, init);
      if x !in r {
        assert (r + [x])[|dst|..] == r[|dst|..] + [x];
        assert r == r[..|dst|] + r[|dst|..];
      }
    }
  }

  /** A duplicate-free `dst` stays duplicate-free. */
  lemma AppendMissingDistinct<T>(dst: seq<T>, src: seq<T>)
    requires Distinct(dst)
    ensures Distinct(AppendMissing(dst, src))
  {
    var r := AppendMissing(dst, src);
    AppendMissingTail(dst, src);
    AppendMissingPrefix(dst, src);
    forall i, j | 0 <= i < j < |r| ensures r[i] != r[j] {
      if j < |dst| {
        assert r[i] == dst[i] && r[j] == dst[j];
      } else if i < |dst| {
        assert r[j] == r[|dst|..][j - |dst|];
        assert r[i] == dst[i];
      } else {
        assert r[i] == r[|dst|..][i - |dst|] && r[j] == r[|dst|..][j - |dst|];
      }
    }
  }

  /** Nothing is appended when every element of `src` is already present. */
  lemma {:induction false} AppendMissingNoop<T>(dst: seq<T>, src: seq<T>)
    requires forall x :: x in src ==> x in dst
    ensures AppendMissing(dst, src) == dst
    decreases |src|
  {
    if src != [] {
      AppendMissingNoop(dst, src[..|src| - 1]);
    }
  }

  /** Appending the same elements a second time changes nothing. */
  lemma AppendMissingIdempotent<T>(dst: seq<T>, src: seq<T>)
    ensures AppendMissing(AppendMissing(dst, src), src) == AppendMissing(dst, src)
  {
    var r := AppendMissing(dst, src);
    AppendMissingElems(dst, src);
    assert forall x :: x in src ==> x in Elems(src) && x in Elems(r);
    AppendMissingNoop(r, src);
  }

  /** Elements that are all new and pairwise different are all appended, in order. */
  lemma {:induction false} AppendMissingFresh<T>(dst: seq<T>, src: seq<T>)
    requires Distinct(src)
    requires forall x :: x in src ==> x !in dst
    ensures AppendMissing(dst, src) == dst + src
    decreases |src|
  {
    if src != [] {
      var init := src[..|src| - 1];
      AppendMissingFresh(dst, init);
      assert src == init + [src[|src| - 1]];
      assert dst + src == (dst + init) + [src[|src| - 1]];
    }
  }
}
