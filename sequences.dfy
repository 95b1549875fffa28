/** Small facts about sequences, proved once in a context of their own. */
module Sequences {
  /** A non-empty sequence is its prefix without the last element, followed by that element. */
  lemma InitLast<T>(s: seq<T>)
    requires |s| > 0
    ensures s == s[..|s| - 1] + [s[|s| - 1]]
  {
  }

  /** Taking one more element extends the prefix by that element. */
  lemma TakeStep<T>(s: seq<T>, k: nat)
    requires 0 < k <= |s|
    ensures s[..k] == s[..k - 1] + [s[k - 1]]
  {
  }

  /** Dropping the last element of `a + b`, for a non-empty `b`, drops it from `b`. */
  lemma ConcatInit<T>(a: seq<T>, b: seq<T>)
    requires |b| > 0
    ensures (a + b)[..|a + b| - 1] == a + b[..|b| - 1]
    ensures (a + b)[|a + b| - 1] == b[|b| - 1]
  {
  }

  /** The positions holding `true`. */
  ghost function TrueIndices(bs: seq<bool>): set<nat> {
    set i: nat | i < |bs| && bs[i]
  }

  lemma TrueIndicesStep(bs: seq<bool>)
    requires |bs| > 0
    ensures |TrueIndices(bs)| == |TrueIndices(bs[..|bs| - 1])| + if bs[|bs| - 1] then 1 else 0
  {
    var n := |bs| - 1;
    var prefix := TrueIndices(bs[..n]);
    if bs[n] {
      assert TrueIndices(bs) == prefix + {n};
    } else {
      assert TrueIndices(bs) == prefix;
    }
  }
}
