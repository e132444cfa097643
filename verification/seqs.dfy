/**
 * Occurrences of a run of tokens inside a longer stream, so that encoders
 * and decoders can be related at any position of any stream.
 */
module Seqs {
  /** `xs` occurs in `ts` starting at position `p`. */
  predicate At<T(==)>(ts: seq<T>, p: nat, xs: seq<T>) {
    p + |xs| <= |ts| && forall i | 0 <= i < |xs| :: ts[p + i] == xs[i]
  }

  /** An occurrence of `xs + ys` is an occurrence of `xs` followed by one of `ys`. */
  lemma AtConcat<T>(ts: seq<T>, p: nat, xs: seq<T>, ys: seq<T>)
    ensures At(ts, p, xs + ys) <==> At(ts, p, xs) && At(ts, p + |xs|, ys)
  {
    if At(ts, p, xs + ys) {
      forall i | 0 <= i < |xs| ensures ts[p + i] == xs[i] {
        assert ts[p + i] == (xs + ys)[i];
      }
      forall i | 0 <= i < |ys| ensures ts[p + |xs| + i] == ys[i] {
        assert ts[p + (|xs| + i)] == (xs + ys)[|xs| + i];
      }
    }
    if At(ts, p, xs) && At(ts, p + |xs|, ys) {
      forall i | 0 <= i < |xs + ys| ensures ts[p + i] == (xs + ys)[i] {
        if i < |xs| {
          assert ts[p + i] == xs[i];
        } else {
          assert ts[p + |xs| + (i - |xs|)] == ys[i - |xs|];
        }
      }
      assert p + |xs + ys| <= |ts|;
    }
  }

  lemma AtWhole<T>(ts: seq<T>)
    ensures At(ts, 0, ts)
  {
  }

  /** An occurrence determines the stream around it. */
  lemma AtSplit<T>(ts: seq<T>, p: nat, xs: seq<T>)
    requires At(ts, p, xs)
    ensures ts == ts[..p] + xs + ts[p + |xs|..]
  {
    var whole := ts[..p] + xs + ts[p + |xs|..];
    assert |whole| == |ts|;
    forall i | 0 <= i < |ts| ensures whole[i] == ts[i] {
      if p <= i < p + |xs| {
        assert ts[p + (i - p)] == xs[i - p];
      }
    }
  }

  /** A run written between a prefix and a suffix occurs right after the prefix. */
  lemma AtInside<T>(pre: seq<T>, xs: seq<T>, rest: seq<T>)
    ensures At(pre + xs + rest, |pre|, xs)
  {
    var ts := pre + xs + rest;
    forall i | 0 <= i < |xs| ensures ts[|pre| + i] == xs[i] {
      assert ts[|pre| + i] == (pre + xs)[|pre| + i];
    }
  }

  /** A one-element occurrence pins down one token. */
  lemma AtSingle<T>(ts: seq<T>, p: nat, x: T)
    requires At(ts, p, [x])
    ensures p < |ts| && ts[p] == x
  {
    assert ts[p + 0] == [x][0];
  }

  /** The first token of an occurrence, and the occurrence of the rest right after it. */
  lemma AtFirst<T>(ts: seq<T>, p: nat, xs: seq<T>)
    requires At(ts, p, xs) && xs != []
    ensures p < |ts| && ts[p] == xs[0] && At(ts, p + 1, xs[1..])
  {
    assert ts[p + 0] == xs[0];
    forall i | 0 <= i < |xs| - 1 ensures ts[p + 1 + i] == xs[1..][i] {
      assert ts[p + (1 + i)] == xs[1 + i];
    }
  }

  lemma Assoc<T>(a: seq<T>, b: seq<T>, c: seq<T>)
    ensures a + (b + c) == a + b + c
  {
  }

  lemma EmptyLeft<T>(a: seq<T>)
    ensures [] + a == a
  {
  }
}
