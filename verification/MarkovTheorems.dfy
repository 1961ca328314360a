/** What the back-off in `generate` amounts to, and when it reproduces its samples. */
module MarkovTheorems {
  import opened Ngrams
  import opened MarkovText

  // ---------------------------------------------------------------- contexts

  /** Observed contexts are closed under dropping the first character. */
  lemma ObservedShorter(samples: seq<string>, w: string)
    requires |w| >= 1 && Observed(samples, w)
    ensures Observed(samples, w[1..])
  {
    var c: char :| Total(samples, w + [c]) > 0;
    ShorterContextTotal(samples, w + [c]);
    assert (w + [c])[1..] == w[1..] + [c];
  }

  lemma {:induction false} ObservedSuffixes(samples: seq<string>, g: string, k: nat, j: nat)
    requires j <= k <= |g| && Observed(samples, Suffix(g, k))
    ensures Observed(samples, Suffix(g, j))
    decreases k
  {
    if j < k {
      ObservedShorter(samples, Suffix(g, k));
      assert Suffix(g, k)[1..] == Suffix(g, k - 1);
      ObservedSuffixes(samples, g, k - 1, j);
    }
  }

  /** The suffix used is the longest one observed: of the suffixes that the models cover,
      exactly those up to its length have been observed. */
  lemma {:induction false} LongestIff(samples: seq<string>, g: string, k: nat, j: nat)
    requires 0 < j <= k <= |g|
    ensures Observed(samples, Suffix(g, j)) <==> j <= Longest(samples, g, k)
    decreases k
  {
    if Observed(samples, Suffix(g, k)) {
      ObservedSuffixes(samples, g, k, j);
    } else if j < k {
      LongestIff(samples, g, k - 1, j);
    }
  }

  /** A random letter is used exactly when the last character was never followed by anything. */
  lemma FallbackIff(samples: seq<string>, order: nat, g: string)
    requires 0 < order <= |g|
    ensures Longest(samples, g, order) == 0 <==> !Observed(samples, [g[|g| - 1]])
  {
    LongestIff(samples, g, order, 1);
    assert Suffix(g, 1) == [g[|g| - 1]];
  }

  /** Nothing follows `c` in the samples: it is seen at the very end of a sample only. */
  lemma DeadEndIff(samples: seq<string>, c: char)
    ensures Observed(samples, [c]) <==>
      exists x, i :: x in samples && 0 <= i < |x| - 1 && x[i] == c
  {
    if Observed(samples, [c]) {
      var d: char :| Total(samples, [c] + [d]) > 0;
      TotalIff(samples, [c] + [d]);
      var x :| x in samples && Occurrences(x, [c] + [d]) > 0;
      var i := FindOccurrence(x, [c] + [d]);
      assert x[i..i + 2][0] == c;
    }
    forall x, i | x in samples && 0 <= i < |x| - 1 && x[i] == c
      ensures Observed(samples, [c])
    {
      PairIsCounted(samples, x, i);
    }
  }

  lemma PairIsCounted(samples: seq<string>, x: string, i: nat)
    requires x in samples && i + 1 < |x|
    ensures Total(samples, [x[i]] + [x[i + 1]]) > 0
  {
    var w := [x[i]] + [x[i + 1]];
    assert x[i..i + 2] == w;
    CountOccurrence(x, w, i);
    TotalIff(samples, w);
  }

  // ---------------------------------------------------------------- generated texts

  lemma NextOfMimic(samples: seq<string>, order: nat, t: string, i: nat)
    requires Mimics(samples, order, t) && order <= i < |t|
    ensures MayFollow(samples, order, t[..i], t[i])
  {
  }

  lemma MimicsSomeSample(samples: seq<string>, order: nat, t: string) returns (x: string)
    requires Mimics(samples, order, t)
    ensures order <= |t| && x in samples && |x| == |t| && t[..order] == x[..order]
  {
    var n :| 0 <= n < |samples| && t[..order] <= samples[n] && |samples[n]| == |t|;
    x := samples[n];
  }

  lemma AfterLastCharacter(samples: seq<string>, order: nat, g: string, c: char)
    requires 0 < order <= |g| && MayFollow(samples, order, g, c)
    ensures var last := g[|g| - 1];
      Total(samples, [last] + [c]) > 0 || (!Observed(samples, [last]) && 'a' <= c <= 'z')
  {
    FallbackIff(samples, order, g);
    var k := Longest(samples, g, order);
    hide Longest, Observed, Total;
    if k > 0 { ShortestContext(samples, g, k, c); }
  }

  /** Every two neighbours in a generated text are neighbours in a sample, except behind a
      character that only ever ends samples. */
  lemma NeighboursAreSampled(samples: seq<string>, order: nat, t: string, i: nat)
    requires Mimics(samples, order, t) && 0 < order && i + 1 < |t|
    ensures Total(samples, [t[i]] + [t[i + 1]]) > 0
         || (!Observed(samples, [t[i]]) && order <= i + 1 && 'a' <= t[i + 1] <= 'z')
  {
    hide *;
    if i + 1 < order {
      var x := MimicsSomeSample(samples, order, t);
      assert x[i] == t[..order][i] && x[i + 1] == t[..order][i + 1];
      PairIsCounted(samples, x, i);
    } else {
      NextOfMimic(samples, order, t, i + 1);
      AfterLastCharacter(samples, order, t[..i + 1], t[i + 1]);
    }
  }

  lemma {:induction false} ShortestContext(samples: seq<string>, g: string, k: nat, c: char)
    requires 0 < k <= |g| && Total(samples, Suffix(g, k) + [c]) > 0
    ensures Total(samples, [g[|g| - 1]] + [c]) > 0
    decreases k
  {
    if k > 1 {
      var w := Suffix(g, k) + [c];
      ShorterContextTotal(samples, w);
      assert w[1..] == Suffix(g, k - 1) + [c];
      ShortestContext(samples, g, k - 1, c);
    } else {
      assert Suffix(g, 1) == [g[|g| - 1]];
    }
  }

  /** No context of full length is followed by two different characters. */
  ghost predicate ContextsAreUnique(samples: seq<string>, order: nat) {
    forall p: string, c: char, d: char ::
      |p| == order && Total(samples, p + [c]) > 0 && Total(samples, p + [d]) > 0 ==> c == d
  }

  lemma WindowIsCounted(samples: seq<string>, x: string, order: nat, i: nat)
    requires x in samples && order <= i < |x|
    ensures Total(samples, Suffix(x[..i], order) + [x[i]]) > 0
  {
    var w := Suffix(x[..i], order) + [x[i]];
    assert x[i - order..i + 1] == w;
    CountOccurrence(x, w, i - order);
    TotalIff(samples, w);
  }

  lemma NextIsForced(samples: seq<string>, order: nat, x: string, i: nat, c: char)
    requires 0 < order && ContextsAreUnique(samples, order) && x in samples && order <= i < |x|
    requires MayFollow(samples, order, x[..i], c)
    ensures c == x[i]
  {
    var g := x[..i];
    WindowIsCounted(samples, x, order, i);
    assert Observed(samples, Suffix(g, order));
    LongestIff(samples, g, order, order);
  }

  lemma OneMore(t: string, x: string, i: nat)
    requires i < |t| && i < |x| && t[..i] == x[..i] && t[i] == x[i]
    ensures t[..i + 1] == x[..i + 1]
  {
  }

  lemma {:induction false} FollowsTheSample(samples: seq<string>, order: nat, t: string, x: string, i: nat)
    requires 0 < order && ContextsAreUnique(samples, order) && Mimics(samples, order, t)
    requires order <= i <= |t| == |x| && x in samples && t[..order] == x[..order]
    ensures t[..i] == x[..i]
    decreases i
  {
    hide *;
    if i > order {
      FollowsTheSample(samples, order, t, x, i - 1);
      NextOfMimic(samples, order, t, i - 1);
      NextIsForced(samples, order, x, i - 1, t[i - 1]);
      OneMore(t, x, i - 1);
    }
  }

  /** Every sample can be generated: in its own contexts it never needs to back off. */
  lemma SamplesCanBeGenerated(samples: seq<string>, order: nat, x: string)
    requires 0 < order < |x| && x in samples
    ensures Mimics(samples, order, x)
  {
    var n :| 0 <= n < |samples| && samples[n] == x;
    assert HasSample(samples, x[..order], |x|);
    forall i | order <= i < |x| ensures MayFollow(samples, order, x[..i], x[i]) {
      WindowIsCounted(samples, x, order, i);
      assert Observed(samples, Suffix(x[..i], order));
      LongestIff(samples, x[..i], order, order);
    }
  }

  /** When every full-length context has one continuation, the generator's texts are exactly
      its samples. */
  lemma UniqueContextsReproduce(samples: seq<string>, order: nat, t: string)
    requires 0 < order && ContextsAreUnique(samples, order)
    requires forall i | 0 <= i < |samples| :: |samples[i]| > order
    ensures Mimics(samples, order, t) <==> t in samples
  {
    hide Mimics, ContextsAreUnique;
    if Mimics(samples, order, t) {
      var x := MimicsSomeSample(samples, order, t);
      FollowsTheSample(samples, order, t, x, |t|);
      assert t[..|t|] == t && x[..|t|] == x;
    }
    if t in samples { SamplesCanBeGenerated(samples, order, t); }
  }
}
