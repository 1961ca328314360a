/** `TextGenerator` of scripts/inject_test_data.py: n-gram counters and a back-off generator. */
module MarkovText {
  import opened Wrappers
  import opened Ngrams

  type Model = map<string, map<char, nat>>

  /** `model` counts what follows each string of `k` characters, in whole samples and in the
      part of one more sample that has been looked at. */
  ghost predicate CountsOf(model: Model, k: nat, samples: seq<string>, part: string) {
    && (forall p: string, c: char ::
          At2(model, p, c) == if |p| == k then Total(samples, p + [c]) + Occurrences(part, p + [c]) else 0)
    && (forall p, c | p in model && c in model[p] :: model[p][c] > 0)
  }

  /** How many samples begin with `start`, and how many of those have this length. */
  function Starting(samples: seq<string>, start: string): nat
    decreases |samples|
  {
    if samples == [] then 0
    else Starting(samples[..|samples| - 1], start) + if start <= samples[|samples| - 1] then 1 else 0
  }

  function StartingLong(samples: seq<string>, start: string, length: nat): nat
    decreases |samples|
  {
    if samples == [] then 0
    else
      StartingLong(samples[..|samples| - 1], start, length)
        + if start <= samples[|samples| - 1] && |samples[|samples| - 1]| == length then 1 else 0
  }

  // ---------------------------------------------------------------- counting

  lemma CountNext(model: Model, k: nat, samples: seq<string>, part: string, p: string, c: char)
    requires CountsOf(model, k, samples, part) && |p| == k && EndsWith(part, p)
    ensures CountsOf(Bump2(model, p, c), k, samples, part + [c])
  {
    var after := Bump2(model, p, c);
    forall q: string, d: char
      ensures At2(after, q, d) == if |q| == k then Total(samples, q + [d]) + Occurrences(part + [c], q + [d]) else 0
    {
      Bump2At(model, p, c, q, d);
      OccurrencesStep(part, c, q + [d]);
      if |q| == k { SameEnding(part, c, p, q, d); }
      assert At2(model, q, d) == if |q| == k then Total(samples, q + [d]) + Occurrences(part, q + [d]) else 0;
    }
  }

  lemma SameEnding(part: string, c: char, p: string, q: string, d: char)
    requires EndsWith(part, p) && |p| == |q|
    ensures EndsWith(part + [c], q + [d]) <==> q == p && d == c
  {
    var s, n := part + [c], |part| - |p|;
    assert s[n..] == part[n..] + [c];
    assert (part[n..] + [c])[|p|] == c && (part[n..] + [c])[..|p|] == p;
    assert (q + [d])[|q|] == d && (q + [d])[..|q|] == q;
  }

  lemma {:induction false} StartingIff(samples: seq<string>, start: string)
    ensures Starting(samples, start) > 0 <==> exists i :: 0 <= i < |samples| && start <= samples[i]
    decreases |samples|
  {
    if samples != [] {
      var front := samples[..|samples| - 1];
      StartingIff(front, start);
      if Starting(front, start) > 0 {
        var i :| 0 <= i < |front| && start <= front[i];
        assert start <= samples[i];
      }
    }
  }

  lemma {:induction false} StartingLongIff(samples: seq<string>, start: string, n: nat)
    ensures StartingLong(samples, start, n) > 0
        <==> exists i :: 0 <= i < |samples| && start <= samples[i] && |samples[i]| == n
    decreases |samples|
  {
    if samples != [] {
      var front := samples[..|samples| - 1];
      StartingLongIff(front, start, n);
      if StartingLong(front, start, n) > 0 {
        var i :| 0 <= i < |front| && start <= front[i] && |front[i]| == n;
        assert start <= samples[i] && |samples[i]| == n;
      }
    }
  }

  ghost predicate StartsOf(starts: map<string, nat>, lengths: map<string, map<nat, nat>>, order: nat,
      samples: seq<string>) {
    && (forall s: string :: At(starts, s) == if |s| == order then Starting(samples, s) else 0)
    && (forall s: string, n: nat :: At2(lengths, s, n) == if |s| == order then StartingLong(samples, s, n) else 0)
  }

  lemma StartingStep(samples: seq<string>, x: string, s: string, n: nat)
    ensures Starting(samples + [x], s) == Starting(samples, s) + if s <= x then 1 else 0
    ensures StartingLong(samples + [x], s, n) == StartingLong(samples, s, n) + if s <= x && |x| == n then 1 else 0
  {
    assert (samples + [x])[..|samples|] == samples;
  }

  lemma StartsNext(starts: map<string, nat>, lengths: map<string, map<nat, nat>>, order: nat, samples: seq<string>,
      x: string)
    requires StartsOf(starts, lengths, order, samples) && |x| >= order
    ensures StartsOf(Bump(starts, x[..order]), Bump2(lengths, x[..order], |x|), order, samples + [x])
  {
    var start := x[..order];
    var starts', lengths' := Bump(starts, start), Bump2(lengths, start, |x|);
    hide Bump, Bump2, Starting, StartingLong, At, At2;
    forall s: string ensures At(starts', s) == if |s| == order then Starting(samples + [x], s) else 0 {
      BumpAt(starts, start, s);
      StartingStep(samples, x, s, 0);
      assert |s| == order ==> (s <= x <==> s == start);
      assert At(starts, s) == if |s| == order then Starting(samples, s) else 0;
    }
    forall s: string, n: nat
      ensures At2(lengths', s, n) == if |s| == order then StartingLong(samples + [x], s, n) else 0
    {
      Bump2At(lengths, start, |x|, s, n);
      StartingStep(samples, x, s, n);
      assert |s| == order ==> (s <= x <==> s == start);
    }
  }

  lemma WholeSample(model: Model, k: nat, samples: seq<string>, x: string)
    requires CountsOf(model, k, samples, x)
    ensures CountsOf(model, k, samples + [x], "")
  {
    forall p: string, c: char
      ensures Total(samples + [x], p + [c]) == Total(samples, p + [c]) + Occurrences(x, p + [c])
    {
      TotalStep(samples, x, p + [c]);
    }
  }

  lemma NoWindowYet(model: Model, k: nat, samples: seq<string>, part: string)
    requires CountsOf(model, k, samples, "") && |part| <= k
    ensures CountsOf(model, k, samples, part)
  {
    forall p: string, c: char | |p| == k ensures Occurrences(part, p + [c]) == Occurrences("", p + [c]) {
      NoRoom(part, p + [c]);
    }
  }

  /** The inner loop of `add_sample`, over the groups of `k + 1` adjacent characters. */
  method CountGroups(model: Model, k: nat, sample: string, ghost samples: seq<string>) returns (counted: Model)
    requires k < |sample| && CountsOf(model, k, samples, "")
    ensures CountsOf(counted, k, samples + [sample], "")
  {
    counted := model;
    NoWindowYet(model, k, samples, sample[..k]);
    hide CountsOf, Bump2;
    for i := 0 to |sample| - k
      invariant CountsOf(counted, k, samples, sample[..i + k])
    {
      var chars := sample[i..i + k + 1];
      var prefix, nextChar := chars[..k], chars[k];
      assert EndsWith(sample[..i + k], prefix);
      CountNext(counted, k, samples, sample[..i + k], prefix, nextChar);
      assert sample[..i + k + 1] == sample[..i + k] + [nextChar];
      counted := Bump2(counted, prefix, nextChar);
    }
    assert sample[..|sample|] == sample;
    WholeSample(counted, k, samples, sample);
  }

  // ---------------------------------------------------------------- generating

  /** Some character has followed `w` in a sample. */
  ghost predicate Observed(samples: seq<string>, w: string) {
    exists c: char :: Total(samples, w + [c]) > 0
  }

  function Suffix(g: string, k: nat): string
    requires k <= |g|
  {
    g[|g| - k..]
  }

  /** The length of the longest observed suffix of `g`, among those of at most `k` characters. */
  ghost function Longest(samples: seq<string>, g: string, k: nat): (n: nat)
    requires k <= |g|
    ensures n <= k
    decreases k
  {
    if k == 0 || Observed(samples, Suffix(g, k)) then k else Longest(samples, g, k - 1)
  }

  /** `c` may be generated after `g`: it has followed the longest observed suffix, and only
      when no suffix has been observed it is any lower-case letter. */
  ghost predicate MayFollow(samples: seq<string>, order: nat, g: string, c: char)
    requires order <= |g|
  {
    var k := Longest(samples, g, order);
    if k > 0 then Total(samples, Suffix(g, k) + [c]) > 0 else 'a' <= c <= 'z'
  }

  /** `t` starts like a sample, is as long as that sample, and goes on as the counters allow. */
  ghost predicate Mimics(samples: seq<string>, order: nat, t: string) {
    && order <= |t|
    && HasSample(samples, t[..order], |t|)
    && forall i | order <= i < |t| :: MayFollow(samples, order, t[..i], t[i])
  }

  /** `weighted_lottery`: some key of positive weight; None stands for the ValueError raised
      when there is none. */
  method WeightedLottery<K(!new)>(weights: map<K, nat>) returns (key: Option<K>)
    ensures key.Some? ==> At(weights, key.value) > 0
    ensures key == None ==> forall k | k in weights :: weights[k] == 0
  {
    if exists k :: k in weights && weights[k] > 0 {
      var k :| k in weights && weights[k] > 0;
      return Some(k);
    }
    return None;
  }

  /** Reading a `defaultdict` inserts an empty counter for a missing key. */
  function Touch(model: Model, p: string): Model {
    if p in model then model else model[p := map[]]
  }

  lemma TouchCountsNothing(model: Model, k: nat, samples: seq<string>, p: string)
    requires CountsOf(model, k, samples, "")
    ensures CountsOf(Touch(model, p), k, samples, "")
  {
    assert forall q: string, c: char :: At2(Touch(model, p), q, c) == At2(model, q, c);
  }

  /** Trying the orders one by one, from the highest down. */
  lemma NotObserved(samples: seq<string>, g: string, k: nat)
    requires 0 < k <= |g| && !Observed(samples, Suffix(g, k))
    ensures Longest(samples, g, k) == Longest(samples, g, k - 1)
  {
  }

  lemma FoundLongest(samples: seq<string>, order: nat, g: string, k: nat, c: char)
    requires k <= order <= |g| && Longest(samples, g, order) == Longest(samples, g, k)
    requires k > 0 ==> Observed(samples, Suffix(g, k)) && Total(samples, Suffix(g, k) + [c]) > 0
    requires k == 0 ==> 'a' <= c <= 'z'
    ensures MayFollow(samples, order, g, c)
  {
  }

  lemma TouchHas(model: Model, p: string)
    ensures p in Touch(model, p)
  {
  }

  /** The counter of a context is empty exactly if the context has not been observed. */
  lemma EmptyIff(model: Model, k: nat, samples: seq<string>, p: string)
    requires CountsOf(model, k, samples, "") && |p| == k && p in model
    ensures model[p] != map[] <==> Observed(samples, p)
    ensures model[p] != map[] <==> exists c :: At(model[p], c) > 0
    ensures forall c :: At(model[p], c) == Total(samples, p + [c])
  {
    assert forall c :: At(model[p], c) == At2(model, p, c);
    if model[p] != map[] {
      var c :| c in model[p];
      assert At(model[p], c) > 0;
    }
    if Observed(samples, p) {
      var c :| Total(samples, p + [c]) > 0;
      assert At(model[p], c) > 0;
    }
  }

  ghost predicate HasSample(samples: seq<string>, start: string, length: nat) {
    exists i :: 0 <= i < |samples| && start <= samples[i] && |samples[i]| == length
  }

  lemma DrawnStart(starts: map<string, nat>, lengths: map<string, map<nat, nat>>, order: nat, samples: seq<string>,
      s: string)
    returns (n: nat)
    requires StartsOf(starts, lengths, order, samples) && At(starts, s) > 0
    ensures |s| == order && s in lengths && At(lengths[s], n) > 0
  {
    StartingIff(samples, s);
    var i :| 0 <= i < |samples| && s <= samples[i];
    StartingLongIff(samples, s, |samples[i]|);
    n := |samples[i]|;
    assert At2(lengths, s, n) > 0;
  }

  lemma DrawnLength(starts: map<string, nat>, lengths: map<string, map<nat, nat>>, order: nat, samples: seq<string>,
                    s: string, n: nat)
    requires StartsOf(starts, lengths, order, samples) && s in lengths && At(lengths[s], n) > 0
    ensures HasSample(samples, s, n)
  {
    assert At2(lengths, s, n) > 0;
    StartingLongIff(samples, s, n);
  }

  lemma LongerThanOrder(samples: seq<string>, order: nat, start: string, length: nat)
    requires HasSample(samples, start, length) && forall i | 0 <= i < |samples| :: |samples[i]| > order
    ensures length > order
  {
  }

  lemma NoStarts(starts: map<string, nat>, lengths: map<string, map<nat, nat>>, order: nat, samples: seq<string>)
    requires StartsOf(starts, lengths, order, samples) && forall i | 0 <= i < |samples| :: |samples[i]| > order
    ensures (forall s :: At(starts, s) == 0) <==> samples == []
  {
    if samples != [] {
      var s := samples[0][..order];
      StartingIff(samples, s);
      assert At(starts, s) > 0;
    }
  }

  /** The counters of an order are determined by the samples. */
  lemma CountsAgree(a: Model, b: Model, k: nat, samples: seq<string>)
    requires CountsOf(a, k, samples, "") && CountsOf(b, k, samples, "")
    ensures forall p: string, c: char :: At2(a, p, c) == At2(b, p, c)
  {
  }

  /** The outer loop of `add_sample`, over the orders. */
  method CountOrders(models: seq<Model>, sample: string, ghost samples: seq<string>) returns (counted: seq<Model>)
    requires |models| < |sample| && forall k | 0 <= k < |models| :: CountsOf(models[k], k + 1, samples, "")
    ensures |counted| == |models|
    ensures forall k | 0 <= k < |models| :: CountsOf(counted[k], k + 1, samples + [sample], "")
  {
    hide CountsOf;
    counted := [];
    for k := 0 to |models|
      invariant |counted| == k && forall j | 0 <= j < k :: CountsOf(counted[j], j + 1, samples + [sample], "")
    {
      var model := CountGroups(models[k], k + 1, sample, samples);
      counted := counted + [model];
    }
  }

  // ---------------------------------------------------------------- the class

  class TextGenerator {
    const order: nat
    var starts: map<string, nat>
    var startLengths: map<string, map<nat, nat>>
    var models: seq<Model>
    /** The samples added so far, without those that were too short. */
    ghost var samples: seq<string>

    ghost predicate Valid()
      reads this
    {
      && |models| == order
      && (forall i | 0 <= i < |samples| :: |samples[i]| > order)
      && StartsOf(starts, startLengths, order, samples)
      && forall k | 0 <= k < order :: CountsOf(models[k], k + 1, samples, "")
    }

    constructor (order: nat)
      ensures Valid() && this.order == order && samples == []
    {
      this.order := order;
      starts, startLengths, models, samples := map[], map[], seq(order, _ => map[]), [];
    }

    /** `add_sample`. */
    method AddSample(sample: string)
      requires Valid()
      modifies this
      ensures Valid()
      ensures samples == if |sample| <= order then old(samples) else old(samples) + [sample]
      ensures |sample| <= order ==>
        starts == old(starts) && startLengths == old(startLengths) && models == old(models)
    {
      if |sample| <= order {
        return;
      }
      hide CountsOf, StartsOf, Bump, Bump2;
      var start := sample[..order];
      StartsNext(starts, startLengths, order, samples, sample);
      starts := Bump(starts, start);
      startLengths := Bump2(startLengths, start, |sample|);
      models := CountOrders(models, sample, samples);
      samples := samples + [sample];
    }

    /** One round of `generate`: the models are tried from the highest order down. */
    method NextChar(generated: string) returns (c: char)
      requires Valid() && order <= |generated|
      modifies this`models
      ensures Valid() && MayFollow(samples, order, generated, c)
    {
      hide CountsOf, StartsOf, Observed, Touch, Longest, MayFollow, Total;
      var k := order;
      while k > 0
        invariant 0 <= k <= order && Valid()
        invariant Longest(samples, generated, order) == Longest(samples, generated, k)
      {
        var prefix := Suffix(generated, k);
        TouchCountsNothing(models[k - 1], k, samples, prefix);
        TouchHas(models[k - 1], prefix);
        models := models[k - 1 := Touch(models[k - 1], prefix)];
        EmptyIff(models[k - 1], k, samples, prefix);
        var frequencies := models[k - 1][prefix];
        if frequencies != map[] {
          var choice := WeightedLottery(frequencies);
          FoundLongest(samples, order, generated, k, choice.value);
          return choice.value;
        }
        NotObserved(samples, generated, k);
        k := k - 1;
      }
      c :| 'a' <= c <= 'z' by { assert 'a' <= 'q' <= 'z'; }
      FoundLongest(samples, order, generated, 0, c);
    }

    /** `generate`; None stands for the ValueError of drawing from no samples. */
    method Generate() returns (text: Option<string>)
      requires Valid()
      modifies this`models
      ensures Valid()
      ensures text == None <==> samples == []
      ensures text.Some? ==> Mimics(samples, order, text.value)
      ensures forall k | 0 <= k < order ::
        forall p: string, c: char :: At2(models[k], p, c) == At2(old(models)[k], p, c)
    {
      hide CountsOf, StartsOf, MayFollow, HasSample;
      ghost var before := models;
      NoStarts(starts, startLengths, order, samples);
      var start := WeightedLottery(starts);
      if start == None {
        return None;
      }
      ghost var n := DrawnStart(starts, startLengths, order, samples, start.value);
      assert At(startLengths[start.value], n) > 0;
      var drawn := WeightedLottery(startLengths[start.value]);
      DrawnLength(starts, startLengths, order, samples, start.value, drawn.value);
      var desiredLength := if drawn.value > order then drawn.value else order;
      assert desiredLength == drawn.value by { LongerThanOrder(samples, order, start.value, drawn.value); }
      var generated := start.value;
      while |generated| < desiredLength
        invariant Valid() && order <= |generated| <= desiredLength
        invariant generated[..order] == start.value
        invariant forall i | order <= i < |generated| :: MayFollow(samples, order, generated[..i], generated[i])
      {
        var c := NextChar(generated);
        var longer := generated + [c];
        forall i | order <= i < |longer| ensures MayFollow(samples, order, longer[..i], longer[i]) {
          assert longer[..i] == generated[..i];
        }
        generated := longer;
      }
      forall k | 0 <= k < order ensures forall p: string, c: char :: At2(models[k], p, c) == At2(before[k], p, c) {
        CountsAgree(models[k], before[k], k + 1, samples);
      }
      return Some(generated);
    }
  }
}
