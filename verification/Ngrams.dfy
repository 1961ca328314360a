/** Counters, and how often a string occurs in others. */
module Ngrams {

  /** A `Counter`, and a `defaultdict(Counter)`: missing keys count zero. */
  function At<K>(m: map<K, nat>, k: K): nat {
    if k in m then m[k] else 0
  }

  function At2<K, V>(m: map<K, map<V, nat>>, k: K, v: V): nat {
    if k in m then At(m[k], v) else 0
  }

  function Bump<K>(m: map<K, nat>, k: K): map<K, nat> {
    m[k := At(m, k) + 1]
  }

  function Bump2<K, V>(m: map<K, map<V, nat>>, k: K, v: V): map<K, map<V, nat>> {
    m[k := Bump(if k in m then m[k] else map[], v)]
  }

  lemma BumpAt<K>(m: map<K, nat>, k: K, j: K)
    ensures At(Bump(m, k), j) == At(m, j) + if j == k then 1 else 0
  {
  }

  lemma Bump2At<K, V>(m: map<K, map<V, nat>>, k: K, v: V, j: K, u: V)
    ensures At2(Bump2(m, k, v), j, u) == At2(m, j, u) + if j == k && u == v then 1 else 0
  {
  }

  // ---------------------------------------------------------------- occurrences

  predicate StandsAt(s: string, w: string, i: int) {
    0 <= i && i + |w| <= |s| && s[i..i + |w|] == w
  }

  predicate EndsWith(s: string, w: string) {
    StandsAt(s, w, |s| - |w|)
  }

  /** How many times `w` occurs in `s`, overlapping occurrences included. */
  function Occurrences(s: string, w: string): nat
    decreases |s|
  {
    if s == "" then 0 else Occurrences(s[..|s| - 1], w) + if EndsWith(s, w) then 1 else 0
  }

  function Total(samples: seq<string>, w: string): nat
    decreases |samples|
  {
    if samples == [] then 0 else Total(samples[..|samples| - 1], w) + Occurrences(samples[|samples| - 1], w)
  }

  lemma OccurrencesStep(s: string, c: char, w: string)
    ensures Occurrences(s + [c], w) == Occurrences(s, w) + if EndsWith(s + [c], w) then 1 else 0
  {
    assert (s + [c])[..|s|] == s;
  }

  lemma {:induction false} NoRoom(s: string, w: string)
    requires |s| < |w|
    ensures Occurrences(s, w) == 0
    decreases |s|
  {
    if s != "" { NoRoom(s[..|s| - 1], w); }
  }

  lemma TotalStep(samples: seq<string>, s: string, w: string)
    ensures Total(samples + [s], w) == Total(samples, w) + Occurrences(s, w)
  {
    assert (samples + [s])[..|samples|] == samples;
  }

  lemma StandsInFront(s: string, w: string, i: int)
    requires s != "" && i + |w| < |s|
    ensures StandsAt(s[..|s| - 1], w, i) <==> StandsAt(s, w, i)
  {
    if i >= 0 { assert s[..|s| - 1][i..i + |w|] == s[i..i + |w|]; }
  }

  lemma {:induction false} FindOccurrence(s: string, w: string) returns (i: int)
    requires Occurrences(s, w) > 0
    ensures StandsAt(s, w, i)
    decreases |s|
  {
    if EndsWith(s, w) {
      i := |s| - |w|;
    } else {
      i := FindOccurrence(s[..|s| - 1], w);
      StandsInFront(s, w, i);
    }
  }

  lemma {:induction false} CountOccurrence(s: string, w: string, i: int)
    requires w != "" && StandsAt(s, w, i)
    ensures Occurrences(s, w) > 0
    decreases |s|
  {
    if i + |w| < |s| {
      StandsInFront(s, w, i);
      CountOccurrence(s[..|s| - 1], w, i);
    }
  }

  function Places(s: string, w: string): set<int> {
    set i | 0 <= i <= |s| && StandsAt(s, w, i)
  }

  /** Counting window by window is the same as counting the places where the string stands. */
  lemma {:induction false} OccurrencesArePlaces(s: string, w: string)
    requires w != ""
    ensures Occurrences(s, w) == |Places(s, w)|
    decreases |s|
  {
    if s == "" {
      assert Places(s, w) == {};
    } else {
      var front, at := s[..|s| - 1], |s| - |w|;
      OccurrencesArePlaces(front, w);
      forall i | 0 <= i <= |s| && i != at ensures i in Places(s, w) <==> i in Places(front, w) {
        if i + |w| < |s| { StandsInFront(s, w, i); }
      }
      assert Places(s, w) == Places(front, w) + if EndsWith(s, w) then {at} else {};
    }
  }

  /** What was seen in a longer context was seen in the shorter one at least as often. */
  lemma {:induction false} ShorterContext(s: string, w: string)
    requires |w| >= 2
    ensures Occurrences(s, w) <= Occurrences(s, w[1..])
    decreases |s|
  {
    if s != "" {
      ShorterContext(s[..|s| - 1], w);
      if EndsWith(s, w) {
        assert s[|s| - |w| + 1..|s|] == s[|s| - |w|..|s|][1..];
      }
    }
  }

  lemma {:induction false} ShorterContextTotal(samples: seq<string>, w: string)
    requires |w| >= 2
    ensures Total(samples, w) <= Total(samples, w[1..])
    decreases |samples|
  {
    if samples != [] {
      ShorterContextTotal(samples[..|samples| - 1], w);
      ShorterContext(samples[|samples| - 1], w);
    }
  }

  lemma {:induction false} TotalIff(samples: seq<string>, w: string)
    ensures Total(samples, w) > 0 <==> exists x :: x in samples && Occurrences(x, w) > 0
    decreases |samples|
  {
    if samples != [] {
      var front, last := samples[..|samples| - 1], samples[|samples| - 1];
      assert samples == front + [last];
      TotalIff(front, w);
      if Total(front, w) > 0 {
        var x :| x in front && Occurrences(x, w) > 0;
        assert x in samples;
      } else if Occurrences(last, w) > 0 {
        assert last in samples;
      }
    }
  }
}
