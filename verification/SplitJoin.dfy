/** Python's `sep.join(pieces)` and `s.split(sep)` for a one-element separator. */
module SplitJoin {

  function Split<T(==)>(s: seq<T>, sep: T): (pieces: seq<seq<T>>)
    ensures |pieces| >= 1
    decreases |s|
  {
    if s == [] then [[]] else Prepend(s[0], Split(s[1..], sep), sep)
  }

  /** What one more element in front does to the pieces. */
  function Prepend<T(==)>(x: T, pieces: seq<seq<T>>, sep: T): (r: seq<seq<T>>)
    requires |pieces| >= 1
    ensures |r| >= 1
  {
    if x == sep then [[]] + pieces else [[x] + pieces[0]] + pieces[1..]
  }

  function Join<T>(pieces: seq<seq<T>>, sep: T): seq<T>
    decreases |pieces|
  {
    if pieces == [] then []
    else if |pieces| == 1 then pieces[0]
    else pieces[0] + [sep] + Join(pieces[1..], sep)
  }

  lemma SplitPrepend<T>(x: T, s: seq<T>, sep: T)
    ensures Split([x] + s, sep) == Prepend(x, Split(s, sep), sep)
  {
    assert ([x] + s)[1..] == s;
  }

  lemma PrependAppend<T>(x: T, pieces: seq<seq<T>>, more: seq<seq<T>>, sep: T)
    requires |pieces| >= 1
    ensures Prepend(x, pieces + more, sep) == Prepend(x, pieces, sep) + more
  {
  }

  lemma JoinStep<T>(first: seq<T>, rest: seq<seq<T>>, sep: T)
    requires |rest| >= 1
    ensures Join([first] + rest, sep) == first + [sep] + Join(rest, sep)
  {
    assert ([first] + rest)[1..] == rest;
  }

  lemma JoinOfLongerFirst<T>(x: T, first: seq<T>, rest: seq<seq<T>>, sep: T)
    ensures Join([[x] + first] + rest, sep) == [x] + Join([first] + rest, sep)
  {
    if rest != [] {
      JoinStep([x] + first, rest, sep);
      JoinStep(first, rest, sep);
      hide Join;
      var tail := [sep] + Join(rest, sep);
      assert ([x] + first) + tail == [x] + (first + tail);
      assert first + [sep] + Join(rest, sep) == first + tail;
      assert ([x] + first) + [sep] + Join(rest, sep) == ([x] + first) + tail;
    }
  }

  lemma JoinOfPrepend<T>(x: T, pieces: seq<seq<T>>, sep: T)
    requires |pieces| >= 1
    ensures Join(Prepend(x, pieces, sep), sep) == [x] + Join(pieces, sep)
  {
    hide Join;
    if x == sep {
      JoinStep([], pieces, sep);
      assert [] + [sep] == [sep];
    } else {
      JoinOfLongerFirst(x, pieces[0], pieces[1..], sep);
      assert pieces == [pieces[0]] + pieces[1..];
    }
  }

  /** Joining the pieces gives the text back, and no piece contains the separator. */
  lemma {:induction false} JoinOfSplit<T>(s: seq<T>, sep: T)
    ensures Join(Split(s, sep), sep) == s
    ensures forall i | 0 <= i < |Split(s, sep)| :: sep !in Split(s, sep)[i]
    decreases |s|
  {
    if s != [] {
      JoinOfSplit(s[1..], sep);
      JoinOfPrepend(s[0], Split(s[1..], sep), sep);
      assert [s[0]] + s[1..] == s;
    }
  }

  lemma {:induction false} SplitWithoutSeparator<T>(s: seq<T>, sep: T)
    requires sep !in s
    ensures Split(s, sep) == [s]
    decreases |s|
  {
    if s != [] {
      SplitWithoutSeparator(s[1..], sep);
      assert [s[0]] + s[1..] == s;
    }
  }

  lemma {:induction false} SplitAcross<T>(a: seq<T>, b: seq<T>, sep: T)
    ensures Split(a + [sep] + b, sep) == Split(a, sep) + Split(b, sep)
    decreases |a|
  {
    if a == [] {
      SplitPrepend(sep, b, sep);
      assert a + [sep] + b == [sep] + b;
    } else {
      var x, rest := a[0], a[1..];
      SplitAcross(rest, b, sep);
      SplitPrepend(x, rest + [sep] + b, sep);
      SplitPrepend(x, rest, sep);
      PrependAppend(x, Split(rest, sep), Split(b, sep), sep);
      assert a == [x] + rest && a + [sep] + b == [x] + (rest + [sep] + b);
    }
  }

  /** Splitting undoes joining when no piece contains the separator. */
  lemma {:induction false} SplitOfJoin<T>(pieces: seq<seq<T>>, sep: T)
    requires |pieces| >= 1 && forall i | 0 <= i < |pieces| :: sep !in pieces[i]
    ensures Split(Join(pieces, sep), sep) == pieces
    decreases |pieces|
  {
    SplitWithoutSeparator(pieces[0], sep);
    if |pieces| > 1 {
      SplitOfJoin(pieces[1..], sep);
      SplitAcross(pieces[0], Join(pieces[1..], sep), sep);
      assert [pieces[0]] + pieces[1..] == pieces;
    } else {
      assert pieces == [pieces[0]];
    }
  }

  lemma {:induction false} OnePieceIffNoSeparator<T>(s: seq<T>, sep: T)
    ensures |Split(s, sep)| == 1 <==> sep !in s
    decreases |s|
  {
    if s != [] { OnePieceIffNoSeparator(s[1..], sep); }
  }

  lemma {:induction false} JoinOfLast<T>(pieces: seq<seq<T>>, last: seq<T>, sep: T)
    requires |pieces| >= 1
    ensures Join(pieces + [last], sep) == Join(pieces, sep) + [sep] + last
    decreases |pieces|
  {
    var all := pieces + [last];
    assert all[1..] == pieces[1..] + [last];
    if |pieces| > 1 {
      JoinOfLast(pieces[1..], last, sep);
    } else {
      assert all[1..] == [last];
    }
  }

  lemma JoinTwo<T>(a: seq<T>, b: seq<T>, sep: T)
    ensures Join([a, b], sep) == a + [sep] + b
  {
    assert [a, b][1..] == [b];
  }

  /** Every element of a piece comes from the text. */
  lemma {:induction false} PiecesComeFromText<T>(s: seq<T>, sep: T, i: nat, x: T)
    requires i < |Split(s, sep)| && x in Split(s, sep)[i]
    ensures x in s
    decreases |s|
  {
    if s != [] {
      var rest := Split(s[1..], sep);
      if s[0] == sep {
        if i > 0 { PiecesComeFromText(s[1..], sep, i - 1, x); }
      } else if i > 0 || x in rest[0] {
        PiecesComeFromText(s[1..], sep, i, x);
      }
    }
  }

  lemma {:induction false} JoinComesFromPieces<T>(pieces: seq<seq<T>>, sep: T, x: T)
    requires x in Join(pieces, sep)
    ensures x == sep || exists i :: 0 <= i < |pieces| && x in pieces[i]
    decreases |pieces|
  {
    if |pieces| > 1 && x !in pieces[0] && x != sep {
      JoinComesFromPieces(pieces[1..], sep, x);
      var i :| 0 <= i < |pieces[1..]| && x in pieces[1..][i];
      assert x in pieces[i + 1];
    }
  }
}
