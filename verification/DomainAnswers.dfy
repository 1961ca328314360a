/** What `DomainMiddleware` answers, in terms of the labels of the host and of the settings. */
module DomainAnswers {
  import opened Wrappers
  import opened SplitJoin
  import opened DomainMiddleware
  import opened DomainRedirect

  // ---------------------------------------------------------------- the kinds of labels

  predicate HasExtension(g: Settings, name: string) {
    name !in g.reserved && name in g.extensions && g.extensions[name] != ""
  }

  predicate IsLanguageLabel(g: Settings, name: string) {
    name !in g.reserved && !HasExtension(g, name) && IsLanguage(name)
  }

  predicate NamesSubreddit(g: Settings, name: string) {
    name !in g.reserved && !HasExtension(g, name) && !IsLanguage(name)
  }

  lemma Kinds(g: Settings, name: string)
    ensures Classify(g, name) == Extension <==> HasExtension(g, name)
    ensures Classify(g, name) == Language <==> IsLanguageLabel(g, name)
    ensures Classify(g, name) == Subreddit <==> NamesSubreddit(g, name)
    ensures Classify(g, name) == Prefix <==> name in g.reserved && name !in g.ignored
  {
  }

  /** A language is one or two pieces of two word characters, with a dash in between. */
  lemma LanguageIff(name: string)
    ensures IsLanguage(name) <==>
      && 1 <= |Split(name, '-')| <= 2
      && forall piece | piece in Split(name, '-') ::
           |piece| == 2 && IsWordChar(piece[0]) && IsWordChar(piece[1])
  {
    var pieces := Split(name, '-');
    JoinOfSplit(name, '-');
    if IsLanguage(name) {
      if |name| == 2 {
        SplitWithoutSeparator(name, '-');
      } else {
        SplitAcross(name[..2], name[3..], '-');
        SplitWithoutSeparator(name[..2], '-');
        SplitWithoutSeparator(name[3..], '-');
        assert name == name[..2] + ['-'] + name[3..];
      }
    } else if |pieces| == 2 {
      assert pieces == [pieces[0], pieces[1]];
      JoinTwo(pieces[0], pieces[1], '-');
      assert pieces[0] in pieces && pieces[1] in pieces;
    } else if |pieces| == 1 {
      assert pieces[0] in pieces && pieces == [pieces[0]];
    }
  }

  /** The last of the labels that is of this kind is number `i`. */
  predicate IsLast(g: Settings, labels: seq<string>, kind: Kind, i: int) {
    && 0 <= i < |labels| && Classify(g, labels[i]) == kind
    && forall j | i < j < |labels| :: Classify(g, labels[j]) != kind
  }

  lemma {:induction false} LastOfIff(g: Settings, labels: seq<string>, kind: Kind)
    ensures LastOf(g, labels, kind) == None <==> forall i | 0 <= i < |labels| :: Classify(g, labels[i]) != kind
    ensures forall i :: IsLast(g, labels, kind, i) ==> LastOf(g, labels, kind) == Some(labels[i])
    decreases |labels|
  {
    hide Classify;
    if labels != [] {
      var front, last := labels[..|labels| - 1], labels[|labels| - 1];
      assert labels == front + [last];
      LastOfIff(g, front, kind);
      LastOfStep(g, front, last, kind);
      forall i | IsLast(g, labels, kind, i) ensures LastOf(g, labels, kind) == Some(labels[i]) {
        if i < |front| { assert IsLast(g, front, kind, i) by { LastInFront(g, labels, kind, i); } }
      }
    }
  }

  lemma LastInFront(g: Settings, labels: seq<string>, kind: Kind, i: int)
    requires IsLast(g, labels, kind, i) && i < |labels| - 1
    ensures IsLast(g, labels[..|labels| - 1], kind, i)
  {
    hide Classify;
  }

  // ---------------------------------------------------------------- which host is asked for

  /** Only the letters A to Z are changed, to those 32 places later. */
  lemma {:induction false} LowerAt(s: string, i: nat)
    requires i < |s|
    ensures |Lower(s)| == |s|
    ensures Lower(s)[i] as int == s[i] as int + if 'A' <= s[i] <= 'Z' then 32 else 0
    decreases |s|
  {
    LowerIsLower(s);
    if i > 0 { LowerAt(s[1..], i - 1); }
  }

  /** Case and port do not matter; without a host the request is local. */
  lemma HostNameOf(vars: Vars, name: string, port: string)
    requires ':' !in name
    ensures vars.host == Some(name) || vars.host == Some(name + ":" + port) ==> HostName(vars) == Lower(name)
    ensures vars.host == None ==> HostName(vars) == "localhost"
  {
    if vars.host == None {
      LowerKeepsLower("localhost");
      BeforeIsWhole("localhost", ':');
    } else if vars.host == Some(name) || vars.host == Some(name + ":" + port) {
      HostGiven(vars, name, port);
    }
  }

  lemma HostGiven(vars: Vars, name: string, port: string)
    requires vars.host.Some? && ':' !in name && (vars.host.value == name || vars.host.value == name + ":" + port)
    ensures HostName(vars) == Lower(name)
  {
    LowerAddsNoPunctuation(name, ':');
    if vars.host.value == name {
      BeforeIsWhole(Lower(name), ':');
    } else {
      LowerAppend(name + ":", port);
      LowerAppend(name, ":");
      LowerKeepsLower(":");
      SplitAcross(Lower(name), Lower(port), ':');
      SplitWithoutSeparator(Lower(name), ':');
    }
  }

  /** The name is the base, or something in front of it. */
  ghost predicate Within(name: string, base: string) {
    name == base || exists front: string :: name == front + "." + base
  }

  lemma WithinIff(name: string, base: string)
    ensures IsSubdomain(name, base) <==> Within(name, base)
  {
    if EndsWith(name, "." + base) {
      var front := name[..|name| - |base| - 1];
      assert name == front + ("." + base) == front + "." + base;
    }
    forall front: string | name == front + "." + base ensures EndsWith(name, "." + base) {
      assert name == front + ("." + base);
    }
  }

  /** Local and media hosts are passed on untouched, foreign ones with their name noted. */
  lemma OtherHosts(g: Settings, vars: Vars)
    ensures var host := HostName(vars);
      var untouched := host == "localhost" || (Within(host, g.mediaDomain) && g.domain != g.mediaDomain);
      && (untouched ==> Answer(g, vars) == PassOn && VarsAfter(g, vars) == vars)
      && (!untouched && !Within(host, g.domain) ==>
            Answer(g, vars) == PassOn && VarsAfter(g, vars) == vars.(legacyCname := Some(host)))
  {
    WithinIff(HostName(vars), g.mediaDomain);
    WithinIff(HostName(vars), g.domain);
    hide IsSubdomain, Within, HostName, Labels, WithPrefix, Marked, Of;
  }

  /** The host asked for is these labels in front of the site's domain. */
  ghost predicate AsksFor(g: Settings, vars: Vars, labels: seq<string>) {
    && labels != [] && (forall l | l in labels :: '.' !in l)
    && HostName(vars) == Join(labels + [g.domain], '.')
    && HostName(vars) != "localhost" && !(Within(HostName(vars), g.mediaDomain) && g.domain != g.mediaDomain)
  }

  lemma LabelsAskedFor(g: Settings, vars: Vars, labels: seq<string>)
    requires AsksFor(g, vars, labels)
    ensures Labels(g, HostName(vars)) == labels && IsOurs(g, HostName(vars))
  {
    WithinIff(HostName(vars), g.mediaDomain);
    JoinOfLast(labels, g.domain, '.');
    NameInFront(Join(labels, '.'), g.domain);
    SplitOfJoin(labels, '.');
    hide Join, Split, Within;
  }

  // ---------------------------------------------------------------- the answer

  predicate LastNamesSubreddit(g: Settings, labels: seq<string>, i: int) {
    && 0 <= i < |labels| && NamesSubreddit(g, labels[i])
    && forall j | i < j < |labels| :: !NamesSubreddit(g, labels[j])
  }

  lemma LastSubreddit(g: Settings, labels: seq<string>)
    ensures forall i :: LastNamesSubreddit(g, labels, i) ==> SubredditOf(g, labels) == labels[i]
    ensures (forall i | 0 <= i < |labels| :: !NamesSubreddit(g, labels[i])) ==> SubredditOf(g, labels) == ""
  {
    LastOfIff(g, labels, Subreddit);
    forall i | 0 <= i < |labels|
      ensures Classify(g, labels[i]) == Subreddit <==> NamesSubreddit(g, labels[i])
    {
      Kinds(g, labels[i]);
    }
    hide Classify, NamesSubreddit, LastOf;
    forall i | LastNamesSubreddit(g, labels, i) ensures IsLast(g, labels, Subreddit, i) {
    }
  }

  /** A request for these labels is redirected if and only if the last label that names a
      subreddit is not empty, and there is a path. */
  lemma RedirectedIff(g: Settings, vars: Vars, labels: seq<string>, i: int)
    requires AsksFor(g, vars, labels)
    requires LastNamesSubreddit(g, labels, i) || forall j | 0 <= j < |labels| :: !NamesSubreddit(g, labels[j])
    ensures Answer(g, vars).Redirect? <==>
      LastNamesSubreddit(g, labels, i) && labels[i] != "" && vars.fullPath.Some? && vars.fullPath.value != ""
  {
    LabelsAskedFor(g, vars, labels);
    LastSubreddit(g, labels);
    hide AsksFor, Labels, HostName, IsOurs, SubredditOf, NamesSubreddit, Kept, RedirectHost, Location;
  }

  // ---------------------------------------------------------------- the Location header

  predicate NoDoubleSlash(s: string) {
    forall i | 0 <= i < |s| - 1 :: !(s[i] == '/' && s[i + 1] == '/')
  }

  lemma {:induction false} NothingToCollapse(s: string)
    requires NoDoubleSlash(s)
    ensures Collapse(s) == s
    decreases |s|
  {
    if |s| >= 2 {
      assert NoDoubleSlash(s[1..]) by { assert forall i | 0 <= i < |s| - 1 :: s[1..][i] == s[i + 1]; }
      NothingToCollapse(s[1..]);
    }
  }

  lemma CollapseChar(c: char, rest: string)
    requires c != '/'
    ensures Collapse([c] + rest) == [c] + Collapse(rest)
  {
    assert ([c] + rest)[1..] == rest;
  }

  lemma {:induction false} CollapseBehind(front: string, rest: string)
    requires '/' !in front
    ensures Collapse(front + rest) == front + Collapse(rest)
    decreases |front|
  {
    hide Collapse;
    if front == "" {
      assert front + rest == rest && front + Collapse(rest) == Collapse(rest);
    } else {
      var c, more := front[0], front[1..];
      assert front == [c] + more && front + rest == [c] + (more + rest);
      CollapseBehind(more, rest);
      CollapseChar(c, more + rest);
      assert [c] + (more + Collapse(rest)) == front + Collapse(rest);
    }
  }

  lemma CollapseSlashes(rest: string)
    ensures rest != "" && rest[0] != '/' ==> Collapse("/" + rest) == "/" + Collapse(rest)
    ensures Collapse("//" + rest) == "/" + Collapse(rest)
  {
    assert ("/" + rest)[1..] == rest && ("//" + rest)[2..] == rest;
  }

  /** A piece and a single slash stay as they are. */
  lemma CollapsePiece(piece: string, rest: string)
    requires '/' !in piece && rest != "" && rest[0] != '/'
    ensures Collapse(piece + "/" + rest) == piece + "/" + Collapse(rest)
  {
    hide Collapse;
    CollapseSlashes(rest);
    CollapseBehind(piece, "/" + rest);
    assert piece + "/" + rest == piece + ("/" + rest);
    assert piece + "/" + Collapse(rest) == piece + ("/" + Collapse(rest));
  }

  lemma CollapseBeforePath(piece: string, rest: string)
    requires '/' !in piece && NoDoubleSlash(rest)
    ensures Collapse(piece + "/" + ("/" + rest)) == piece + "/" + rest
  {
    hide Collapse;
    NothingToCollapse(rest);
    CollapseSlashes(rest);
    CollapseBehind(piece, "//" + rest);
    assert piece + "/" + ("/" + rest) == piece + ("//" + rest);
    assert piece + "/" + rest == piece + ("/" + rest);
  }

  lemma SplitFirst(piece: string, rest: string)
    requires '/' !in piece
    ensures Split(piece + "/" + rest, '/') == [piece] + Split(rest, '/')
  {
    SplitAcross(piece, rest, '/');
    SplitWithoutSeparator(piece, '/');
  }

  predicate IsPiece(s: string) { s != "" && '/' !in s }

  lemma CollapsedLocation(g: Settings, host: string, subreddit: string, rest: string)
    requires IsPiece(host) && IsPiece(g.communityAbbr) && IsPiece(subreddit) && NoDoubleSlash(rest)
    ensures Location(g, host, subreddit, "/" + rest)
         == g.scheme + "://" + (host + "/" + (g.communityAbbr + "/" + (subreddit + "/" + rest)))
  {
    var inner := subreddit + "/" + ("/" + rest);
    CollapseBeforePath(subreddit, rest);
    CollapsePiece(g.communityAbbr, inner);
    CollapsePiece(host, g.communityAbbr + "/" + inner);
    hide Collapse;
    assert g.communityAbbr + "/" + subreddit + "/" + ("/" + rest) == g.communityAbbr + "/" + inner;
  }

  lemma Three(a: string, b: string, c: string, rest: seq<string>)
    ensures [a] + ([b] + ([c] + rest)) == [a, b, c] + rest
  {
  }

  lemma TailPieces(a: string, b: string, c: string, rest: string)
    requires '/' !in a && '/' !in b && '/' !in c
    ensures Split(a + "/" + (b + "/" + (c + "/" + rest)), '/') == [a, b, c] + Split(rest, '/')
  {
    hide Split;
    SplitFirst(a, b + "/" + (c + "/" + rest));
    SplitFirst(b, c + "/" + rest);
    SplitFirst(c, rest);
    Three(a, b, c, Split(rest, '/'));
  }

  /** What follows the scheme in the location falls into these pieces at its slashes. */
  ghost predicate LeadsTo(g: Settings, location: string, pieces: seq<string>) {
    exists tail: string :: location == g.scheme + "://" + tail && Split(tail, '/') == pieces
  }

  lemma LocationPieces(g: Settings, host: string, subreddit: string, rest: string)
    requires IsPiece(host) && IsPiece(g.communityAbbr) && IsPiece(subreddit) && NoDoubleSlash(rest)
    ensures LeadsTo(g, Location(g, host, subreddit, "/" + rest),
                    [host, g.communityAbbr, subreddit] + Split(rest, '/'))
  {
    CollapsedLocation(g, host, subreddit, rest);
    TailPieces(host, g.communityAbbr, subreddit, rest);
    hide Split, Location, Collapse;
  }

  lemma AnswerIsLocation(g: Settings, vars: Vars)
    requires Answer(g, vars).Redirect?
    ensures var labels := Labels(g, HostName(vars));
      Answer(g, vars).location
      == Location(g, RedirectHost(g, Kept(g, labels)), SubredditOf(g, labels), FullPath(vars))
  {
  }

  lemma NoDoubleInRest(rest: string)
    requires NoDoubleSlash("/" + rest)
    ensures NoDoubleSlash(rest)
  {
    assert forall k | 0 <= k < |rest| :: ("/" + rest)[k + 1] == rest[k];
  }

  /** The browser is sent to the community of the last subreddit label, under the kept host,
      and to the path it asked for there. */
  lemma RedirectLeadsTo(g: Settings, vars: Vars, labels: seq<string>, i: int, rest: string)
    requires AsksFor(g, vars, labels) && LastNamesSubreddit(g, labels, i)
    requires vars.fullPath == Some("/" + rest) && NoDoubleSlash("/" + rest)
    requires IsPiece(RedirectHost(g, Kept(g, labels))) && IsPiece(g.communityAbbr) && IsPiece(labels[i])
    ensures Answer(g, vars).Redirect?
    ensures LeadsTo(g, Answer(g, vars).location,
                    [RedirectHost(g, Kept(g, labels)), g.communityAbbr, labels[i]] + Split(rest, '/'))
  {
    assert labels[i] != "" && vars.fullPath.value != "" && FullPath(vars) == "/" + rest;
    hide *;
    RedirectedIff(g, vars, labels, i);
    LabelsAskedFor(g, vars, labels);
    LastSubreddit(g, labels);
    NoDoubleInRest(rest);
    AnswerIsLocation(g, vars);
    LocationPieces(g, RedirectHost(g, Kept(g, labels)), labels[i], rest);
  }

  // ---------------------------------------------------------------- the environment

  /** The reserved labels that may be part of a prefix, in order. */
  function ReservedLabels(g: Settings, labels: seq<string>): seq<string>
    decreases |labels|
  {
    if labels == [] then []
    else
      (if labels[0] in g.reserved && labels[0] !in g.ignored then [labels[0]] else [])
      + ReservedLabels(g, labels[1..])
  }

  lemma {:induction false} ReservedInOrder(g: Settings, labels: seq<string>, last: string)
    ensures ReservedLabels(g, labels + [last])
         == ReservedLabels(g, labels) + if last in g.reserved && last !in g.ignored then [last] else []
    decreases |labels|
  {
    if labels != [] {
      ReservedInOrder(g, labels[1..], last);
      assert (labels + [last])[1..] == labels[1..] + [last];
    }
  }

  lemma {:induction false} PrefixLabels(g: Settings, labels: seq<string>)
    ensures Of(g, labels, Prefix) == ReservedLabels(g, labels)
    decreases |labels|
  {
    if labels != [] {
      var front, last := labels[..|labels| - 1], labels[|labels| - 1];
      assert labels == front + [last];
      PrefixLabels(g, front);
      ReservedInOrder(g, front, last);
      Kinds(g, last);
    }
  }

  lemma {:induction false} ReservedAreLabels(g: Settings, labels: seq<string>)
    ensures forall l | l in ReservedLabels(g, labels) :: l in labels
    decreases |labels|
  {
    if labels != [] { ReservedAreLabels(g, labels[1..]); }
  }

  /** For these labels and a fresh environment: the last extension and the last language are
      noted, and a prefix that reads back as the language, if any, and then the reserved
      labels in their order; without any of these there is no prefix. */
  lemma EnvironmentOf(g: Settings, vars: Vars, labels: seq<string>)
    requires AsksFor(g, vars, labels) && vars.lang == None
    ensures var after := VarsAfter(g, vars);
      && after.host == vars.host && after.fullPath == vars.fullPath && after.legacyCname == vars.legacyCname
      && (forall i :: IsLast(g, labels, Extension, i) ==> after.extension == Some(g.extensions[labels[i]]))
      && ((forall l | l in labels :: !HasExtension(g, l)) ==> after.extension == vars.extension)
      && (forall i :: IsLast(g, labels, Language, i) ==> after.lang == Some(labels[i]))
      && ((forall l | l in labels :: !IsLanguageLabel(g, l)) ==> after.lang == None)
      && var parts := (if after.lang.Some? then [after.lang.value] else []) + ReservedLabels(g, labels);
      if parts == [] then after.prefix == vars.prefix
      else after.prefix.Some? && Split(after.prefix.value, '.') == parts
  {
    LabelsAskedFor(g, vars, labels);
    PrefixLabels(g, labels);
    NotedLabels(g, labels);
    ReservedAreLabels(g, labels);
    var marked := Marked(g, vars, labels);
    PrefixReadsBack(marked, ReservedLabels(g, labels));
    hide LastOf, Labels, HostName, IsOurs, ReservedLabels, Of, Split, Join, IsLast, HasExtension, IsLanguageLabel;
    hide WithPrefix, Within, Classify;
  }

  lemma PrefixReadsBack(vars: Vars, reserved: seq<string>)
    requires forall l | l in reserved :: '.' !in l
    requires vars.lang.Some? ==> '.' !in vars.lang.value
    ensures var after := WithPrefix(vars, reserved);
      var parts := (if vars.lang.Some? then [vars.lang.value] else []) + reserved;
      && after == vars.(prefix := after.prefix)
      && if parts == [] then after.prefix == vars.prefix
         else after.prefix.Some? && Split(after.prefix.value, '.') == parts
  {
    var parts := if vars.lang.Some? then [vars.lang.value] + reserved else reserved;
    assert [] + reserved == reserved;
    if parts != [] { SplitOfJoin(parts, '.'); }
    hide Split, Join;
  }

  lemma NotedLabels(g: Settings, labels: seq<string>)
    ensures forall i :: IsLast(g, labels, Extension, i) ==> LastOf(g, labels, Extension) == Some(labels[i])
    ensures (forall l | l in labels :: !HasExtension(g, l)) ==> LastOf(g, labels, Extension) == None
    ensures forall i :: IsLast(g, labels, Language, i) ==> LastOf(g, labels, Language) == Some(labels[i])
    ensures (forall l | l in labels :: !IsLanguageLabel(g, l)) ==> LastOf(g, labels, Language) == None
    ensures LastOf(g, labels, Language).Some? ==> LastOf(g, labels, Language).value in labels
  {
    LastOfIff(g, labels, Extension);
    LastOfIff(g, labels, Language);
    forall l | l in labels
      ensures Classify(g, l) == Extension <==> HasExtension(g, l)
      ensures Classify(g, l) == Language <==> IsLanguageLabel(g, l)
    {
      Kinds(g, l);
    }
    LastIsLabel(g, labels, Language);
    hide Classify, HasExtension, IsLanguageLabel, LastOf;
  }

  lemma {:induction false} LastIsLabel(g: Settings, labels: seq<string>, kind: Kind)
    ensures LastOf(g, labels, kind).Some? ==> LastOf(g, labels, kind).value in labels
    decreases |labels|
  {
    hide Classify;
    if labels != [] {
      var front, last := labels[..|labels| - 1], labels[|labels| - 1];
      assert labels == front + [last];
      LastIsLabel(g, front, kind);
      LastOfStep(g, front, last, kind);
    }
  }
}
