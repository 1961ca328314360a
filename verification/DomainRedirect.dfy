/** Where the subreddit redirect of `DomainMiddleware` leads when a browser follows it. */
module DomainRedirect {
  import opened Wrappers
  import opened SplitJoin
  import opened DomainMiddleware

  // ---------------------------------------------------------------- text

  predicate NoUpper(s: string) {
    forall i | 0 <= i < |s| :: !('A' <= s[i] <= 'Z')
  }

  /** A name as the middleware sees it: lower case and without a port. */
  predicate IsHostName(s: string) {
    NoUpper(s) && ':' !in s
  }

  lemma {:induction false} LowerIsLower(s: string)
    ensures |Lower(s)| == |s| && NoUpper(Lower(s))
    decreases |s|
  {
    if s != "" { LowerIsLower(s[1..]); }
  }

  lemma {:induction false} LowerKeepsLower(s: string)
    requires NoUpper(s)
    ensures Lower(s) == s
    decreases |s|
  {
    if s != "" { LowerKeepsLower(s[1..]); }
  }

  lemma {:induction false} LowerAppend(s: string, t: string)
    ensures Lower(s + t) == Lower(s) + Lower(t)
    decreases |s|
  {
    if s == "" {
      assert s + t == t;
    } else {
      LowerAppend(s[1..], t);
      assert (s + t)[1..] == s[1..] + t;
    }
  }

  lemma {:induction false} LowerAddsNoPunctuation(s: string, c: char)
    requires c == ':' || c == '.'
    ensures c in Lower(s) <==> c in s
    decreases |s|
  {
    if s != "" { LowerAddsNoPunctuation(s[1..], c); }
  }

  lemma BeforeIsWhole(s: string, c: char)
    requires c !in s
    ensures Before(s, c) == s
  {
    SplitWithoutSeparator(s, c);
  }

  lemma BeforeIsHostName(s: string)
    requires NoUpper(s)
    ensures IsHostName(Before(s, ':'))
  {
    JoinOfSplit(s, ':');
    var b := Before(s, ':');
    forall i | 0 <= i < |b| ensures !('A' <= b[i] <= 'Z') { PiecesComeFromText(s, ':', 0, b[i]); }
  }

  lemma HostNameIsHostName(vars: Vars)
    ensures IsHostName(HostName(vars))
  {
    var text := if vars.host.Some? then vars.host.value else "localhost";
    LowerIsLower(text);
    BeforeIsHostName(Lower(text));
  }

  // ---------------------------------------------------------------- labels

  lemma {:induction false} NoneOfKind(g: Settings, labels: seq<string>, kind: Kind)
    requires forall l | l in labels :: Classify(g, l) != kind
    ensures Of(g, labels, kind) == []
    decreases |labels|
  {
    if labels != [] { NoneOfKind(g, labels[..|labels| - 1], kind); }
  }

  lemma KeptNameNoSubreddit(g: Settings, labels: seq<string>)
    ensures SubredditOf(g, Kept(g, labels)) == ""
  {
    var kept := Kept(g, labels);
    forall l | l in kept ensures Classify(g, l) != Subreddit { KeptExactly(g, labels, l); }
    NoneOfKind(g, kept, Subreddit);
  }

  lemma NameInFront(name: string, domain: string)
    ensures IsSubdomain(name + "." + domain, domain)
    ensures Chop(name + "." + domain, |domain|) == name
  {
    assert name + "." + domain == name + ("." + domain);
    if name == "" { assert name + "." + domain == "." + domain; }
  }

  lemma TheDomainItself(g: Settings)
    ensures Labels(g, g.domain) == [""] && SubredditOf(g, Labels(g, g.domain)) == ""
  {
    if Classify(g, "") != Subreddit { NoneOfKind(g, [""], Subreddit); }
  }

  /** The kept labels of a host name, and the site's domain, are fit for a host name. */
  lemma PartsAreHostNames(g: Settings, domain: string)
    requires IsHostName(domain) && IsSubdomain(domain, g.domain)
    ensures IsHostName(g.domain)
    ensures forall l | l in Kept(g, Labels(g, domain)) :: IsHostName(l) && '.' !in l
  {
    var front := Chop(domain, |g.domain|);
    if domain != g.domain {
      forall i | 0 <= i < |g.domain| ensures g.domain[i] == domain[|domain| - |g.domain| + i] {
        assert ("." + g.domain)[i + 1] == domain[|domain| - |g.domain| - 1..][i + 1];
      }
    }
    var labels := Labels(g, domain);
    JoinOfSplit(front, '.');
    forall l | l in Kept(g, labels) ensures IsHostName(l) && '.' !in l {
      KeptExactly(g, labels, l);
      var i :| 0 <= i < |labels| && labels[i] == l;
      PieceOfHostName(domain, |g.domain|, i);
    }
  }

  lemma PieceOfHostName(domain: string, n: nat, i: nat)
    requires IsHostName(domain) && i < |Split(Chop(domain, n), '.')|
    ensures IsHostName(Split(Chop(domain, n), '.')[i])
  {
    var front := Chop(domain, n);
    var piece := Split(front, '.')[i];
    assert forall c | c in front :: c in domain;
    forall k | 0 <= k < |piece| ensures !('A' <= piece[k] <= 'Z') && piece[k] != ':' {
      PiecesComeFromText(front, '.', i, piece[k]);
    }
  }

  lemma JoinIsHostName(pieces: seq<string>)
    requires forall l | l in pieces :: IsHostName(l)
    ensures IsHostName(Join(pieces, '.'))
  {
    var text := Join(pieces, '.');
    forall k | 0 <= k < |text| ensures !('A' <= text[k] <= 'Z') && text[k] != ':' {
      JoinComesFromPieces(pieces, '.', text[k]);
      if text[k] != '.' {
        var i :| 0 <= i < |pieces| && text[k] in pieces[i];
        assert IsHostName(pieces[i]);
      }
    }
  }

  // ---------------------------------------------------------------- following the redirect

  /** How the middleware reads a host name it is sent. */
  function SeenAs(host: string): string {
    Before(Lower(host), ':')
  }

  lemma SeenAsItself(host: string)
    requires IsHostName(host)
    ensures SeenAs(host) == host
  {
    LowerKeepsLower(host);
    BeforeIsWhole(host, ':');
  }

  /** The host of the configured prefix, as the middleware sees it. */
  function PrefixHost(g: Settings): string {
    SeenAs(RedirectHost(g, []))
  }

  /** The configured prefix is itself taken for a subreddit: a property of the settings alone. */
  predicate PrefixIsMisread(g: Settings) {
    g.domainPrefix != "" && IsOurs(g, PrefixHost(g)) && SubredditOf(g, Labels(g, PrefixHost(g))) != ""
  }

  lemma KeptHostIsReadBack(g: Settings, domain: string)
    requires IsHostName(domain) && IsSubdomain(domain, g.domain)
    requires Kept(g, Labels(g, domain)) != []
    ensures var kept := Kept(g, Labels(g, domain));
      Labels(g, SeenAs(RedirectHost(g, kept))) == kept
  {
    var kept := Kept(g, Labels(g, domain));
    PartsAreHostNames(g, domain);
    JoinIsHostName(kept + [g.domain]);
    SeenAsItself(RedirectHost(g, kept));
    JoinOfLast(kept, g.domain, '.');
    NameInFront(Join(kept, '.'), g.domain);
    SplitOfJoin(kept, '.');
  }

  /** After a redirect the browser's next request is redirected again if and only if no
      label was kept and the configured prefix is itself taken for a subreddit. */
  lemma RedirectsAgainIff(g: Settings, vars: Vars, path: string)
    requires Answer(g, vars).Redirect? && path != ""
    ensures var kept := Kept(g, Labels(g, HostName(vars)));
      Redirects(g, SeenAs(RedirectHost(g, kept)), path) <==> kept == [] && PrefixIsMisread(g)
  {
    HostNameIsHostName(vars);
    AgainIff(g, HostName(vars), path);
  }

  lemma AgainIff(g: Settings, domain: string, path: string)
    requires IsHostName(domain) && IsSubdomain(domain, g.domain) && path != ""
    ensures var kept := Kept(g, Labels(g, domain));
      Redirects(g, SeenAs(RedirectHost(g, kept)), path) <==> kept == [] && PrefixIsMisread(g)
  {
    var kept := Kept(g, Labels(g, domain));
    if kept != [] {
      KeptHostIsReadBack(g, domain);
      KeptNameNoSubreddit(g, Labels(g, domain));
    } else if g.domainPrefix == "" {
      PartsAreHostNames(g, domain);
      SeenAsItself(g.domain);
      TheDomainItself(g);
      assert kept + [g.domain] == [g.domain];
    }
  }

  /** For a prefix without a port, what matters is how its own labels are classified. */
  lemma MisreadIff(g: Settings)
    requires IsHostName(g.domain) && ':' !in g.domainPrefix && g.domainPrefix != ""
    ensures PrefixIsMisread(g) <==>
      && !IsExempt(g, Lower(g.domainPrefix) + "." + g.domain)
      && SubredditOf(g, Split(Lower(g.domainPrefix), '.')) != ""
  {
    var prefix := Lower(g.domainPrefix);
    JoinTwo(g.domainPrefix, g.domain, '.');
    assert [] + [g.domainPrefix] + [g.domain] == [g.domainPrefix, g.domain];
    LowerAppend(g.domainPrefix + ".", g.domain);
    LowerAppend(g.domainPrefix, ".");
    LowerKeepsLower(g.domain);
    LowerKeepsLower(".");
    LowerAddsNoPunctuation(g.domainPrefix, ':');
    BeforeIsWhole(prefix + "." + g.domain, ':');
    NameInFront(prefix, g.domain);
  }

  /** So a prefix that is one reserved, extension or language label never loops. */
  lemma LabelPrefixIsNotMisread(g: Settings)
    requires IsHostName(g.domain) && ':' !in g.domainPrefix && '.' !in g.domainPrefix
    requires Classify(g, Lower(g.domainPrefix)) != Subreddit
    ensures !PrefixIsMisread(g)
  {
    if g.domainPrefix != "" {
      MisreadIff(g);
      LowerAddsNoPunctuation(g.domainPrefix, '.');
      SplitWithoutSeparator(Lower(g.domainPrefix), '.');
      NoneOfKind(g, [Lower(g.domainPrefix)], Subreddit);
    }
  }

  /** The host name seen after following `n` redirects, if there are that many. */
  function Hop(g: Settings, domain: string, n: nat): Option<string>
    decreases n
  {
    if n == 0 then Some(domain)
    else
      var before := Hop(g, domain, n - 1);
      if before.Some? && Redirects(g, before.value, "/")
      then Some(SeenAs(RedirectHost(g, Kept(g, Labels(g, before.value)))))
      else None
  }

  lemma {:induction false} StuckAtPrefix(g: Settings, domain: string, n: nat)
    requires n >= 1 && Hop(g, domain, 1) == Some(PrefixHost(g))
    requires PrefixIsMisread(g) && Kept(g, Labels(g, PrefixHost(g))) == []
    ensures Hop(g, domain, n) == Some(PrefixHost(g))
    decreases n
  {
    hide *;
    if n > 1 {
      StuckAtPrefix(g, domain, n - 1);
      HopStep(g, domain, n);
    }
  }

  lemma HopStep(g: Settings, domain: string, n: nat)
    requires n >= 1 && Hop(g, domain, n - 1) == Some(PrefixHost(g))
    requires PrefixIsMisread(g) && Kept(g, Labels(g, PrefixHost(g))) == []
    ensures Hop(g, domain, n) == Some(PrefixHost(g))
  {
    hide SeenAs, Kept, Labels, IsOurs, SubredditOf, RedirectHost;
  }

  lemma SeenAsIsHostName(host: string)
    ensures IsHostName(SeenAs(host))
  {
    LowerIsLower(host);
    BeforeIsHostName(Lower(host));
  }

  lemma NextIffMisread(g: Settings, domain: string, n: nat)
    requires IsHostName(domain) && Hop(g, domain, n).Some? && IsHostName(Hop(g, domain, n).value)
    requires Redirects(g, Hop(g, domain, n).value, "/")
    ensures var at := Hop(g, domain, n).value;
      && Hop(g, domain, n + 1) == Some(SeenAs(RedirectHost(g, Kept(g, Labels(g, at)))))
      && IsHostName(Hop(g, domain, n + 1).value)
      && (Redirects(g, Hop(g, domain, n + 1).value, "/") <==> Kept(g, Labels(g, at)) == [] && PrefixIsMisread(g))
  {
    var at := Hop(g, domain, n).value;
    AgainIff(g, at, "/");
    SeenAsIsHostName(RedirectHost(g, Kept(g, Labels(g, at))));
  }

  ghost predicate Endless(g: Settings, domain: string) {
    forall n: nat :: Hop(g, domain, n).Some?
  }

  /** When the prefix is itself redirected to itself. */
  predicate PrefixLoops(g: Settings) {
    PrefixIsMisread(g) && Kept(g, Labels(g, PrefixHost(g))) == []
  }

  lemma LoopsForEver(g: Settings, domain: string)
    requires Hop(g, domain, 1) == Some(PrefixHost(g)) && PrefixLoops(g)
    ensures Endless(g, domain)
  {
    forall n: nat ensures Hop(g, domain, n).Some? {
      if n >= 1 { StuckAtPrefix(g, domain, n); }
    }
  }

  lemma StopsByThree(g: Settings, domain: string)
    requires IsHostName(domain) && Redirects(g, domain, "/")
    requires !(Kept(g, Labels(g, domain)) == [] && PrefixLoops(g))
    ensures Hop(g, domain, 3) == None
  {
    NextIffMisread(g, domain, 0);
    if Kept(g, Labels(g, domain)) == [] && PrefixIsMisread(g) {
      assert Hop(g, domain, 1) == Some(PrefixHost(g));
      NextIffMisread(g, domain, 1);
    } else {
      assert Hop(g, domain, 2) == None;
    }
  }

  /** A redirect is followed by at most one more, or else by redirects without end: exactly
      when no label is kept and every label of the prefix is taken for a subreddit. */
  lemma EndlessIff(g: Settings, domain: string)
    requires IsHostName(domain) && Redirects(g, domain, "/")
    ensures Endless(g, domain) <==> Kept(g, Labels(g, domain)) == [] && PrefixLoops(g)
    ensures Endless(g, domain) || Hop(g, domain, 3) == None
  {
    if Kept(g, Labels(g, domain)) == [] && PrefixLoops(g) {
      NextIffMisread(g, domain, 0);
      LoopsForEver(g, domain);
    } else {
      StopsByThree(g, domain);
    }
  }

  /** The prefix `www`, which nothing in the settings reserves. */
  function Unreserved(): Settings {
    Settings("reddit.local", "reddit.local", "www", "http", "r", map[], {}, {})
  }

  lemma OneSubredditLabel(g: Settings, name: string)
    requires '.' !in name && Classify(g, name) == Subreddit
    ensures Kept(g, Split(name, '.')) == [] && SubredditOf(g, Split(name, '.')) == name
  {
    SplitWithoutSeparator(name, '.');
    assert [name][..0] == [];
  }

  /** A name in front of the domain that is not exempt and is a subreddit. */
  lemma SubredditHost(g: Settings, name: string)
    requires '.' !in name && name != "" && Classify(g, name) == Subreddit && !IsExempt(g, name + "." + g.domain)
    ensures var host := name + "." + g.domain; Redirects(g, host, "/") && Kept(g, Labels(g, host)) == []
  {
    OneSubredditLabel(g, name);
    NameInFront(name, g.domain);
    hide Kept, SubredditOf, Classify, IsExempt, IsSubdomain, Chop;
  }

  lemma PrefixInFront(g: Settings)
    requires g.domainPrefix != "" && IsHostName(g.domainPrefix + "." + g.domain)
    ensures PrefixHost(g) == g.domainPrefix + "." + g.domain
  {
    JoinTwo(g.domainPrefix, g.domain, '.');
    assert [] + [g.domainPrefix] + [g.domain] == [g.domainPrefix, g.domain];
    SeenAsItself(g.domainPrefix + "." + g.domain);
    hide Join, SeenAs;
  }

  lemma LoopsFrom(g: Settings, domain: string)
    requires g.domainPrefix != "" && Redirects(g, PrefixHost(g), "/") && Kept(g, Labels(g, PrefixHost(g))) == []
    requires IsHostName(domain) && Redirects(g, domain, "/") && Kept(g, Labels(g, domain)) == []
    ensures PrefixLoops(g) && Endless(g, domain)
  {
    EndlessIff(g, domain);
  }

  lemma PlainHost(host: string)
    requires host == "www.reddit.local" || host == "pics.reddit.local"
    ensures IsHostName(host) && !IsExempt(Unreserved(), host)
  {
    assert host[1] != "localhost"[1];
    assert Unreserved().mediaDomain == Unreserved().domain;
    hide IsSubdomain;
  }

  lemma PlainLabel(name: string)
    requires name == "www" || name == "pics"
    ensures '.' !in name && Classify(Unreserved(), name) == Subreddit
    ensures name + "." + Unreserved().domain == if name == "www" then "www.reddit.local" else "pics.reddit.local"
  {
  }

  /** With these settings a subreddit host is redirected to `www.reddit.local`, and from there
      to itself for ever. */
  lemma UnreservedPrefixLoops()
    ensures PrefixLoops(Unreserved()) && Endless(Unreserved(), "pics.reddit.local")
  {
    var g := Unreserved();
    assert g.domainPrefix == "www";
    hide *;
    PlainHost("www.reddit.local");
    PlainHost("pics.reddit.local");
    PlainLabel("www");
    PlainLabel("pics");
    SubredditHost(g, "www");
    SubredditHost(g, "pics");
    PrefixInFront(g);
    LoopsFrom(g, "pics.reddit.local");
  }

  // ---------------------------------------------------------------- the Location header

  /** The host a browser reads from the Location header. */
  function HostOf(g: Settings, location: string): string
    requires |location| >= |g.scheme| + 3
  {
    Before(location[|g.scheme| + 3..], '/')
  }

  lemma {:induction false} CollapseKeepsFront(host: string, rest: string)
    requires '/' !in host
    ensures Before(Collapse(host + "/" + rest), '/') == host
    decreases |host|
  {
    if host == "" {
      assert host + "/" + rest == "/" + rest;
    } else {
      var text := host + "/" + rest;
      assert text[1..] == host[1..] + "/" + rest;
      CollapseKeepsFront(host[1..], rest);
      SplitPrepend(host[0], Collapse(text[1..]), '/');
    }
  }

  /** Merging double slashes never reaches into the host, unless the host has a slash itself. */
  lemma LocationNamesTheHostIff(g: Settings, host: string, subreddit: string, path: string)
    ensures HostOf(g, Location(g, host, subreddit, path)) == host <==> '/' !in host
  {
    var rest := g.communityAbbr + "/" + subreddit + "/" + path;
    var text := Collapse(host + "/" + rest);
    assert Location(g, host, subreddit, path)[|g.scheme| + 3..] == text;
    if '/' !in host {
      CollapseKeepsFront(host, rest);
    } else {
      JoinOfSplit(text, '/');
    }
  }
}
