/**
 `DomainMiddleware` of r2/r2/config/middleware.py: what the labels in front of the site's
 domain mean, and the redirect that turns a subreddit name into a path.
 */
module DomainMiddleware {
  import opened SplitJoin
  import opened Wrappers

  datatype Settings = Settings(
    domain: string, mediaDomain: string, domainPrefix: string,
    scheme: string, communityAbbr: string,
    extensions: map<string, string>, reserved: set<string>, ignored: set<string>)

  /** The keys of the WSGI environment that the middleware reads or writes: `HTTP_HOST`,
      `FULLPATH`, `legacy-cname` and the three `reddit-...` ones. */
  datatype Vars = Vars(
    host: Option<string>, fullPath: Option<string>, legacyCname: Option<string>,
    extension: Option<string>, lang: Option<string>, prefix: Option<string>)

  class Environ {
    var vars: Vars

    constructor (initial: Vars)
      ensures vars == initial
    {
      vars := initial;
    }
  }

  datatype Outcome = PassOn | Redirect(location: string)

  // ---------------------------------------------------------------- text

  function LowerChar(c: char): char {
    if 'A' <= c <= 'Z' then c - 'A' + 'a' else c
  }

  function Lower(s: string): string
    decreases |s|
  {
    if s == "" then "" else [LowerChar(s[0])] + Lower(s[1..])
  }

  /** Python's `s.partition(c)[0]`. */
  function Before(s: string, c: char): string {
    Split(s, c)[0]
  }

  predicate EndsWith(s: string, t: string) {
    |t| <= |s| && s[|s| - |t|..] == t
  }

  predicate IsSubdomain(name: string, base: string) {
    name == base || EndsWith(name, "." + base)
  }

  /** Python's `s[:-n - 1]`. */
  function Chop(s: string, n: nat): string {
    if |s| <= n + 1 then "" else s[..|s| - n - 1]
  }

  predicate IsWordChar(c: char) {
    'a' <= c <= 'z' || 'A' <= c <= 'Z' || '0' <= c <= '9' || c == '_'
  }

  /** `xx` or `xx-yy`. */
  predicate IsLanguage(name: string) {
    && (|name| == 2 || (|name| == 5 && name[2] == '-' && IsWordChar(name[3]) && IsWordChar(name[4])))
    && IsWordChar(name[0]) && IsWordChar(name[1])
  }

  /** Python's `s.replace('//', '/')`. */
  function Collapse(s: string): string
    decreases |s|
  {
    if |s| < 2 then s
    else if s[0] == '/' && s[1] == '/' then "/" + Collapse(s[2..])
    else [s[0]] + Collapse(s[1..])
  }

  // ---------------------------------------------------------------- labels

  datatype Kind = Ignored | Prefix | Extension | Language | Subreddit

  function Classify(g: Settings, name: string): Kind {
    if name in g.reserved then (if name in g.ignored then Ignored else Prefix)
    else if name in g.extensions && g.extensions[name] != "" then Extension
    else if IsLanguage(name) then Language
    else Subreddit
  }

  /** The labels of one kind, in order. */
  function Of(g: Settings, labels: seq<string>, kind: Kind): seq<string>
    decreases |labels|
  {
    if labels == [] then []
    else
      var last := labels[|labels| - 1];
      Of(g, labels[..|labels| - 1], kind) + if Classify(g, last) == kind then [last] else []
  }

  /** The labels that do not name a subreddit, in order. */
  function Kept(g: Settings, labels: seq<string>): seq<string>
    decreases |labels|
  {
    if labels == [] then []
    else
      var last := labels[|labels| - 1];
      Kept(g, labels[..|labels| - 1]) + if Classify(g, last) != Subreddit then [last] else []
  }

  lemma {:induction false} OfKind(g: Settings, labels: seq<string>, kind: Kind)
    ensures forall l | l in Of(g, labels, kind) :: Classify(g, l) == kind
    decreases |labels|
  {
    if labels != [] { OfKind(g, labels[..|labels| - 1], kind); }
  }

  /** Exactly the labels that are not subreddits are kept. */
  lemma {:induction false} KeptExactly(g: Settings, labels: seq<string>, l: string)
    ensures l in Kept(g, labels) <==> l in labels && Classify(g, l) != Subreddit
    decreases |labels|
  {
    if labels != [] { KeptExactly(g, labels[..|labels| - 1], l); }
  }

  function LastOf(g: Settings, labels: seq<string>, kind: Kind): (r: Option<string>)
    ensures r.Some? ==> Classify(g, r.value) == kind
  {
    OfKind(g, labels, kind);
    var all := Of(g, labels, kind);
    if all == [] then None else Some(all[|all| - 1])
  }

  /** The subreddit to redirect to, or the empty string, which the code treats as none. */
  function SubredditOf(g: Settings, labels: seq<string>): string {
    var last := LastOf(g, labels, Subreddit);
    if last.Some? then last.value else ""
  }

  /** The list's `remove`, which takes out the first occurrence. */
  function RemoveFirst(labels: seq<string>, name: string): seq<string>
    requires name in labels
    decreases |labels|
  {
    if labels[0] == name then labels[1..] else [labels[0]] + RemoveFirst(labels[1..], name)
  }

  lemma {:induction false} RemoveAfter(front: seq<string>, name: string, rest: seq<string>)
    requires name !in front
    ensures RemoveFirst(front + [name] + rest, name) == front + rest
    decreases |front|
  {
    var all := front + [name] + rest;
    if front == [] {
      assert all[1..] == rest;
    } else {
      RemoveAfter(front[1..], name, rest);
      assert all[1..] == front[1..] + [name] + rest;
      assert [front[0]] + (front[1..] + rest) == front + rest;
    }
  }

  // ---------------------------------------------------------------- what the middleware does

  function HostName(vars: Vars): string {
    Before(Lower(if vars.host.Some? then vars.host.value else "localhost"), ':')
  }

  predicate IsMediaOnly(g: Settings, domain: string) {
    IsSubdomain(domain, g.mediaDomain) && g.domain != g.mediaDomain
  }

  predicate IsExempt(g: Settings, domain: string) {
    domain == "localhost" || IsMediaOnly(g, domain)
  }

  function Labels(g: Settings, domain: string): seq<string> {
    Split(Chop(domain, |g.domain|), '.')
  }

  /** The environment after the labels have been looked at: the last one of a kind wins. */
  function Marked(g: Settings, vars: Vars, labels: seq<string>): Vars {
    var extension, lang := LastOf(g, labels, Extension), LastOf(g, labels, Language);
    vars.(extension := if extension.Some? then Some(g.extensions[extension.value]) else vars.extension,
          lang := if lang.Some? then lang else vars.lang)
  }

  function WithPrefix(vars: Vars, reserved: seq<string>): Vars {
    var parts := if vars.lang.Some? then [vars.lang.value] + reserved else reserved;
    if parts == [] then vars else vars.(prefix := Some(Join(parts, '.')))
  }

  /** The host redirected to: the labels that were kept, or else the configured prefix. */
  function RedirectHost(g: Settings, kept: seq<string>): string {
    Join((if kept == [] && g.domainPrefix != "" then [g.domainPrefix] else kept) + [g.domain], '.')
  }

  function Location(g: Settings, host: string, subreddit: string, path: string): string {
    g.scheme + "://" + Collapse(host + "/" + (g.communityAbbr + "/" + subreddit + "/" + path))
  }

  function FullPath(vars: Vars): string {
    if vars.fullPath.Some? then vars.fullPath.value else ""
  }

  predicate IsOurs(g: Settings, domain: string) {
    !IsExempt(g, domain) && IsSubdomain(domain, g.domain)
  }

  /** A request for `domain` with this path is redirected. */
  predicate Redirects(g: Settings, domain: string, path: string) {
    IsOurs(g, domain) && SubredditOf(g, Labels(g, domain)) != "" && path != ""
  }

  function Answer(g: Settings, vars: Vars): Outcome {
    var domain := HostName(vars);
    var labels := Labels(g, domain);
    if Redirects(g, domain, FullPath(vars)) then
      Redirect(Location(g, RedirectHost(g, Kept(g, labels)), SubredditOf(g, labels), FullPath(vars)))
    else PassOn
  }

  function VarsAfter(g: Settings, vars: Vars): Vars {
    var domain := HostName(vars);
    var labels := Labels(g, domain);
    if IsExempt(g, domain) then vars
    else if !IsSubdomain(domain, g.domain) then vars.(legacyCname := Some(domain))
    else WithPrefix(Marked(g, vars, labels), Of(g, labels, Prefix))
  }

  lemma LastOfStep(g: Settings, seen: seq<string>, name: string, kind: Kind)
    ensures Of(g, seen + [name], kind) == Of(g, seen, kind) + (if Classify(g, name) == kind then [name] else [])
    ensures LastOf(g, seen + [name], kind) == if Classify(g, name) == kind then Some(name) else LastOf(g, seen, kind)
  {
    assert (seen + [name])[..|seen|] == seen;
    hide Classify;
  }

  lemma KeptStep(g: Settings, seen: seq<string>, name: string, rest: seq<string>)
    ensures Kept(g, seen + [name]) + rest
         == if Classify(g, name) != Subreddit then Kept(g, seen) + ([name] + rest) else Kept(g, seen) + rest
  {
    assert (seen + [name])[..|seen|] == seen;
    hide Classify;
  }

  lemma MarkedStep(g: Settings, vars: Vars, seen: seq<string>, name: string)
    ensures Marked(g, vars, seen + [name])
         == match Classify(g, name)
            case Extension => Marked(g, vars, seen).(extension := Some(g.extensions[name]))
            case Language => Marked(g, vars, seen).(lang := Some(name))
            case _ => Marked(g, vars, seen)
  {
    hide LastOf, IsLanguage;
    LastOfStep(g, seen, name, Extension);
    LastOfStep(g, seen, name, Language);
  }

  /** None of the labels kept so far equals the subreddit label being removed. */
  lemma RemovalAmongKept(g: Settings, seen: seq<string>, name: string, rest: seq<string>)
    requires Classify(g, name) == Subreddit
    ensures var current := Kept(g, seen) + ([name] + rest);
      name in current && RemoveFirst(current, name) == Kept(g, seen) + rest
  {
    var current := Kept(g, seen) + ([name] + rest);
    assert current == Kept(g, seen) + [name] + rest;
    assert current[|Kept(g, seen)|] == name;
    KeptExactly(g, seen, name);
    RemoveAfter(Kept(g, seen), name, rest);
  }

  lemma SubredditStep(g: Settings, seen: seq<string>, name: string)
    ensures SubredditOf(g, seen + [name]) == if Classify(g, name) == Subreddit then name else SubredditOf(g, seen)
  {
    hide Classify;
    LastOfStep(g, seen, name, Subreddit);
  }

  lemma NoLabels(g: Settings, vars: Vars)
    ensures Kept(g, []) == [] && Of(g, [], Prefix) == [] && SubredditOf(g, []) == "" && Marked(g, vars, []) == vars
  {
  }

  /** The loop of `__call__`: it scans a copy of the labels and removes the subreddit labels
      from the list by value. */
  method ScanLabels(g: Settings, environ: Environ, labels: seq<string>)
    returns (subdomains: seq<string>, redirect: string, prefixParts: seq<string>)
    modifies environ
    ensures subdomains == Kept(g, labels)
    ensures redirect == SubredditOf(g, labels)
    ensures prefixParts == Of(g, labels, Prefix)
    ensures environ.vars == Marked(g, old(environ.vars), labels)
  {
    hide Kept, Of, LastOf, SubredditOf, Marked, IsLanguage, RemoveFirst;
    NoLabels(g, environ.vars);
    subdomains, redirect, prefixParts := labels, "", [];
    var i := 0;
    while i < |labels|
      invariant 0 <= i <= |labels|
      invariant subdomains == Kept(g, labels[..i]) + labels[i..]
      invariant redirect == SubredditOf(g, labels[..i])
      invariant prefixParts == Of(g, labels[..i], Prefix)
      invariant environ.vars == Marked(g, old(environ.vars), labels[..i])
    {
      var name := labels[i];
      ghost var seen, rest := labels[..i], labels[i + 1..];
      assert labels[..i + 1] == seen + [name];
      assert labels[i..] == [name] + rest;
      KeptStep(g, seen, name, rest);
      LastOfStep(g, seen, name, Prefix);
      SubredditStep(g, seen, name);
      MarkedStep(g, old(environ.vars), seen, name);
      if name in g.reserved {
        if name !in g.ignored {
          prefixParts := prefixParts + [name];
        }
      } else if name in g.extensions && g.extensions[name] != "" {
        environ.vars := environ.vars.(extension := Some(g.extensions[name]));
      } else if IsLanguage(name) {
        environ.vars := environ.vars.(lang := Some(name));
      } else {
        redirect := name;
        RemovalAmongKept(g, seen, name, rest);
        subdomains := RemoveFirst(subdomains, name);
      }
      i := i + 1;
    }
    assert labels[..i] == labels;
  }

  /** `DomainMiddleware.__call__`. */
  method Call(g: Settings, environ: Environ) returns (outcome: Outcome)
    modifies environ
    ensures outcome == Answer(g, old(environ.vars))
    ensures environ.vars == VarsAfter(g, old(environ.vars))
  {
    hide Kept, Of, LastOf, SubredditOf, Labels, HostName, Location;
    var domain := HostName(environ.vars);
    if domain == "localhost" || IsMediaOnly(g, domain) {
      return PassOn;
    }
    if !IsSubdomain(domain, g.domain) {
      environ.vars := environ.vars.(legacyCname := Some(domain));
      return PassOn;
    }

    var subdomains, redirect, prefixParts := ScanLabels(g, environ, Labels(g, domain));
    if environ.vars.lang.Some? {
      prefixParts := [environ.vars.lang.value] + prefixParts;
    }
    if prefixParts != [] {
      environ.vars := environ.vars.(prefix := Some(Join(prefixParts, '.')));
    }
    if redirect != "" && FullPath(environ.vars) != "" {
      if subdomains == [] && g.domainPrefix != "" {
        subdomains := subdomains + [g.domainPrefix];
      }
      subdomains := subdomains + [g.domain];
      return Redirect(Location(g, Join(subdomains, '.'), redirect, FullPath(environ.vars)));
    }
    return PassOn;
  }
}
