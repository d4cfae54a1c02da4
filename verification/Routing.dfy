/** Route selection by longest segment-boundary prefix, and raw prefix stripping. */
module Routing {
  import opened Strings

  // ----- request targets

  function RequestPath(target: string): string { target[..IndexOf(target, '?')] }

  /** The query with its question mark, or nothing. */
  function Query(target: string): string { target[IndexOf(target, '?')..] }

  predicate IsSupportedProxyTarget(target: string) {
    target != "" && target[0] == '/' && IndexOf(target, '#') == |target|
  }

  lemma PathAndQuery(path: string, query: string)
    requires '?' !in path && (query == "" || query[0] == '?')
    ensures RequestPath(path + query) == path && Query(path + query) == query
  {
    var target := path + query;
    assert target[..|path|] == path && target[|path|..] == query;
    IndexOfIs(target, '?', |path|);
  }

  lemma TargetSplits(target: string)
    ensures target == RequestPath(target) + Query(target)
    ensures '?' !in RequestPath(target) && (Query(target) == "" || Query(target)[0] == '?')
  {
  }

  // ----- the route table

  predicate SegmentChar(c: char) {
    'a' <= c <= 'z' || 'A' <= c <= 'Z' || '0' <= c <= '9' || c == '-' || c == '.' || c == '_' || c == '~'
  }

  /** The characters of a segment are the unreserved ones of section 2.3 of RFC 3986. */
  lemma SegmentCharsAreUnreserved(c: char)
    ensures var n := c as int;
      SegmentChar(c) <==> 48 <= n <= 57 || 65 <= n <= 90 || 97 <= n <= 122 || n in {45, 46, 95, 126}
  {
  }

  predicate SegmentValid(segment: string) {
    segment != "" && segment != "." && segment != ".." && forall c :: c in segment ==> SegmentChar(c)
  }

  predicate SegmentsValid(path: string) {
    forall s :: s in Split(path, '/') ==> SegmentValid(s)
  }

  /** A valid prefix is the root, or a slash followed by valid segments separated by slashes. */
  predicate PrefixValid(prefix: string) {
    && prefix != "" && prefix[0] == '/'
    && (prefix == "/" || SegmentsValid(prefix[1..]))
  }

  lemma FirstSegment(prefix: string, begin: nat, n: nat)
    requires begin <= |prefix| && n == IndexOf(prefix[begin..], '/')
    ensures SegmentsValid(prefix[begin..]) <==>
      SegmentValid(prefix[begin..][..n]) && (begin + n == |prefix| || SegmentsValid(prefix[begin + n + 1..]))
  {
    var path := prefix[begin..];
    if n == |path| {
      assert path[..n] == path;
    } else {
      assert path[n + 1..] == prefix[begin + n + 1..];
      assert Split(path, '/')[1..] == Split(path[n + 1..], '/');
      assert forall s :: s in Split(path, '/') <==> s == path[..n] || s in Split(path[n + 1..], '/');
    }
  }

  /** `validate_route_prefix`: scans segment by segment. */
  method ValidatePrefix(prefix: string) returns (ok: bool)
    ensures ok <==> PrefixValid(prefix)
  {
    if prefix == "" || prefix[0] != '/' {
      return false;
    }
    if prefix == "/" {
      return true;
    }
    var begin := 1;
    while begin <= |prefix|
      invariant 1 <= begin <= |prefix|
      invariant SegmentsValid(prefix[begin..]) <==> PrefixValid(prefix)
      decreases |prefix| - begin
    {
      var length := IndexOf(prefix[begin..], '/');
      FirstSegment(prefix, begin, length);
      if !SegmentValid(prefix[begin..][..length]) {
        return false;
      }
      if begin + length == |prefix| {
        break;
      }
      begin := begin + length + 1;
    }
    return true;
  }

  predicate TableValid(prefixes: seq<string>) {
    && (forall i :: 0 <= i < |prefixes| ==> PrefixValid(prefixes[i]))
    && (forall i, j :: 0 <= i < j < |prefixes| ==> prefixes[i] != prefixes[j])
  }

  /** The prefix part of loading the table: each prefix is validated, then inserted into a set. */
  method ValidateTable(prefixes: seq<string>) returns (ok: bool)
    ensures ok <==> TableValid(prefixes)
  {
    var seen: set<string> := {};
    for k := 0 to |prefixes|
      invariant TableValid(prefixes[..k])
      invariant forall p :: p in seen <==> p in prefixes[..k]
    {
      var valid := ValidatePrefix(prefixes[k]);
      if !valid || prefixes[k] in seen {
        return false;
      }
      seen := seen + {prefixes[k]};
      assert prefixes[..k + 1] == prefixes[..k] + [prefixes[k]];
    }
    assert prefixes[..|prefixes|] == prefixes;
    return true;
  }

  // ----- selection

  /** The prefix covers the path and ends at a segment boundary. */
  predicate Matches(prefix: string, path: string) {
    && prefix <= path
    && (prefix == "/" || |path| == |prefix| || path[|prefix|] == '/')
  }

  /** Matching, segment by segment: a prefix matches if and only if its segments begin the segments of the path. */
  lemma MatchingIsBySegments(prefix: string, path: string)
    requires prefix != "/"
    ensures Matches(prefix, path) <==> Split(prefix, '/') <= Split(path, '/')
  {
    if Matches(prefix, path) {
      if |path| == |prefix| {
        assert path == prefix;
      } else {
        var rest := path[|prefix| + 1..];
        assert path == prefix + ['/'] + rest;
        SplitAppend(prefix, rest, '/');
      }
    }
    if Split(prefix, '/') <= Split(path, '/') {
      var p, q := Split(prefix, '/'), Split(path, '/')[|Split(prefix, '/')|..];
      assert Split(path, '/') == p + q;
      SplitIsExact(prefix, '/');
      SplitIsExact(path, '/');
      if q == [] {
        assert p + q == p;
      } else {
        JoinAppend(p, q, '/');
        assert path == prefix + ['/'] + Join(q, '/');
      }
    }
  }

  /** The root matches exactly the rooted paths, and a path matches itself. */
  lemma MatchingAtTheEnds(prefix: string, path: string)
    ensures Matches("/", path) <==> path != "" && path[0] == '/'
    ensures Matches(path, path)
    ensures Matches(prefix, prefix + "/" + path)
  {
    assert path[..|path|] == path;
    var longer := prefix + "/" + path;
    assert longer[..|prefix|] == prefix && longer[|prefix|] == '/';
    if path != "" && path[0] == '/' {
      assert path[..1] == "/";
    }
  }

  /** Route `i` has the longest matching prefix of the table. */
  ghost predicate IsLongestMatch(prefixes: seq<string>, path: string, i: nat) {
    && i < |prefixes| && Matches(prefixes[i], path)
    && forall k :: 0 <= k < |prefixes| && Matches(prefixes[k], path) && k != i ==> |prefixes[k]| < |prefixes[i]|
  }

  datatype Method = Get | Post | Put | Patch | OtherMethod

  datatype Request = Request(verb: Method, target: string, upgrade: bool, bodyEmpty: bool)

  datatype Config = Config(metricsEnabled: bool, singleUpstream: bool, prefixes: seq<string>)

  datatype Selection = NoRoute | SingleUpstream | Route(index: nat)

  /** Requests that are answered locally or refused before any route is looked at. */
  predicate IsProxied(config: Config, request: Request) {
    var path := RequestPath(request.target);
    && request.verb != OtherMethod
    && path != "/healthz" && path != "/readyz" && !(config.metricsEnabled && path == "/metrics")
    && IsSupportedProxyTarget(request.target) && !request.upgrade
    && (request.verb == Get ==> request.bodyEmpty)
  }

  /** The target is the path itself, or the path with a query. */
  predicate Asks(target: string, path: string) {
    target == path || path + "?" <= target
  }

  lemma AsksIsPath(target: string, path: string)
    requires '?' !in path
    ensures RequestPath(target) == path <==> Asks(target, path)
  {
    TargetSplits(target);
    if Asks(target, path) {
      var query := target[|path|..];
      assert target == path + query;
      PathAndQuery(path, query);
    }
  }

  /** Which requests are proxied, in terms of the target as it was received. */
  lemma ProxiedIff(config: Config, request: Request)
    ensures IsProxied(config, request) <==>
      && request.verb in {Get, Post, Put, Patch} && (request.verb == Get ==> request.bodyEmpty) && !request.upgrade
      && request.target != "" && request.target[0] == '/' && '#' !in request.target
      && !Asks(request.target, "/healthz") && !Asks(request.target, "/readyz")
      && (config.metricsEnabled ==> !Asks(request.target, "/metrics"))
  {
    AsksIsPath(request.target, "/healthz");
    AsksIsPath(request.target, "/readyz");
    AsksIsPath(request.target, "/metrics");
    var n := IndexOf(request.target, '#');
    assert n == |request.target| ==> request.target[..n] == request.target;
  }

  /** `select_http_route`: one pass keeping the longest match so far. */
  method SelectRoute(config: Config, request: Request) returns (selection: Selection)
    requires TableValid(config.prefixes)
    ensures selection.SingleUpstream? <==> IsProxied(config, request) && config.singleUpstream
    ensures selection.Route? ==> IsProxied(config, request) && !config.singleUpstream
    ensures selection.Route? ==> IsLongestMatch(config.prefixes, RequestPath(request.target), selection.index)
    ensures selection.NoRoute? && IsProxied(config, request) ==>
      forall k :: 0 <= k < |config.prefixes| ==> !Matches(config.prefixes[k], RequestPath(request.target))
  {
    if !IsProxied(config, request) {
      return NoRoute;
    }
    if config.singleUpstream {
      return SingleUpstream;
    }
    var path := RequestPath(request.target);
    selection := NoRoute;
    var longest := 0;
    for index := 0 to |config.prefixes|
      invariant selection.NoRoute? || (selection.Route? && selection.index < index)
      invariant selection.NoRoute? ==> longest == 0 && forall k :: 0 <= k < index ==> !Matches(config.prefixes[k], path)
      invariant selection.Route? ==> longest == |config.prefixes[selection.index]| && IsLongestMatch(config.prefixes[..index], path, selection.index)
    {
      var prefix := config.prefixes[index];
      assert config.prefixes[..index + 1] == config.prefixes[..index] + [prefix];
      if selection.Route? && Matches(prefix, path) {
        SameLengthMatchesAreEqual(prefix, config.prefixes[selection.index], path);
      }
      if |prefix| > longest && prefix <= path && (prefix == "/" || |path| == |prefix| || path[|prefix|] == '/') {
        selection := Route(index);
        longest := |prefix|;
      }
    }
    assert config.prefixes[..|config.prefixes|] == config.prefixes;
  }

  /** Two matching prefixes of one length are the same string. */
  lemma SameLengthMatchesAreEqual(p: string, q: string, path: string)
    requires Matches(p, path) && Matches(q, path)
    ensures |p| == |q| ==> p == q
  {
  }

  /** The selected prefix depends on the table's entries only, not on their order. */
  lemma SelectionIgnoresOrder(a: seq<string>, b: seq<string>, path: string, i: nat, j: nat)
    requires TableValid(a) && TableValid(b) && multiset(a) == multiset(b)
    requires IsLongestMatch(a, path, i) && IsLongestMatch(b, path, j)
    ensures a[i] == b[j]
  {
    assert a[i] in multiset(b) && b[j] in multiset(a);
    var k :| 0 <= k < |b| && b[k] == a[i];
    var m :| 0 <= m < |a| && a[m] == b[j];
  }

  /** Whether any route matches does not depend on the order either. */
  lemma MatchingIgnoresOrder(a: seq<string>, b: seq<string>, path: string)
    requires multiset(a) == multiset(b) && exists k :: 0 <= k < |a| && Matches(a[k], path)
    ensures exists k :: 0 <= k < |b| && Matches(b[k], path)
  {
    var k :| 0 <= k < |a| && Matches(a[k], path);
    assert a[k] in multiset(b);
    var m :| 0 <= m < |b| && b[m] == a[k];
  }

  /** The longest match is unique, so selection is a function of the table as a set. */
  lemma LongestMatchIsUnique(prefixes: seq<string>, path: string, i: nat, j: nat)
    requires IsLongestMatch(prefixes, path, i) && IsLongestMatch(prefixes, path, j)
    ensures i == j
  {
  }

  // ----- stripping

  /** The target sent upstream. The single-upstream mode has an empty prefix. */
  function UpstreamTarget(target: string, prefix: string, strip: bool): string
    requires prefix <= target
  {
    if strip && prefix != "" && prefix != "/" then
      var rest := target[|prefix|..];
      if rest == "" || rest[0] == '?' then "/" + rest else rest
    else target
  }

  /** Without stripping, and for the root or the single-upstream mode, the target is sent as it is. */
  lemma OtherwiseUnchanged(target: string, prefix: string, strip: bool)
    requires prefix <= target && (!strip || prefix == "" || prefix == "/")
    ensures UpstreamTarget(target, prefix, strip) == target
  {
  }

  /** Stripping a selected prefix leaves a rooted target: the query is unchanged and the path is the exact suffix, or the root. */
  lemma StrippingIsExact(target: string, prefix: string)
    requires Matches(prefix, RequestPath(target)) && prefix != "" && prefix != "/"
    ensures prefix <= target
    ensures var r := UpstreamTarget(target, prefix, true); var path := RequestPath(target);
      && r != "" && r[0] == '/'
      && Query(r) == Query(target)
      && RequestPath(r) == if path == prefix then "/" else path[|prefix|..]
  {
    TargetSplits(target);
    var path, query := RequestPath(target), Query(target);
    assert prefix <= target by {
      assert target[..|prefix|] == path[..|prefix|];
    }
    var rest := target[|prefix|..];
    assert rest == path[|prefix|..] + query;
    if |path| == |prefix| {
      assert path == prefix && rest == query;
      PathAndQuery("/", query);
    } else {
      assert rest[0] == '/';
      PathAndQuery(path[|prefix|..], query);
    }
  }

  /** Stripping can be undone: putting the prefix back in front of the path gives the original target. */
  lemma StrippingLosesNothing(target: string, prefix: string)
    requires Matches(prefix, RequestPath(target)) && prefix != "" && prefix != "/" && prefix <= target
    ensures var r := UpstreamTarget(target, prefix, true);
      target == prefix + (if RequestPath(target) == prefix then r[1..] else r)
  {
    StrippingIsExact(target, prefix);
    TargetSplits(target);
    var rest := target[|prefix|..];
    assert target == prefix + rest;
    if RequestPath(target) == prefix {
      assert rest == Query(target);
      assert ("/" + rest)[1..] == rest;
    }
  }
}
