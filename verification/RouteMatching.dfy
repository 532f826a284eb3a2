/** Which requests a middleware binding applies to (middleware.rs). */
module RouteMatching {
  import opened Prelude
  import opened Text

  datatype MiddlewareRoute = MiddlewareRoute(path: string, methods: Option<seq<string>>)

  datatype RouteMatcher = RouteMatcher(included: seq<MiddlewareRoute>, excluded: seq<MiddlewareRoute>)

  predicate PathMatchesPrefix(path: string, prefix: string) {
    prefix == "/" || path == prefix || prefix + "/" <= path
  }

  predicate RouteMatches(route: MiddlewareRoute, verb: string, path: string) {
    PathMatchesPrefix(path, route.path) && (route.methods.Some? ==> verb in route.methods.value)
  }

  predicate MatcherMatches(m: RouteMatcher, verb: string, path: string) {
    && !(exists r | r in m.excluded :: RouteMatches(r, verb, path))
    && (m.included == [] || exists r | r in m.included :: RouteMatches(r, verb, path))
  }

  /** The '/'-separated parts of a path; always at least one. */
  function SplitSlash(s: string): (parts: seq<string>)
    ensures parts != []
  {
    if s == "" then [""]
    else
      var rest := SplitSlash(s[1..]);
      if s[0] == '/' then [""] + rest else [[s[0]] + rest[0]] + rest[1..]
  }

  lemma {:induction false} PrefixMatchIsPartwise(path: string, prefix: string)
    ensures (path == prefix || prefix + "/" <= path) <==> SplitSlash(prefix) <= SplitSlash(path)
    decreases |prefix|
  {
    if prefix == "" {
      if path != "" {
        assert "" + "/" == "/";
      }
    } else if path != "" {
      PrefixMatchIsPartwise(path[1..], prefix[1..]);
      var a, b := SplitSlash(prefix[1..]), SplitSlash(path[1..]);
      assert prefix == [prefix[0]] + prefix[1..] && path == [path[0]] + path[1..];
      assert (prefix + "/")[1..] == prefix[1..] + "/";
      assert prefix + "/" <= path <==> prefix[0] == path[0] && prefix[1..] + "/" <= path[1..];
      if prefix[0] == '/' {
        assert SplitSlash(prefix)[1..] == a;
        if path[0] == '/' {
          assert SplitSlash(path)[1..] == b;
        }
      } else {
        assert SplitSlash(prefix)[1..] == a[1..] && SplitSlash(prefix)[0] == [prefix[0]] + a[0];
        if path[0] != '/' {
          assert SplitSlash(path)[1..] == b[1..] && SplitSlash(path)[0] == [path[0]] + b[0];
          assert SplitSlash(prefix)[0][1..] == a[0] && SplitSlash(path)[0][1..] == b[0];
          assert SplitSlash(prefix) <= SplitSlash(path) <==> prefix[0] == path[0] && a[0] == b[0] && a[1..] <= b[1..];
          assert a <= b <==> a[0] == b[0] && a[1..] <= b[1..];
        }
      }
    }
  }

  /**
   A route matches at segment boundaries only: for the root prefix, or when its segments begin the path's segments.
   */
  lemma {:induction false} RouteMatchesAtSegments(route: MiddlewareRoute, verb: string, path: string)
    ensures RouteMatches(route, verb, path) <==>
      && (route.path == "/" || SplitSlash(route.path) <= SplitSlash(path))
      && (route.methods.None? || verb in route.methods.value)
  {
    PrefixMatchIsPartwise(path, route.path);
  }

  /** The route's segments begin the path's, and it is for the method or for all methods. */
  ghost predicate Covers(route: MiddlewareRoute, verb: string, path: string) {
    && (route.path == "/" || SplitSlash(route.path) <= SplitSlash(path))
    && (route.methods.None? || verb in route.methods.value)
  }

  /** A middleware runs where no excluded route covers the request and, if any route is included, one of these does. */
  lemma {:induction false} MatcherMeans(m: RouteMatcher, verb: string, path: string)
    ensures MatcherMatches(m, verb, path) <==>
      && (forall route | route in m.excluded :: !Covers(route, verb, path))
      && (m.included == [] || exists route :: route in m.included && Covers(route, verb, path))
  {
    forall route
      ensures RouteMatches(route, verb, path) <==> Covers(route, verb, path)
    {
      RouteMatchesAtSegments(route, verb, path);
    }
  }

  /** `trim_end_matches('/')`. */
  function WithoutEndSlashes(s: string): (r: string)
    ensures r <= s && (r != "" ==> r[|r| - 1] != '/')
  {
    if s != "" && s[|s| - 1] == '/' then WithoutEndSlashes(s[..|s| - 1]) else s
  }

  /** How the path of a route is stored when the route is built. */
  function NormalizePath(path: string): string {
    var trimmed := Trim(path);
    if trimmed == "" || trimmed == "/" then "/"
    else if trimmed[0] == '/' then WithoutEndSlashes(trimmed)
    else "/" + WithoutEndSlashes(trimmed)
  }

  /**
   What a route written as `written` matches, for any request path: all paths when nothing but spaces and end slashes
   was written, though several slashes are stored as the empty prefix; else the paths that begin with its segments.
   */
  lemma {:induction false} WrittenRouteMatches(written: string, path: string)
    requires path != "" && path[0] == '/'
    ensures var t := WithoutEndSlashes(Trim(written));
      PathMatchesPrefix(path, NormalizePath(written))
      <==> t == "" || SplitSlash(if t[0] == '/' then t else "/" + t) <= SplitSlash(path)
  {
    var trimmed := Trim(written);
    var t := WithoutEndSlashes(trimmed);
    if t == "" {
      assert "" + "/" <= path;
      if trimmed != "" {
        OnlySlashes(trimmed);
      }
    } else {
      var stored := if t[0] == '/' then t else "/" + t;
      assert stored != "/";
      assert trimmed != "/";
      PrefixMatchIsPartwise(path, stored);
    }
  }

  lemma {:induction false} OnlySlashes(s: string)
    requires s != "" && WithoutEndSlashes(s) == ""
    ensures s[0] == '/'
  {
    if |s| > 1 {
      OnlySlashes(s[..|s| - 1]);
    }
  }
}
