/** Routing in `request_handler`: the responder is picked by the first
    path segment, as `strtok(path, "/")` returns it; an "api" request is
    forwarded with the first four characters of its path removed. */
module Routing {
  import opened CStrings

  /** `k` slashes. */
  function Slashes(k: nat): (s: string)
    ensures |s| == k && forall i :: 0 <= i < k ==> s[i] == '/'
  {
    seq(k, _ => '/')
  }

  /** The run of non-'/' characters at the start of `s`. */
  function Token(s: string): (t: string)
    ensures t <= s && '/' !in t
    ensures |t| < |s| ==> s[|t|] == '/'
  {
    if s == [] || s[0] == '/' then [] else [s[0]] + Token(s[1..])
  }

  /** How many '/' characters `s` starts with. */
  function LeadingSlashes(s: string): (k: nat)
    ensures k <= |s| && s[..k] == Slashes(k)
    ensures k < |s| ==> s[k] != '/'
  {
    if s != [] && s[0] == '/' then 1 + LeadingSlashes(s[1..]) else 0
  }

  /** The first token `strtok(path, "/")` returns: leading slashes are
      skipped and the following run of non-'/' characters is taken; None
      when the path is nothing but slashes. */
  function FirstSegment(path: string): (r: Option<string>)
    ensures r == None <==> forall i :: 0 <= i < |path| ==> path[i] == '/'
    ensures r.Some? ==> r.value != [] && '/' !in r.value
  {
    if path == [] then None
    else if path[0] == '/' then
      assert forall i :: 1 <= i < |path| ==> path[i] == path[1..][i - 1];
      FirstSegment(path[1..])
    else Some(Token(path))
  }

  lemma {:induction false} TokenOf(t: string, rest: string)
    requires '/' !in t && (rest == [] || rest[0] == '/')
    ensures Token(t + rest) == t
  {
    if t == [] {
      assert t + rest == rest;
    } else {
      assert t[0] in t;
      assert (t + rest)[0] == t[0];
      assert (t + rest)[1..] == t[1..] + rest;
      assert forall c :: c in t[1..] ==> c in t;
      TokenOf(t[1..], rest);
    }
  }

  /** Any number of leading slashes, a segment, then nothing or a '/':
      the segment is what `strtok` returns. */
  lemma {:induction false} FirstSegmentOf(k: nat, t: string, rest: string)
    requires t != [] && '/' !in t && (rest == [] || rest[0] == '/')
    ensures FirstSegment(Slashes(k) + t + rest) == Some(t)
  {
    var p := Slashes(k) + t + rest;
    if k == 0 {
      assert p == t + rest;
      assert t[0] in t;
      assert p[0] == t[0];
      TokenOf(t, rest);
    } else {
      assert p[0] == '/';
      assert p[1..] == Slashes(k - 1) + t + rest;
      FirstSegmentOf(k - 1, t, rest);
    }
  }

  /** Conversely, a path with a first segment is made of leading slashes,
      that segment, and a remainder that is empty or starts with '/'. */
  lemma {:induction false} FirstSegmentSplits(path: string)
    requires FirstSegment(path).Some?
    ensures var k, t := LeadingSlashes(path), FirstSegment(path).value;
            && k + |t| <= |path|
            && path[k..k + |t|] == t
            && (k + |t| == |path| || path[k + |t|] == '/')
  {
    if path[0] == '/' {
      FirstSegmentSplits(path[1..]);
      var k, t := LeadingSlashes(path[1..]), FirstSegment(path[1..]).value;
      assert path[1..][k..k + |t|] == path[k + 1..k + 1 + |t|];
    }
  }

  /** The responders `request_handler` chooses between. */
  datatype Responder = StaticFiles | ReverseProxy | NoRoute

  const StaticSegment: string := "static"
  const ApiSegment: string := "api"

  /** `strcmp` of the first token with "static", then with "api"; no token
      or any other token gets the 404 branch. */
  function Route(path: string): (r: Responder)
    ensures r == StaticFiles <==> FirstSegment(path) == Some(StaticSegment)
    ensures r == ReverseProxy <==> FirstSegment(path) == Some(ApiSegment)
  {
    match FirstSegment(path)
    case None => NoRoute
    case Some(t) =>
      if t == StaticSegment then StaticFiles
      else if t == ApiSegment then ReverseProxy
      else NoRoute
  }

  /** The responder depends on the first segment only, compared exactly:
      a path of slashes, a segment and a remainder that is empty or starts
      with '/' is routed by the segment alone. */
  lemma RouteBySegment(k: nat, t: string, rest: string)
    requires t != [] && '/' !in t && (rest == [] || rest[0] == '/')
    ensures Route(Slashes(k) + t + rest) ==
      if t == StaticSegment then StaticFiles
      else if t == ApiSegment then ReverseProxy
      else NoRoute
  {
    FirstSegmentOf(k, t, rest);
  }

  /** A path made only of slashes (the empty path included) has no
      segment and is not routed. */
  lemma RouteWithoutSegment(path: string)
    requires forall i :: 0 <= i < |path| ==> path[i] == '/'
    ensures Route(path) == NoRoute
  {
  }

  /** A routed path has the routed segment right after its leading
      slashes, followed by the end of the path or a '/'. */
  lemma RouteShape(path: string)
    requires Route(path) != NoRoute
    ensures var k, t := LeadingSlashes(path), (if Route(path) == StaticFiles then StaticSegment else ApiSegment);
            && k + |t| <= |path|
            && path[..k] == Slashes(k)
            && path[k..k + |t|] == t
            && (k + |t| == |path| || path[k + |t|] == '/')
  {
    FirstSegmentSplits(path);
  }

  lemma RouteStaticExamples()
    ensures Route("//static/x") == StaticFiles
    ensures Route("/static") == StaticFiles
  {
    assert Slashes(1) == "/" && Slashes(2) == "//";
    RouteBySegment(2, "static", "/x");
    assert "//" + "static" + "/x" == "//static/x";
    RouteBySegment(1, "static", "");
    assert "/" + "static" + "" == "/static";
  }

  lemma RouteStaticIndex()
    ensures Route("/static/index.html") == StaticFiles
  {
    assert Slashes(1) == "/";
    RouteBySegment(1, "static", "/index.html");
    assert "/" + "static" + "/index.html" == "/static/index.html";
  }

  lemma RouteApiExample()
    ensures Route("/api/widgets") == ReverseProxy
  {
    assert Slashes(1) == "/";
    RouteBySegment(1, "api", "/widgets");
    assert "/" + "api" + "/widgets" == "/api/widgets";
  }

  /** Matching is exact: a segment that only starts with "static" or
      "api" is not routed. */
  lemma RouteExactExamples()
    ensures Route("/staticx/a") == NoRoute
    ensures Route("/apix") == NoRoute
    ensures Route("/unknown") == NoRoute
  {
    assert Slashes(1) == "/";
    RouteBySegment(1, "staticx", "/a");
    assert "/" + "staticx" + "/a" == "/staticx/a";
    RouteBySegment(1, "apix", "");
    assert "/" + "apix" + "" == "/apix";
    RouteBySegment(1, "unknown", "");
    assert "/" + "unknown" + "" == "/unknown";
  }

  lemma RouteEmptyExamples()
    ensures Route("/") == NoRoute && Route("//") == NoRoute && Route("") == NoRoute
  {
    RouteWithoutSegment("/");
    RouteWithoutSegment("//");
    RouteWithoutSegment("");
  }

  /** strlen("/api"): how many characters the rewrite drops. */
  const ApiPrefixLength: nat := 4

  /** The path forwarded to the backend: the request path without its
      first four characters, or "/" when nothing is left. */
  function ApiPath(path: string): (r: string)
    requires |path| >= ApiPrefixLength
    ensures r != []
    ensures IsCString(path) ==> IsCString(r)
  {
    if |path| == ApiPrefixLength then "/" else path[ApiPrefixLength..]
  }

  /** A path that starts with '/' and is routed to the proxy is long
      enough for the rewrite to stay inside it. */
  lemma ApiPathInBounds(path: string)
    requires path != [] && path[0] == '/' && Route(path) == ReverseProxy
    ensures |path| >= ApiPrefixLength
  {
    RouteShape(path);
  }

  /** "/api" followed by `rest` is forwarded as `rest`, or as "/" when
      `rest` is empty. */
  lemma ApiPathStripsPrefix(rest: string)
    ensures ApiPath("/api" + rest) == if rest == [] then "/" else rest
  {
    assert ("/api" + rest)[ApiPrefixLength..] == rest;
  }

  lemma ApiPathExamples()
    ensures ApiPath("/api/widgets") == "/widgets"
    ensures ApiPath("/api") == "/" && ApiPath("/api/") == "/"
  {
    ApiPathStripsPrefix("/widgets");
    assert "/api" + "/widgets" == "/api/widgets";
    ApiPathStripsPrefix("");
    assert "/api" + "" == "/api";
    ApiPathStripsPrefix("/");
    assert "/api" + "/" == "/api/";
  }

  /** The rewrite counts characters, not segments: with two leading
      slashes the router still picks the proxy, but the forwarded path
      keeps the tail of the segment. */
  lemma ApiPathWithDoubleSlash()
    ensures Route("//api/x") == ReverseProxy
    ensures ApiPath("//api/x") == "i/x"
  {
    assert Slashes(2) == "//";
    RouteBySegment(2, "api", "/x");
    assert "//" + "api" + "/x" == "//api/x";
  }
}
