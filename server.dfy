/** `request_handler`: what each request gets back.  The file system, the
    backend connection and the return codes of the library calls it makes
    are inputs (an `Env`); the handler is a function of the request and of
    those outcomes.  `HandleRequest` performs the same steps, building the
    outbound request in a buffer as the source does, and is proved to agree
    with the function. */
module Server {
  import opened CStrings
  import opened HttpFraming
  import opened Routing
  import opened ProxyRequest

  /** The fields of the parsed request the handler reads. */
  datatype Request = Request(verb: string, path: string, body: seq<char>, bodyLength: nat)

  /** What `response_builder(code, text, body)` records. */
  datatype Response = Response(code: int, text: string, body: string)

  /** What `access(path, R_OK)`, `open(path, O_RDONLY)` and `read` report
      for a path that exists; a path absent from the map does not exist. */
  datatype FileEntry = FileEntry(readable: bool, openable: bool, contents: seq<char>)

  /** The outcomes of everything outside the handler that it depends on. */
  datatype Env = Env(
    maxBuffer: nat,                  // MAX_BUFFER_SIZE
    pathMax: nat,                    // PATH_MAX
    baseDir: string,                 // realpath(BASE_DIR, NULL)
    files: map<string, FileEntry>,   // the file system
    pathFormatFails: bool,           // snprintf of the file path returns < 0
    proxyFormatFails: bool,          // snprintf of the proxy request returns < 0
    backendFd: int,                  // connect_to_backend("localhost", "8000")
    recvLen: int,                    // return value of recv
    received: seq<char>)             // the bytes recv stored

  /** The outbound request: what the buffer holds once the body is
      appended, and the bytes passed to `send`. */
  datatype Forwarded = Forwarded(assembled: string, sent: string)

  /** The response, and the outbound request when one was sent. */
  datatype Exchange = Exchange(response: Response, forwarded: Option<Forwarded>)

  const NotFound := Response(404, "Not Found", "<h1>404 Not Found</h1>")
  const PathFormatError := Response(404, "Not Found", "<h1>snprintf() error</h1>")
  const Forbidden := Response(403, "Forbidden", "<h1>403 Forbidden</h1>")
  const ProxyFormatError := Response(500, "Internal Server Error", "<h1>proxy snprintf() error</h1>")
  const BackendUnavailable := Response(502, "Bad Gateway", "<h1>502 Bad Gateway: Backend Unavailable</h1>")
  const BackendReadFailed := Response(502, "Bad Gateway", "<h1>502 Bad Gateway: Failed to Read from Backend</h1>")

  /** The reason phrase belonging to each status code the server uses. */
  function ReasonPhrase(code: int): string {
    match code
    case 200 => "OK"
    case 403 => "Forbidden"
    case 404 => "Not Found"
    case 500 => "Internal Server Error"
    case 502 => "Bad Gateway"
    case _ => ""
  }

  // ----- static files -----

  /** `snprintf(filepath, PATH_MAX, "%s/%s", realpath(BASE_DIR), path)`:
      the whole request path (its "/static" segment included) under the
      base directory, cut to what fits in the buffer. */
  function StaticFilePath(baseDir: string, path: string, pathMax: nat): (fp: string)
    requires pathMax > 0
    ensures fp <= baseDir + "/" + path && |fp| < pathMax
    ensures |fp| == if |baseDir| + 1 + |path| < pathMax then |baseDir| + 1 + |path| else pathMax - 1
  {
    Truncate(baseDir + "/" + path, pathMax)
  }

  /** `read(fd, buffer, size)`: at most `size` bytes of the file. */
  function FileRead(contents: seq<char>, size: nat): (r: seq<char>)
    ensures r <= contents && |r| <= size
    ensures |contents| <= size ==> r == contents
  {
    if |contents| <= size then contents else contents[..size]
  }

  /** The static branch: the format check, then `access`, then `open`. */
  function StaticRespond(path: string, env: Env): (r: Response)
    requires env.pathMax > 0
    ensures r.code in {200, 403, 404} && r.text == ReasonPhrase(r.code)
    ensures r.code == 200 ==> |r.body| <= env.maxBuffer && IsCString(r.body)
  {
    if env.pathFormatFails then PathFormatError
    else
      var fp := StaticFilePath(env.baseDir, path, env.pathMax);
      if fp !in env.files || !env.files[fp].readable then Forbidden
      else if !env.files[fp].openable then NotFound
      else Response(200, "OK", CStr(FileRead(env.files[fp].contents, env.maxBuffer)))
  }

  // ----- reverse proxy -----

  /** What is left of the reply once `proxy_response[len] = '\0'` ends the
      received bytes and `strstr` skips the head. */
  function BackendBody(received: seq<char>, recvLen: nat): (b: string)
    requires recvLen <= |received|
    ensures var reply := CStr(received[..recvLen]);
            IsCString(b) && |b| <= |reply| && b == reply[|reply| - |b|..]
  {
    BodyAfterSeparator(CStr(received[..recvLen]))
  }

  /** The head the proxy formats for a request. */
  function ProxyHead(req: Request): string
    requires |req.path| >= ApiPrefixLength
  {
    RequestHead(req.verb, ApiPath(req.path), req.bodyLength)
  }

  /** Head and appended body leave room for the terminator in the
      `MAX_BUFFER_SIZE` buffer (what `strncat` needs to stay inside it). */
  predicate ProxyFits(req: Request, env: Env)
    requires |req.path| >= ApiPrefixLength
  {
    |ProxyHead(req)| + |StrnPrefix(req.body, req.bodyLength)| < env.maxBuffer
  }

  /** The api branch: format check, connect, send, recv, split. */
  function ProxyRespond(req: Request, env: Env): (x: Exchange)
    requires |req.path| >= ApiPrefixLength
    requires env.recvLen <= |env.received|
    ensures x.response.code in {200, 500, 502} && x.response.text == ReasonPhrase(x.response.code)
    ensures x.forwarded.Some? <==> !env.proxyFormatFails && env.backendFd != -1
    ensures x.forwarded.Some? ==>
              && x.forwarded.value.sent == ProxyHead(req)
              && x.forwarded.value.assembled == ProxyHead(req) + StrnPrefix(req.body, req.bodyLength)
  {
    if env.proxyFormatFails then Exchange(ProxyFormatError, None)
    else if env.backendFd == -1 then Exchange(BackendUnavailable, None)
    else
      var head := ProxyHead(req);
      var fwd := Forwarded(head + StrnPrefix(req.body, req.bodyLength), head);
      if env.recvLen < 0 then Exchange(BackendReadFailed, Some(fwd))
      else Exchange(Response(200, "OK", BackendBody(env.received, env.recvLen)), Some(fwd))
  }

  // ----- the handler -----

  /** The outcomes the library calls can produce: buffers of positive
      size, a descriptor or -1 from `connect_to_backend`, and a reply that
      leaves room in `proxy_response` for the terminator written after it. */
  predicate ValidEnv(env: Env) {
    && env.maxBuffer > 0 && env.pathMax > 0
    && env.backendFd >= -1
    && env.recvLen < env.maxBuffer && env.recvLen <= |env.received|
  }

  /** What the handler needs of its inputs so that no C call leaves its
      buffer: C strings for method and path, buffers of positive size, a
      path long enough for the "/api" offset, room in the proxy buffer
      (unless nothing is copied and nothing is sent, since the backend is
      down), and a reply that leaves room for the terminator the handler
      writes after it. */
  predicate WellFormed(req: Request, env: Env) {
    && IsCString(req.verb) && IsCString(req.path)
    && ValidEnv(env)
    && (Route(req.path) == ReverseProxy ==>
          && |req.path| >= ApiPrefixLength
          && (!env.proxyFormatFails ==>
                || ProxyFits(req, env)
                || (StrnPrefix(req.body, req.bodyLength) == [] && env.backendFd == -1)))
  }

  function RequestHandler(req: Request, env: Env): (x: Exchange)
    requires WellFormed(req, env)
    ensures x.response.code in {200, 403, 404, 500, 502} && x.response.text == ReasonPhrase(x.response.code)
    ensures x.forwarded.Some? ==> Route(req.path) == ReverseProxy
    ensures Route(req.path) == NoRoute ==> x == Exchange(NotFound, None)
  {
    match Route(req.path)
    case StaticFiles => Exchange(StaticRespond(req.path, env), None)
    case ReverseProxy => ProxyRespond(req, env)
    case NoRoute => Exchange(NotFound, None)
  }

  /** `request_handler` step by step: the outbound request is formatted
      into a `MAX_BUFFER_SIZE` buffer, the body is appended in place, and
      the length `snprintf` returned decides how much of the buffer is
      sent. */
  method HandleRequest(req: Request, env: Env) returns (x: Exchange)
    requires WellFormed(req, env)
    ensures x == RequestHandler(req, env)
  {
    var route := Route(req.path);
    if route == StaticFiles {
      return Exchange(StaticRespond(req.path, env), None);
    } else if route == NoRoute {
      return Exchange(NotFound, None);
    }
    var target := ApiPath(req.path);
    var head := RequestHead(req.verb, target, req.bodyLength);
    var buf := new RequestBuffer(env.maxBuffer);
    var n := buf.Format(head, env.proxyFormatFails);
    if n < 0 {
      return Exchange(ProxyFormatError, None);
    }
    buf.Append(req.body, req.bodyLength);
    if env.backendFd == -1 {
      return Exchange(BackendUnavailable, None);
    }
    assert buf.Contents() == head + StrnPrefix(req.body, req.bodyLength);
    assert buf.Prefix(n) == buf.Contents()[..n] == head;
    var fwd := Forwarded(buf.Contents(), buf.Prefix(n));
    if env.recvLen < 0 {
      return Exchange(BackendReadFailed, Some(fwd));
    }
    var body := BackendBody(env.received, env.recvLen);
    return Exchange(Response(200, "OK", body), Some(fwd));
  }

  // ----- properties -----

  /** Every response carries one of the five status codes the server uses,
      with its reason phrase. */
  lemma StatusCodesProduced(req: Request, env: Env)
    requires WellFormed(req, env)
    ensures var r := RequestHandler(req, env).response;
            && r.code in {200, 403, 404, 500, 502}
            && r.text == ReasonPhrase(r.code)
  {
  }

  /** A path with no segment (empty, "/", "//", ...) gets the 404 page and
      nothing is forwarded. */
  lemma NoSegmentIsNotFound(req: Request, env: Env)
    requires WellFormed(req, env)
    requires forall i :: 0 <= i < |req.path| ==> req.path[i] == '/'
    ensures RequestHandler(req, env) == Exchange(NotFound, None)
  {
    RouteWithoutSegment(req.path);
  }

  /** A first segment other than "static" and "api" (one that only starts
      with them included) gets the 404 page, whatever follows it. */
  lemma OtherSegmentIsNotFound(req: Request, env: Env, k: nat, t: string, rest: string)
    requires WellFormed(req, env)
    requires req.path == Slashes(k) + t + rest
    requires t != [] && '/' !in t && (rest == [] || rest[0] == '/')
    requires t != StaticSegment && t != ApiSegment
    ensures RequestHandler(req, env) == Exchange(NotFound, None)
  {
    RouteBySegment(k, t, rest);
  }

  /** The static checks in their order: a format error decides first, then
      readability (a missing file fails `access` too, so it gets 403), then
      `open`; only a file that passes all three is served, as at most
      `MAX_BUFFER_SIZE` bytes of its contents up to the first NUL. */
  lemma StaticOutcomes(path: string, env: Env)
    requires env.pathMax > 0
    ensures var r, fp := StaticRespond(path, env), StaticFilePath(env.baseDir, path, env.pathMax);
            && (env.pathFormatFails ==> r == PathFormatError)
            && (!env.pathFormatFails && fp !in env.files ==> r == Forbidden)
            && (r == Forbidden <==> !env.pathFormatFails && !(fp in env.files && env.files[fp].readable))
            && (r == NotFound <==> !env.pathFormatFails && fp in env.files && env.files[fp].readable && !env.files[fp].openable)
            && (r.code == 200 <==> !env.pathFormatFails && fp in env.files && env.files[fp].readable && env.files[fp].openable)
            && (r.code == 200 ==> r.text == "OK" && r.body <= env.files[fp].contents && |r.body| <= env.maxBuffer)
  {
  }

  /** A readable, openable file that has no NUL and fits in the buffer is
      served whole. */
  lemma StaticServesWholeFile(path: string, env: Env)
    requires env.pathMax > 0 && !env.pathFormatFails
    requires var fp := StaticFilePath(env.baseDir, path, env.pathMax);
             && fp in env.files && env.files[fp].readable && env.files[fp].openable
             && IsCString(env.files[fp].contents) && |env.files[fp].contents| <= env.maxBuffer
    ensures StaticRespond(path, env) ==
            Response(200, "OK", env.files[StaticFilePath(env.baseDir, path, env.pathMax)].contents)
  {
    CStrOfCString(env.files[StaticFilePath(env.baseDir, path, env.pathMax)].contents);
  }

  /** The file looked up is the base directory, a '/', and the whole
      request path, when that fits in `PATH_MAX`. */
  lemma StaticFilePathUsesRequestPath(baseDir: string, path: string, pathMax: nat)
    requires |baseDir| + 1 + |path| < pathMax
    ensures StaticFilePath(baseDir, path, pathMax) == baseDir + "/" + path
  {
  }

  /** The proxy checks in their order: a format error answers 500 before
      any connection is tried; a failed connection answers 502 before
      anything is sent; after sending, a failed recv answers 502. */
  lemma ProxyFailures(req: Request, env: Env)
    requires |req.path| >= ApiPrefixLength && env.recvLen <= |env.received|
    ensures env.proxyFormatFails ==> ProxyRespond(req, env) == Exchange(ProxyFormatError, None)
    ensures !env.proxyFormatFails && env.backendFd == -1 ==>
            ProxyRespond(req, env) == Exchange(BackendUnavailable, None)
    ensures !env.proxyFormatFails && env.backendFd != -1 && env.recvLen < 0 ==>
            ProxyRespond(req, env).response == BackendReadFailed && ProxyRespond(req, env).forwarded.Some?
  {
  }

  /** With nothing to copy and the backend down, the buffer need not hold
      the head: `snprintf` only truncates, `strncat` writes its terminator
      inside the buffer, and nothing is sent, so the handler is defined
      for every head length and answers 502 "Backend Unavailable". */
  lemma LongHeadBackendDown(req: Request, env: Env)
    requires IsCString(req.verb) && IsCString(req.path) && ValidEnv(env)
    requires Route(req.path) == ReverseProxy && |req.path| >= ApiPrefixLength
    requires !env.proxyFormatFails && env.backendFd == -1
    requires StrnPrefix(req.body, req.bodyLength) == []
    ensures WellFormed(req, env)
    ensures RequestHandler(req, env) == Exchange(BackendUnavailable, None)
  {
  }

  /** The byte count given to `send` is the length of the head measured
      before the body was appended: what goes to the backend is the head
      alone, while the buffer holds the head followed by the copied body. */
  lemma ProxySendsHeadOnly(req: Request, env: Env)
    requires WellFormed(req, env) && Route(req.path) == ReverseProxy
    requires RequestHandler(req, env).forwarded.Some?
    ensures var f, copied := RequestHandler(req, env).forwarded.value, StrnPrefix(req.body, req.bodyLength);
            && f.sent == RequestHead(req.verb, ApiPath(req.path), req.bodyLength)
            && f.assembled == f.sent + copied
            && |f.sent| == |f.assembled| - |copied|
  {
  }

  /** Concretely: a one-byte body is copied into the buffer but not sent. */
  lemma ProxyDropsBodyExample(req: Request, env: Env)
    requires WellFormed(req, env) && Route(req.path) == ReverseProxy
    requires !env.proxyFormatFails && env.backendFd != -1
    requires req.body == "x" && req.bodyLength == 1
    ensures var f := RequestHandler(req, env).forwarded.value;
            f.assembled == f.sent + "x" && |f.sent| < |f.assembled|
  {
    assert StrnPrefix("x", 1) == "x" by {
      assert "x"[1..] == [];
    }
  }

  /** The buffer is framed so that a receiver splitting it at the first
      "\r\n\r\n" finds the copied body, and its Content-Length reads back
      as the inbound body length (when method and path hold no CR). */
  lemma ForwardedBufferIsFramed(req: Request, env: Env)
    requires WellFormed(req, env) && Route(req.path) == ReverseProxy
    requires RequestHandler(req, env).forwarded.Some?
    requires '\r' !in req.verb && '\r' !in req.path
    ensures BodyAfterSeparator(RequestHandler(req, env).forwarded.value.assembled) ==
            StrnPrefix(req.body, req.bodyLength)
    ensures ParseDecimal(Decimal(req.bodyLength)) == req.bodyLength
  {
    ProxySendsHeadOnly(req, env);
    var target := ApiPath(req.path);
    assert '\r' !in target by {
      assert forall c :: c in req.path[ApiPrefixLength..] ==> c in req.path;
    }
    ForwardedRequestSplits(req.verb, target, req.bodyLength, StrnPrefix(req.body, req.bodyLength));
  }

  /** After a successful exchange the status is 200 "OK" whatever status
      the backend sent, and the body is what follows the backend's head:
      for a reply made of CR-free lines, an empty line and a NUL-free body,
      exactly that body. */
  lemma ProxyReplyBody(req: Request, env: Env, lines: seq<string>, body: string)
    requires WellFormed(req, env) && Route(req.path) == ReverseProxy
    requires !env.proxyFormatFails && env.backendFd != -1 && env.recvLen >= 0
    requires lines != [] && forall i :: 0 <= i < |lines| ==> PlainLine(lines[i])
    requires IsCString(Lines(lines)) && IsCString(body)
    requires env.received[..env.recvLen] == Lines(lines) + CRLF + body
    ensures RequestHandler(req, env).response == Response(200, "OK", body)
  {
    ProxySucceeds(req, env);
    FramedReplyBody(env.received, env.recvLen, lines, body);
  }

  /** Once the backend has answered, the client gets 200 "OK" and the
      part of the reply after its head. */
  lemma ProxySucceeds(req: Request, env: Env)
    requires WellFormed(req, env) && Route(req.path) == ReverseProxy
    requires !env.proxyFormatFails && env.backendFd != -1 && env.recvLen >= 0
    ensures RequestHandler(req, env).response == Response(200, "OK", BackendBody(env.received, env.recvLen))
  {
  }

  lemma FramedReplyBody(received: seq<char>, recvLen: nat, lines: seq<string>, body: string)
    requires recvLen <= |received|
    requires lines != [] && forall i :: 0 <= i < |lines| ==> PlainLine(lines[i])
    requires IsCString(Lines(lines)) && IsCString(body)
    requires received[..recvLen] == Lines(lines) + CRLF + body
    ensures BackendBody(received, recvLen) == body
  {
    var reply := Lines(lines) + CRLF + body;
    assert IsCString(reply) by {
      assert NUL !in CRLF;
    }
    CStrOfCString(reply);
    LineBreaks(lines);
    HeadSplit(Lines(lines), body);
  }

  /** A reply whose first "\r\n\r\n" starts at `k` is passed on from
      `k + 4`; the reply is what was received up to its first NUL. */
  lemma ProxyReplyAfterSeparator(received: seq<char>, recvLen: nat, k: nat)
    requires recvLen <= |received|
    requires var reply := CStr(received[..recvLen]);
             SeparatorAt(reply, k) && forall j :: 0 <= j < k ==> !SeparatorAt(reply, j)
    ensures BackendBody(received, recvLen) == CStr(received[..recvLen])[k + 4..]
  {
    FindFromFinds(CStr(received[..recvLen]), 0, k);
  }

  /** A reply without any "\r\n\r\n" is passed on whole, up to its first
      NUL. */
  lemma ProxyReplyWithoutSeparator(received: seq<char>, recvLen: nat)
    requires recvLen <= |received|
    requires var reply := CStr(received[..recvLen]);
             forall j :: 0 <= j < |reply| ==> !SeparatorAt(reply, j)
    ensures BackendBody(received, recvLen) == CStr(received[..recvLen])
  {
    FindSeparatorIsFirst(CStr(received[..recvLen]));
  }

  // ----- scenarios -----

  /** The literals the scenarios use are C strings. */
  lemma ScenarioLiterals()
    ensures IsCString("GET") && IsCString("/static/index.html") && IsCString("<p>hi</p>")
    ensures IsCString("/api/widgets") && IsCString("/unknown") && IsCString("{\"id\":1}")
  {
  }

  /** A static request for a file that passes every check, has no NUL
      and fits in the buffer is answered 200 "OK" with the whole file. */
  lemma StaticRequestServed(req: Request, env: Env)
    requires WellFormed(req, env) && Route(req.path) == StaticFiles && !env.pathFormatFails
    requires var fp := StaticFilePath(env.baseDir, req.path, env.pathMax);
             && fp in env.files && env.files[fp].readable && env.files[fp].openable
             && IsCString(env.files[fp].contents) && |env.files[fp].contents| <= env.maxBuffer
    ensures RequestHandler(req, env) ==
            Exchange(Response(200, "OK", env.files[StaticFilePath(env.baseDir, req.path, env.pathMax)].contents), None)
  {
    StaticServesWholeFile(req.path, env);
  }

  /** GET /static/index.html with index.html holding "<p>hi</p>" under the
      base directory: 200 "OK" with the file as body. */
  lemma StaticIndexScenario(req: Request, env: Env)
    requires req == Request("GET", "/static/index.html", [], 0)
    requires ValidEnv(env) && env.maxBuffer >= 9 && !env.pathFormatFails
    requires |env.baseDir| + 1 + |req.path| < env.pathMax
    requires env.baseDir + "/" + req.path in env.files
    requires env.files[env.baseDir + "/" + req.path] == FileEntry(true, true, "<p>hi</p>")
    ensures WellFormed(req, env)
    ensures RequestHandler(req, env).response == Response(200, "OK", "<p>hi</p>")
  {
    RouteStaticIndex();
    ScenarioLiterals();
    StaticFilePathUsesRequestPath(env.baseDir, req.path, env.pathMax);
    StaticRequestServed(req, env);
  }

  /** The reply of the api scenario is a one-line head, an empty line and
      the body. */
  lemma WidgetsReplyIsFramed()
    ensures "HTTP/1.1 201 Created\r\n\r\n{\"id\":1}" == Lines(["HTTP/1.1 201 Created"]) + CRLF + "{\"id\":1}"
    ensures PlainLine("HTTP/1.1 201 Created") && IsCString(Lines(["HTTP/1.1 201 Created"]))
  {
    var lines := ["HTTP/1.1 201 Created"];
    assert Lines(lines[1..]) == [];
    assert Lines(lines) == "HTTP/1.1 201 Created" + CRLF;
  }

  /** GET /api/widgets with a backend that answers "HTTP/1.1 201 Created",
      an empty line and {"id":1}: the backend is sent "GET /widgets
      HTTP/1.1" with a zero Content-Length, and the client gets 200 "OK"
      with body {"id":1}. */
  lemma ApiWidgetsScenario(req: Request, env: Env)
    requires req == Request("GET", "/api/widgets", [], 0)
    requires ValidEnv(env) && env.maxBuffer >= 1024 && !env.proxyFormatFails && env.backendFd >= 0
    requires env.received == "HTTP/1.1 201 Created\r\n\r\n{\"id\":1}" && env.recvLen == |env.received|
    ensures WellFormed(req, env)
    ensures RequestHandler(req, env).response == Response(200, "OK", "{\"id\":1}")
    ensures RequestHandler(req, env).forwarded.Some?
    ensures RequestHandler(req, env).forwarded.value.sent == RequestHead("GET", "/widgets", 0)
  {
    RouteApiExample();
    ApiPathExamples();
    ScenarioLiterals();
    assert StrnPrefix(req.body, req.bodyLength) == [];
    RequestHeadLength("GET", "/widgets", 0);
    assert WellFormed(req, env);
    WidgetsReplyIsFramed();
    assert env.received[..env.recvLen] == env.received;
    ProxyReplyBody(req, env, ["HTTP/1.1 201 Created"], "{\"id\":1}");
    ProxySendsHeadOnly(req, env);
  }

  /** GET /unknown: 404 "Not Found" with the 404 page. */
  lemma UnknownScenario(req: Request, env: Env)
    requires req == Request("GET", "/unknown", [], 0) && ValidEnv(env)
    ensures WellFormed(req, env)
    ensures RequestHandler(req, env).response == Response(404, "Not Found", "<h1>404 Not Found</h1>")
  {
    RouteExactExamples();
    ScenarioLiterals();
  }

  // ----- launch -----

  datatype LaunchOutcome = SocketBindError | SocketListenError | Serving

  /** `launch` before its loop: bind is tried first and its failure is
      reported without listening; a listen failure is reported next;
      otherwise the server serves for ever. */
  function Launch(bindResult: int, listenResult: int): (r: LaunchOutcome)
    ensures r == SocketBindError <==> bindResult < 0
    ensures r == SocketListenError <==> bindResult >= 0 && listenResult < 0
    ensures r == Serving <==> bindResult >= 0 && listenResult >= 0
  {
    if bindResult < 0 then SocketBindError
    else if listenResult < 0 then SocketListenError
    else Serving
  }
}
