# 1lang1server (C server): request dispatch

This project models `request_handler` of the C HTTP server in
`c-server/src/http/server.c`. It proves what each request gets back:

- **Routing.** The responder is picked by the first `/`-separated path
  segment, as `strtok(path, "/")` returns it. `static` selects the static
  file responder, `api` the reverse proxy, and anything else (including no
  segment) the 404 page.
- **Static files.** The file path is the base directory, a `/` and the whole
  request path, cut to `PATH_MAX`. A formatting error, then an `access`
  failure, then an `open` failure are checked in that order. Otherwise at
  most `MAX_BUFFER_SIZE` bytes of the file are served with 200 "OK".
- **Reverse proxy.** The forwarded path is the request path without its
  first four characters (`"/api"`), or `/` when nothing is left. An
  outbound request head is formatted into a fixed-size buffer with
  `snprintf`: a request line per section 3 of RFC 9112, then `Host`,
  `Content-Length` (section 6.2 of RFC 9112) and `Connection` fields, then
  an empty line. The inbound body is then appended in place with `strncat`.
  Only the number of bytes `snprintf` returned is passed to `send`. The
  backend's reply is cut at its first `"\r\n\r\n"` (section 2.1 of RFC
  9112), and whatever follows is returned with status 200 "OK".
- **Launch.** Only the bind and listen outcomes of `launch` are modelled.

Modules, one per file:

| file | module | content |
|---|---|---|
| `cstrings.dfy` | `CStrings` | C string conventions: `strncat`'s copy rule, the C string a buffer holds, `snprintf` truncation, `%zu` digits |
| `http_framing.dfy` | `HttpFraming` | `strstr(s, "\r\n\r\n")` as an index search, CRLF-terminated header lines |
| `routing.dfy` | `Routing` | `strtok`'s first token, the responder choice, the `/api` rewrite |
| `proxy_request.dfy` | `ProxyRequest` | the outbound head, and `RequestBuffer`: the `proxy_request` array with the length of the C string it holds, written by `Format` (`snprintf`) and `Append` (`strncat`) |
| `server.dfy` | `Server` | the outcomes of the library calls (`Env`), the handler as a function (`RequestHandler`), the handler as a method over the buffer (`HandleRequest`, proved equal to the function), properties and scenarios, `Launch` |

Everything outside the handler's own logic is an input. That covers the
file system (a map from path to readability, openability and contents),
the `snprintf` error flags, the descriptor `connect_to_backend` returns,
and the length and bytes `recv` returns. `MAX_BUFFER_SIZE`, `PATH_MAX`
and `realpath(BASE_DIR)` are defined in headers that are not part of this
model, so they are inputs as well.

A Dafny `char` stands for one C byte (`char`). Every length the model
compares with `MAX_BUFFER_SIZE` or `PATH_MAX` is therefore a byte count, as
in the source.

## Model

| member | source | states |
|---|---|---|
| CStrings.StrnPrefix | c-server/src/http/server.c:157 | `strncat` copies a prefix of the source of at most `count` characters with no NUL in it; it stops short of `count` and of the source's end only at a NUL |
| CStrings.StrnPrefixOfCString | c-server/src/http/server.c:157 | a source without NUL is copied whole, or its first `count` characters when it is longer |
| CStrings.CStr | c-server/src/http/server.c:178-184 | the C string a buffer holds is a NUL-free prefix of it, followed by a NUL unless it is the whole buffer |
| CStrings.CStrOfCString | c-server/src/http/server.c:178 | a buffer holding exactly a NUL-free text reads back as that text |
| CStrings.Truncate | c-server/src/http/server.c:104-105 | `snprintf` into a buffer of `size` keeps a prefix of the text: the whole text when it fits, otherwise exactly its first `size - 1` characters |
| CStrings.Decimal | c-server/src/http/server.c:145-148 | `%zu` prints a non-empty string of decimal digits, with a leading `0` only for zero |
| CStrings.DecimalRoundTrip | c-server/src/http/server.c:145-148 | reading the printed Content-Length digits back gives the body length |
| HttpFraming.FindFrom | c-server/src/http/server.c:182 | the scan from index `i` reports only a position at or after `i` where the separator starts |
| HttpFraming.FindSeparator | c-server/src/http/server.c:182 | `strstr` for `"\r\n\r\n"` reports only a position where the separator starts |
| HttpFraming.FindSeparatorIsFirst | c-server/src/http/server.c:182 | `strstr` for `"\r\n\r\n"` returns a position where the separator starts with none before it, and reports no match exactly when the separator occurs nowhere |
| HttpFraming.FindFromFinds | c-server/src/http/server.c:182 | conversely, a separator with none before it is the one the search returns |
| HttpFraming.BodyAfterSeparator | c-server/src/http/server.c:182-186 | the kept body is a suffix of the reply |
| HttpFraming.LineBreaks | c-server/src/http/server.c:143-147 | a head of non-empty CR-free lines, each ended by CRLF, ends with CRLF and contains no CR that is not followed by LF and then by a non-CR |
| HttpFraming.HeadSplit | c-server/src/http/server.c:182-186 | after such a head and an empty line, the first separator is the one ending the head, and what follows is exactly the body, whatever the body holds |
| Routing.Token | c-server/src/http/server.c:97 | the run of non-`/` characters at the start is a prefix without `/`, ended by `/` unless it is the whole text |
| Routing.FirstSegment | c-server/src/http/server.c:96-99 | `strtok` finds no token exactly when the path is all slashes (the empty path included); a token is non-empty and holds no `/` |
| Routing.FirstSegmentOf | c-server/src/http/server.c:97 | after any number of leading slashes, a segment followed by the end or a `/` is the token |
| Routing.FirstSegmentSplits | c-server/src/http/server.c:97 | conversely, the token sits right after the leading slashes and is followed by the end or a `/` |
| Routing.Route | c-server/src/http/server.c:96-199 | the static responder is chosen exactly when the first token is `static`, the proxy exactly when it is `api`; everything else is the 404 branch |
| Routing.RouteBySegment | c-server/src/http/server.c:99-101 | the responder depends on the first segment alone: static for exactly `static`, proxy for exactly `api`, 404 for any other |
| Routing.RouteWithoutSegment | c-server/src/http/server.c:97-99 | a path of slashes only is not routed |
| Routing.RouteShape | c-server/src/http/server.c:96-101 | a routed path is leading slashes, then `static` or `api`, then the end or a `/` |
| Routing.RouteStaticExamples | c-server/src/http/server.c:96-101 | `//static/x` and `/static` go to the static responder |
| Routing.RouteStaticIndex | c-server/src/http/server.c:84-86 | `/static/index.html` goes to the static responder |
| Routing.RouteApiExample | c-server/src/http/server.c:134 | `/api/widgets` goes to the proxy |
| Routing.RouteExactExamples | c-server/src/http/server.c:191-194 | `/staticx/a`, `/apix` and `/unknown` are not routed (the comparison is exact) |
| Routing.RouteEmptyExamples | c-server/src/http/server.c:198-199 | `/`, `//` and the empty path are not routed |
| Routing.ApiPath | c-server/src/http/server.c:137-138 | the forwarded path is never empty and is a C string when the request path is |
| Routing.ApiPathInBounds | c-server/src/http/server.c:137 | a `/`-led path routed to the proxy has at least four characters, so the offset stays inside it |
| Routing.ApiPathStripsPrefix | c-server/src/http/server.c:137-138 | `/api` followed by `rest` is forwarded as `rest`, or as `/` when `rest` is empty |
| Routing.ApiPathExamples | c-server/src/http/server.c:137-138 | `/api/widgets` becomes `/widgets`; `/api` and `/api/` both become `/` |
| Routing.ApiPathWithDoubleSlash | c-server/src/http/server.c:134-137 | `//api/x` is routed to the proxy but forwarded as `i/x`: the rewrite counts characters, not segments |
| ProxyRequest.RequestHead | c-server/src/http/server.c:141-148 | the formatted head is a C string when the method and the path are |
| ProxyRequest.RequestHeadLength | c-server/src/http/server.c:141-148 | the head is the method, the path, the length digits and 68 fixed characters long |
| ProxyRequest.RequestHeadIsFramed | c-server/src/http/server.c:143-147 | the head is four CRLF-terminated lines (request line, Host, Content-Length, Connection) and an empty line |
| ProxyRequest.ForwardedRequestSplits | c-server/src/http/server.c:141-157 | a receiver that splits head plus appended body at the first separator gets exactly the appended body, and the Content-Length field reads back as the body length (for CR-free method and path) |
| ProxyRequest.RequestBuffer.constructor | c-server/src/http/server.c:140 | a fresh buffer of the given capacity holding the empty C string |
| ProxyRequest.RequestBuffer.Contents | c-server/src/http/server.c:140 | the held C string is NUL-free and shorter than the buffer |
| ProxyRequest.RequestBuffer.Prefix | c-server/src/http/server.c:166 | `send` of `n` bytes transmits `n` characters of the buffer |
| ProxyRequest.RequestBuffer.Format | c-server/src/http/server.c:141-154 | `snprintf` returns a negative value on failure; otherwise it returns the full length of the text, and the buffer holds what fits of the text with a terminator |
| ProxyRequest.RequestBuffer.Append | c-server/src/http/server.c:157 | `strncat` leaves the old contents in place, followed by the characters `strncat` copies, and a terminator |
| Server.StaticFilePath | c-server/src/http/server.c:103-105 | the looked-up path is a prefix of the base directory, `/` and the request path: all of it when it is shorter than `PATH_MAX`, otherwise exactly its first `PATH_MAX - 1` characters |
| Server.StaticRespond | c-server/src/http/server.c:101-132 | the static branch answers 200, 403 or 404 with the matching reason phrase, and a 200 body is a NUL-free text of at most `MAX_BUFFER_SIZE` characters |
| Server.BackendBody | c-server/src/http/server.c:178-186 | the returned body is a NUL-free suffix of the terminated reply |
| Server.ProxyRespond | c-server/src/http/server.c:134-189 | the api branch answers 200, 500 or 502 with the matching reason phrase; a request goes out exactly when formatting and connecting succeed, and then the head is sent while the buffer holds the head followed by the copied body |
| Server.RequestHandler | c-server/src/http/server.c:94-200 | every response has status 200, 403, 404, 500 or 502 with its reason phrase; only a request routed to the proxy forwards anything; an unrouted path gets the 404 page |
| Server.FileRead | c-server/src/http/server.c:126-127 | `read` yields a prefix of the file of at most the buffer size, and the whole file when it fits |
| Server.HandleRequest | c-server/src/http/server.c:94-200 | the stepwise handler (buffer formatted, body appended, `n` bytes sent) returns the response and outbound request `RequestHandler` defines |
| Server.StatusCodesProduced | c-server/src/http/server.c:107-198 | every response has status 200, 403, 404, 500 or 502, with the matching reason phrase |
| Server.NoSegmentIsNotFound | c-server/src/http/server.c:97-99 | a path with no segment gets 404 `<h1>404 Not Found</h1>` and nothing is forwarded |
| Server.OtherSegmentIsNotFound | c-server/src/http/server.c:191-194 | any first segment other than `static` and `api` gets 404 `<h1>404 Not Found</h1>`, whatever follows |
| Server.StaticOutcomes | c-server/src/http/server.c:103-132 | in order: a format error gives 404 `snprintf() error`; a missing or unreadable file gives 403; a readable file that fails `open` gives 404; only a file passing all three gives 200 "OK", with a prefix of its contents no longer than the buffer; each outcome holds exactly in its case |
| Server.StaticServesWholeFile | c-server/src/http/server.c:126-129 | a NUL-free file that fits in the buffer is served whole |
| Server.StaticFilePathUsesRequestPath | c-server/src/http/server.c:103-105 | the file looked up is the base directory, `/` and the whole request path, `/static` included, when that fits |
| Server.StaticRequestServed | c-server/src/http/server.c:101-132 | a static request for a file passing every check, NUL-free and fitting, gets 200 "OK" with the file and forwards nothing |
| Server.ProxyFailures | c-server/src/http/server.c:150-176 | a format error gives 500 before any connection; a failed connection gives 502 "Backend Unavailable" before anything is sent; a failed `recv` gives 502 "Failed to Read from Backend" after sending |
| Server.LongHeadBackendDown | c-server/src/http/server.c:141-163 | with nothing to copy and the backend down, the input is admitted for every head length and gets 502 "Backend Unavailable": truncation by `snprintf` is no error, `strncat` stays inside the buffer, and nothing is sent |
| Server.ProxySendsHeadOnly | c-server/src/http/server.c:141-166 | the bytes sent are the head alone, while the buffer holds the head followed by the copied body |
| Server.ProxyDropsBodyExample | c-server/src/http/server.c:157-166 | a one-byte body is copied into the buffer but not sent |
| Server.ForwardedBufferIsFramed | c-server/src/http/server.c:141-157 | the assembled buffer splits at its first separator into the head and exactly the copied body, and its Content-Length reads back as the body length (for CR-free method and path) |
| Server.ProxySucceeds | c-server/src/http/server.c:178-189 | once the backend has answered, the status is 200 "OK" whatever the backend's status was, and the body is the reply cut after its head |
| Server.ProxyReplyBody | c-server/src/http/server.c:178-189 | for a reply of CR-free header lines, an empty line and a NUL-free body, the client gets 200 "OK" with exactly that body |
| Server.FramedReplyBody | c-server/src/http/server.c:178-186 | such a reply, terminated and cut at its first separator, yields exactly its body |
| Server.ProxyReplyAfterSeparator | c-server/src/http/server.c:178-186 | a reply whose first separator starts at `k` is passed on from `k + 4` |
| Server.ProxyReplyWithoutSeparator | c-server/src/http/server.c:182-184 | a reply without a separator is passed on whole, up to its first NUL |
| Server.StaticIndexScenario | c-server/src/http/server.c:83-87 | `GET /static/index.html` with the file holding `<p>hi</p>` gets 200 "OK" with `<p>hi</p>` |
| Server.ApiWidgetsScenario | c-server/src/http/server.c:134-189 | `GET /api/widgets` sends `GET /widgets HTTP/1.1` with Content-Length 0, and a backend reply `HTTP/1.1 201 Created`, an empty line and `{"id":1}` gives 200 "OK" with `{"id":1}` |
| Server.UnknownScenario | c-server/src/http/server.c:191-194 | `GET /unknown` gets 404 "Not Found" with `<h1>404 Not Found</h1>` |
| Server.Launch | c-server/src/http/server.c:28-39 | a bind failure is reported without listening; a listen failure is reported next; otherwise the server serves. Each outcome holds exactly in its case |

## Left out

- The accept loop of `launch` (`c-server/src/http/server.c:41-69`): accept, read, parse, serialize, write, close and `printf` logging. This is blocking socket I/O that runs for ever. Only the bind and listen outcomes are modelled (`Server.Launch`).
- `connect_to_backend` (`c-server/src/http/server.c:215-240`): a `getaddrinfo`/`socket`/`connect` wrapper. Only its result, a descriptor or -1, is an input.
- The file system calls `realpath`, `access`, `open`, `read` and `close`. Their outcomes and the file contents are inputs. A `realpath` that returns NULL is not modelled; the base directory is a given string.
- `parse_http_request`, `response_builder`, `httpresponse_serialize`, `httpresponse_free` and `server_constructor`. Their sources are not part of this model. A response is the `(code, text, body)` record `response_builder` receives. A request is the method, path, body and body length the handler reads.
- `httpserver_constructor` and `httpserver_destructor` (`c-server/src/http/server.c:256-278`): allocation and field assignment, with no logic to prove. `c-server/src/DataStructures/dynamic_array.h` is only declarations and is not part of this model.
- The results of `send` and `close` on the backend socket are not checked by the source and are not modelled. The outbound bytes are recorded in `Forwarded.sent`. Whether the backend socket is closed is not recorded (see "Backend socket" below).
- `MAX_BUFFER_SIZE`, `PATH_MAX` and `BASE_DIR` come from headers that are not part of this model. They are inputs (`Env.maxBuffer`, `Env.pathMax`, `Env.baseDir`).
- Integer widths: `body_length` (`size_t`), the `int` returned by `snprintf` and `recv`, and buffer sizes are unbounded integers. The source never does arithmetic on them that could wrap.
- Server.HandleRequest: requires that the head and the copied body fit in `MAX_BUFFER_SIZE` with the terminator (`Server.ProxyFits`), unless nothing is copied and the backend is down. The source does not check this. When a non-empty copy does not fit, `strncat` writes past the buffer (`c-server/src/http/server.c:157`). When the head alone is longer than the buffer and the backend connects, `send` of the `snprintf` length reads past it (`c-server/src/http/server.c:166`). A head that does not fit is admitted when nothing is copied and the backend is down: `strncat` then writes its terminator inside the buffer and nothing is sent, so the answer is 502 "Backend Unavailable" (`Server.LongHeadBackendDown`). One excluded case is defined in C and is not modelled: a head exactly `MAX_BUFFER_SIZE` long with nothing to copy and the backend connected, where `send` transmits the truncated head followed by its terminator.
- Server.HandleRequest: requires a path of at least four characters when it is routed to the proxy. Every `/`-led path routed there has them (`Routing.ApiPathInBounds`). A path such as `api`, without its leading slash, would make `*api_path` (`c-server/src/http/server.c:137-138`) read past the terminator.
- Server.HandleRequest: requires a `recv` length below `MAX_BUFFER_SIZE`. With a full buffer, the terminator write at `c-server/src/http/server.c:178` is out of bounds.
- Server.FileRead: a `read` that fails is not represented, because its return value is ignored by the source (`c-server/src/http/server.c:127`). For example, `/static` names the directory `<base>//static`, which passes `access` and `open` but cannot be read. The C code then serves whatever the uninitialised buffer holds; the model always reads the file's contents.
- Server.StaticRespond: the static buffer is never terminated by the source (`c-server/src/http/server.c:126-129`). The model serves the bytes read up to their first NUL. It does not capture the bytes past the end of the read that the C code may pick up when no NUL follows.
- ProxyRequest.RequestBuffer.Format: after a negative return the model leaves the buffer as it was. C leaves its contents unspecified, and the handler returns before using the buffer.
- ProxyRequest.ForwardedRequestSplits: proved for methods and paths without a carriage return. The source forwards whatever it is given, and such a CR could fake an earlier separator.

## Behaviour of the code worth knowing

- **Missing file.** A missing file gets 403, not 404, because `access` runs before `open` (`Server.StaticOutcomes`).
- **Static path.** The file path is built from `realpath(BASE_DIR)` and the whole request path, `/static` segment included. It does not use the server's configured static directory (`Server.StaticFilePathUsesRequestPath`).
- **Proxy format errors.** Only a negative `snprintf` result gives 500. A head that does not fit in the buffer is truncated silently (`ProxyRequest.RequestBuffer.Format`).
- **What is sent.** Only the `snprintf` length is sent, so the appended body never reaches the backend (`Server.ProxySendsHeadOnly`, `Server.ProxyDropsBodyExample`).
- **Backend status.** The backend's status line is discarded: a successful exchange is always reported as 200 "OK" (`Server.ProxySucceeds`).
- **Backend socket.** When `recv` fails, the handler returns its 502 before `close(backend_fd)` (`c-server/src/http/server.c:172-179`), so that descriptor leaks. The socket is closed only after a successful `recv`.
- **`/api` rewrite.** The rewrite drops four characters, not a segment, so `//api/x` is forwarded as `i/x` (`Routing.ApiPathWithDoubleSlash`).
