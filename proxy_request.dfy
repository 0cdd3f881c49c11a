/** The request the proxy sends to the backend.  Its head is a request line
    (RFC 9112, section 3) and three fixed header fields, Content-Length
    among them (RFC 9112, section 6.2).  It is formatted into one
    fixed-size buffer, and the body is then appended to that buffer in
    place. */
module ProxyRequest {
  import opened CStrings
  import opened HttpFraming

  /** The text the `snprintf` format string produces for a method, a
      forwarded path and a body length. */
  function RequestHead(verb: string, target: string, contentLength: nat): (h: string)
    ensures IsCString(verb) && IsCString(target) ==> IsCString(h)
  {
    DigitsArePlain(Decimal(contentLength));
    verb + " " + target + " HTTP/1.1\r\n"
    + "Host: localhost\r\n"
    + "Content-Length: " + Decimal(contentLength) + "\r\n"
    + "Connection: close\r\n"
    + "\r\n"
  }

  /** The head is the method, the path, the digits of the length and 68
      fixed characters. */
  lemma RequestHeadLength(verb: string, target: string, contentLength: nat)
    ensures |RequestHead(verb, target, contentLength)| == |verb| + |target| + |Decimal(contentLength)| + 68
  {
  }

  /** The head line by line: request line, Host, Content-Length and
      Connection fields, each ended by CRLF, then the empty line. */
  function HeadLines(verb: string, target: string, contentLength: nat): seq<string> {
    [ verb + " " + target + " HTTP/1.1",
      "Host: localhost",
      "Content-Length: " + Decimal(contentLength),
      "Connection: close" ]
  }

  lemma RequestHeadIsFramed(verb: string, target: string, contentLength: nat)
    ensures RequestHead(verb, target, contentLength) == Lines(HeadLines(verb, target, contentLength)) + CRLF
  {
    var ls := HeadLines(verb, target, contentLength);
    assert Lines(ls[3..]) == ls[3] + CRLF;
    assert Lines(ls[2..]) == ls[2] + CRLF + Lines(ls[3..]);
    assert Lines(ls[1..]) == ls[1] + CRLF + Lines(ls[2..]);
  }

  /** A backend that splits the forwarded request at its first "\r\n\r\n"
      finds exactly the appended body bytes, and its Content-Length field
      reads back as the inbound body length, provided the method and the
      path hold no carriage return. */
  lemma ForwardedRequestSplits(verb: string, target: string, contentLength: nat, body: string)
    requires '\r' !in verb && '\r' !in target
    ensures BodyAfterSeparator(RequestHead(verb, target, contentLength) + body) == body
    ensures ParseDecimal(Decimal(contentLength)) == contentLength
  {
    var ls := HeadLines(verb, target, contentLength);
    RequestHeadIsFramed(verb, target, contentLength);
    DigitsArePlain(Decimal(contentLength));
    assert PlainLine(ls[0]) && PlainLine(ls[1]) && PlainLine(ls[2]) && PlainLine(ls[3]);
    LineBreaks(ls);
    HeadSplit(Lines(ls), body);
    assert RequestHead(verb, target, contentLength) + body == Lines(ls) + CRLF + body;
    DecimalRoundTrip(contentLength);
  }

  /** `char proxy_request[MAX_BUFFER_SIZE]` with the length of the C
      string it holds. */
  class RequestBuffer {
    var data: array<char>
    var len: nat

    /** `len` is `strlen(data)`: a terminator at `len`, none before. */
    ghost predicate Valid()
      reads this, data
    {
      len < data.Length && data[len] == NUL && IsCString(data[..len])
    }

    /** The C string the buffer holds. */
    function Contents(): (s: string)
      reads this, data
      requires Valid()
      ensures IsCString(s) && |s| < data.Length
    {
      data[..len]
    }

    /** The first `n` characters of the buffer, as `send(fd, data, n)`
        transmits them. */
    function Prefix(n: nat): (s: string)
      reads this, data
      requires n <= data.Length
      ensures |s| == n
    {
      data[..n]
    }

    constructor (capacity: nat)
      requires capacity > 0
      ensures Valid() && fresh(data) && data.Length == capacity && Contents() == []
    {
      data := new char[capacity](_ => NUL);
      len := 0;
    }

    /** `snprintf(data, data.Length, ...)` whose formatted text is `s`:
        writes as much of `s` as fits with its terminator and returns the
        full length of `s`; `fails` stands for a negative (encoding error)
        return, after which the buffer is not used. */
    method Format(s: string, fails: bool) returns (n: int)
      requires Valid() && IsCString(s)
      modifies this`len, data
      ensures Valid() && data == old(data)
      ensures fails ==> n < 0 && Contents() == old(Contents())
      ensures !fails ==> n == |s| && Contents() == Truncate(s, data.Length)
    {
      if fails {
        return -1;
      }
      var k := if |s| < data.Length then |s| else data.Length - 1;
      var i := 0;
      while i < k
        invariant 0 <= i <= k < data.Length
        invariant data[..i] == s[..i]
      {
        data[i] := s[i];
        i := i + 1;
      }
      data[k] := NUL;
      assert data[..k] == s[..k];
      len := k;
      n := |s|;
    }

    /** `strncat(data, src, count)`: appends at the terminator at most
        `count` characters of `src`, stopping at a NUL, then a new
        terminator.  The caller must leave room for both. */
    method Append(src: seq<char>, count: nat)
      requires Valid() && len + |StrnPrefix(src, count)| < data.Length
      modifies this`len, data
      ensures Valid() && data == old(data)
      ensures Contents() == old(Contents()) + StrnPrefix(src, count)
    {
      ghost var copied := StrnPrefix(src, count);
      ghost var before := data[..len];
      var at := len;
      assert forall j :: 0 <= j < |copied| ==> src[j] == copied[j];
      var i := 0;
      while i < count && i < |src| && src[i] != NUL
        invariant 0 <= i <= |copied|
        invariant forall j :: 0 <= j < at ==> data[j] == before[j]
        invariant forall j :: 0 <= j < i ==> data[at + j] == copied[j]
      {
        data[at + i] := src[i];
        i := i + 1;
      }
      assert i == |copied|;
      data[at + i] := NUL;
      assert forall j :: 0 <= j < at + i ==> data[j] == (before + copied)[j];
      assert data[..at + i] == before + copied;
      len := at + i;
    }
  }
}
