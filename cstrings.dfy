/** C string conventions the request handler relies on.

    A C string is modelled by its characters before the terminator, so a
    Dafny `string` that stands for a C string contains no NUL.  Buffers
    (request bodies, bytes received from a socket, file contents) are
    plain `seq<char>` and may contain NUL anywhere.  A Dafny `char` stands
    for one C byte, so every length here is a byte count. */
module CStrings {

  datatype Option<T> = None | Some(value: T)

  const NUL: char := '\0'

  /** `s` can be the contents of a C string: it has no terminator inside. */
  predicate IsCString(s: string) {
    NUL !in s
  }

  /** The characters `strncat(dst, src, n)` copies from `src`: at most `n`
      of them, stopping before the first NUL (or at the end of `src`). */
  function StrnPrefix(src: seq<char>, n: nat): (r: string)
    ensures |r| <= n && r <= src && IsCString(r)
    ensures |r| < n && |r| < |src| ==> src[|r|] == NUL
  {
    if n == 0 || src == [] || src[0] == NUL then []
    else [src[0]] + StrnPrefix(src[1..], n - 1)
  }

  /** The C string a buffer holds: everything before its first NUL. */
  function CStr(buf: seq<char>): (r: string)
    ensures r <= buf && IsCString(r)
    ensures |r| < |buf| ==> buf[|r|] == NUL
  {
    StrnPrefix(buf, |buf|)
  }

  /** A source without a NUL is copied whole, up to the count. */
  lemma {:induction false} StrnPrefixOfCString(src: string, n: nat)
    requires IsCString(src)
    ensures StrnPrefix(src, n) == if n < |src| then src[..n] else src
  {
    if n != 0 && src != [] {
      assert src[0] != NUL;
      StrnPrefixOfCString(src[1..], n - 1);
      assert src == [src[0]] + src[1..];
      if n < |src| {
        assert src[..n] == [src[0]] + src[1..][..n - 1];
      }
    }
  }

  /** Reading a buffer that holds a C string followed by its terminator
      gives back that C string. */
  lemma CStrOfCString(s: string)
    requires IsCString(s)
    ensures CStr(s) == s
  {
    StrnPrefixOfCString(s, |s|);
  }

  /** What `snprintf(buf, size, ...)` leaves in `buf` (before the
      terminator) when the formatted text is `s`: at most `size - 1`
      characters of it. */
  function Truncate(s: string, size: nat): (r: string)
    requires size > 0
    ensures r <= s && |r| < size
    ensures |r| == if |s| < size then |s| else size - 1
    ensures |s| < size ==> r == s
  {
    if |s| < size then s else s[..size - 1]
  }

  predicate IsDigits(s: string) {
    forall i :: 0 <= i < |s| ==> '0' <= s[i] <= '9'
  }

  function DigitChar(d: nat): (c: char)
    requires d < 10
    ensures '0' <= c <= '9' && c as int - '0' as int == d
  {
    ('0' as int + d) as char
  }

  /** `printf("%zu", n)`: the decimal digits of `n`, most significant
      first, without leading zeros. */
  function Decimal(n: nat): (r: string)
    ensures r != [] && IsDigits(r)
    ensures r[0] == '0' ==> n == 0
    decreases n
  {
    if n < 10 then [DigitChar(n)] else Decimal(n / 10) + [DigitChar(n % 10)]
  }

  /** The value of a string of decimal digits (how a receiver reads a
      Content-Length field). */
  function ParseDecimal(s: string): nat
    requires IsDigits(s)
  {
    if s == [] then 0 else 10 * ParseDecimal(s[..|s| - 1]) + (s[|s| - 1] as int - '0' as int)
  }

  /** Reading back the digits `%zu` prints gives the original number. */
  lemma {:induction false} DecimalRoundTrip(n: nat)
    ensures ParseDecimal(Decimal(n)) == n
  {
    if n >= 10 {
      var d := Decimal(n / 10);
      var r := d + [DigitChar(n % 10)];
      assert r[..|r| - 1] == d;
      DecimalRoundTrip(n / 10);
    }
  }

  /** Decimal digits contain neither a terminator nor a line break. */
  lemma DigitsArePlain(s: string)
    requires IsDigits(s)
    ensures NUL !in s && '\r' !in s
  {
  }
}
