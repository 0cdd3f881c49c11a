/** HTTP/1.1 message framing as the handler sees it (RFC 9112, section 2.1):
    a head made of CRLF-terminated lines, an empty line, then the body.
    The handler finds the end of the head by searching for the first
    "\r\n\r\n", as `strstr` does. */
module HttpFraming {
  import opened CStrings

  const CRLF: string := "\r\n"
  const Separator: string := "\r\n\r\n"

  /** The header/body separator starts at index `i` of `s`. */
  predicate SeparatorAt(s: string, i: nat) {
    i + 4 <= |s| && s[i] == '\r' && s[i + 1] == '\n' && s[i + 2] == '\r' && s[i + 3] == '\n'
  }

  /** `strstr(s, "\r\n\r\n")`, as an index: the first position where the
      separator starts, or None when it does not occur (see
      `FindSeparatorIsFirst`). */
  function FindSeparator(s: string): (r: Option<nat>)
    ensures r.Some? ==> SeparatorAt(s, r.value)
  {
    FindFrom(s, 0)
  }

  /** The scan `strstr` performs, from index `i` on. */
  function FindFrom(s: string, i: nat): (r: Option<nat>)
    ensures r.Some? ==> i <= r.value && SeparatorAt(s, r.value)
    decreases |s| - i
  {
    if i + 4 > |s| then None
    else if SeparatorAt(s, i) then Some(i)
    else FindFrom(s, i + 1)
  }

  lemma {:induction false} FindFromIsFirst(s: string, i: nat)
    ensures var r := FindFrom(s, i);
            && (r.Some? ==> i <= r.value && SeparatorAt(s, r.value))
            && (r.Some? ==> forall j :: i <= j < r.value ==> !SeparatorAt(s, j))
            && (r.None? ==> forall j :: i <= j < |s| ==> !SeparatorAt(s, j))
    decreases |s| - i
  {
    if i + 4 <= |s| && !SeparatorAt(s, i) {
      FindFromIsFirst(s, i + 1);
    }
  }

  /** The search finds the first occurrence of the separator, and reports
      None exactly when there is none. */
  lemma FindSeparatorIsFirst(s: string)
    ensures var r := FindSeparator(s);
            && (r.Some? ==> SeparatorAt(s, r.value))
            && (r.Some? ==> forall j :: 0 <= j < r.value ==> !SeparatorAt(s, j))
            && (r.None? ==> forall j :: 0 <= j < |s| ==> !SeparatorAt(s, j))
  {
    FindFromIsFirst(s, 0);
  }

  /** Conversely, a separator at `k` with none before it is what the scan
      from any `i <= k` finds. */
  lemma {:induction false} FindFromFinds(s: string, i: nat, k: nat)
    requires i <= k && SeparatorAt(s, k)
    requires forall j :: i <= j < k ==> !SeparatorAt(s, j)
    ensures FindFrom(s, i) == Some(k)
    decreases k - i
  {
    if i < k {
      FindFromFinds(s, i + 1, k);
    }
  }

  /** What the handler keeps of a message: everything after the first
      separator, or the whole text when there is none. */
  function BodyAfterSeparator(s: string): (b: string)
    ensures |b| <= |s| && b == s[|s| - |b|..]
  {
    FindSeparatorIsFirst(s);
    match FindSeparator(s)
    case Some(i) => s[i + 4..]
    case None => s
  }

  /** A header line: non-empty and free of carriage returns. */
  predicate PlainLine(l: string) {
    l != [] && '\r' !in l
  }

  /** A head: each line followed by CRLF. */
  function Lines(ls: seq<string>): string {
    if ls == [] then [] else ls[0] + CRLF + Lines(ls[1..])
  }

  /** `h` ends with CRLF, and each carriage return in it is followed by a
      line feed and then by a character other than a carriage return (or
      by the end of `h`). */
  predicate LineBroken(h: string) {
    && |h| >= 2 && h[|h| - 2] == '\r' && h[|h| - 1] == '\n'
    && forall j :: 0 <= j < |h| && h[j] == '\r' ==>
         j + 1 < |h| && h[j + 1] == '\n' && (j + 2 < |h| ==> h[j + 2] != '\r')
  }

  /** A head of plain lines is line-broken. */
  lemma {:induction false} LineBreaks(ls: seq<string>)
    requires ls != []
    requires forall i :: 0 <= i < |ls| ==> PlainLine(ls[i])
    ensures LineBroken(Lines(ls))
  {
    var l, rest := ls[0], ls[1..];
    var h, t := Lines(ls), Lines(rest);
    assert PlainLine(ls[0]);
    assert h == l + CRLF + t;
    assert forall j :: 0 <= j < |l| ==> h[j] == l[j] && h[j] != '\r';
    assert h[|l|] == '\r' && h[|l| + 1] == '\n';
    if rest == [] {
      assert |h| == |l| + 2;
    } else {
      assert forall i :: 0 <= i < |rest| ==> PlainLine(rest[i]) by {
        assert forall i :: 0 <= i < |rest| ==> rest[i] == ls[i + 1];
      }
      LineBreaks(rest);
      assert PlainLine(rest[0]);
      assert t[0] == rest[0][0] && h[|l| + 2] == t[0];
      assert forall j :: |l| + 2 <= j < |h| ==> h[j] == t[j - |l| - 2];
    }
  }

  /** After a line-broken head, an empty line: the first separator is the
      one that ends the head, and what follows it is the body. */
  lemma HeadSplit(h: string, body: string)
    requires LineBroken(h)
    ensures FindSeparator(h + CRLF + body) == Some(|h| - 2)
    ensures BodyAfterSeparator(h + CRLF + body) == body
  {
    var m := h + CRLF + body;
    var k := |h| - 2;
    assert forall j :: 0 <= j < |h| ==> m[j] == h[j];
    assert SeparatorAt(m, k);
    assert forall j :: 0 <= j < k ==> !SeparatorAt(m, j) by {
      forall j | 0 <= j < k && m[j] == '\r'
        ensures m[j + 2] != '\r'
      {
        assert h[j] == '\r';
      }
    }
    FindFromFinds(m, 0, k);
    assert m[k + 4..] == body;
  }
}
