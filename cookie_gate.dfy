/** The cookie gate at the head of doAction: skip leading whitespace, require
    the configured cookie as a literal prefix, and hand on what follows it. */
module CookieGate {

  /** A C string: the characters before its terminating NUL. */
  type CString = s: string | '\0' !in s

  /** isspace() in the C locale. */
  predicate IsSpace(c: char)
  {
    c == ' ' || c == '\t' || c == '\n' || c == '\U{B}' || c == '\U{C}' || c == '\r'
  }

  predicate AllSpace(s: string)
  {
    forall k :: 0 <= k < |s| ==> IsSpace(s[k])
  }

  /** How many characters the whitespace loop of doAction steps over. */
  function LeadingSpaces(s: string): (n: nat)
    ensures n <= |s|
    ensures forall k :: 0 <= k < n ==> IsSpace(s[k])
    ensures n < |s| ==> !IsSpace(s[n])
  {
    if s != [] && IsSpace(s[0]) then 1 + LeadingSpaces(s[1..]) else 0
  }

  lemma LeadingSpacesUnique(s: string, n: nat)
    requires n <= |s|
    requires forall k :: 0 <= k < n ==> IsSpace(s[k])
    requires n < |s| ==> !IsSpace(s[n])
    ensures LeadingSpaces(s) == n
  {
  }

  /** The whitespace loop of doAction: the index of the first character that
      is not whitespace, or the end of the buffer. */
  method SkipSpace(buf: CString) returns (i: nat)
    ensures i == LeadingSpaces(buf)
  {
    i := 0;
    while i < |buf| && IsSpace(buf[i])
      invariant i <= |buf|
      invariant forall k :: 0 <= k < i ==> IsSpace(buf[k])
    {
      i := i + 1;
    }
    LeadingSpacesUnique(buf, i);
  }

  /** The character C reads at offset k: the terminating NUL past the end. */
  function CharAt(s: string, k: nat): char
  {
    if k < |s| then s[k] else '\0'
  }

  /** strncmp(a, b, n) == 0: the first n characters agree, and the comparison
      stops after a NUL that both strings share. */
  predicate StrNEqual(a: string, b: string, n: nat)
  {
    n == 0 ||
    (CharAt(a, 0) == CharAt(b, 0) &&
     (CharAt(a, 0) == '\0' || StrNEqual(a[1..], b[1..], n - 1)))
  }

  /** With n the length of a NUL-free cookie, strncmp succeeds exactly when
      the cookie is a prefix of the buffer. */
  lemma {:induction false} StrNEqualIsPrefix(a: string, b: string)
    requires '\0' !in b
    ensures StrNEqual(a, b, |b|) <==> b <= a
  {
    if b != [] {
      if |a| > 0 && a[0] == b[0] {
        assert '\0' !in b[1..] by {
          forall k | 0 <= k < |b[1..]| ensures b[1..][k] != '\0' {
            assert b[1..][k] == b[k + 1];
          }
        }
        StrNEqualIsPrefix(a[1..], b[1..]);
        assert b <= a <==> b[1..] <= a[1..];
      }
    }
  }

  /** The gate's verdict and the text doAction carries on with: on a decline
      the whitespace-stripped buffer, on a pass what follows the cookie. */
  datatype Gated = Declined(text: string) | Passed(text: string)

  function Gate(buf: string, cookie: string): (r: Gated)
    ensures r.Declined? ==> buf == buf[..LeadingSpaces(buf)] + r.text
    ensures r.Passed? ==> buf == buf[..LeadingSpaces(buf)] + cookie + r.text
  {
    var rest := buf[LeadingSpaces(buf)..];
    if rest == [] || !(cookie <= rest) then Declined(rest) else Passed(rest[|cookie|..])
  }

  /** The buffer passes exactly when, after its leading whitespace, something
      is left and it starts with the cookie; the text passed on is that
      remainder without the cookie, and is that much shorter. */
  lemma GatePassesIff(buf: string, cookie: string)
    ensures var rest := buf[LeadingSpaces(buf)..];
      && (Gate(buf, cookie).Passed? <==> rest != [] && cookie <= rest)
      && (Gate(buf, cookie).Passed? ==>
            Gate(buf, cookie).text == rest[|cookie|..] &&
            |Gate(buf, cookie).text| == |rest| - |cookie|)
  {
  }

  /** Whitespace, then the cookie, then text: the gate passes exactly that
      text on, provided the cookie-and-text does not itself begin with
      whitespace (the loop would have eaten it). */
  lemma GateRoundTrip(ws: string, cookie: string, text: string)
    requires AllSpace(ws)
    requires cookie + text != [] && !IsSpace((cookie + text)[0])
    ensures Gate(ws + cookie + text, cookie) == Passed(text)
  {
    var buf := ws + cookie + text;
    assert buf == ws + (cookie + text);
    assert buf[|ws|] == (cookie + text)[0];
    LeadingSpacesUnique(buf, |ws|);
    assert buf[|ws|..] == cookie + text;
  }

  /** An empty or all-whitespace buffer is declined whatever the cookie, the
      empty cookie included. */
  lemma GateDeclinesBlank(buf: string, cookie: string)
    requires AllSpace(buf)
    ensures Gate(buf, cookie) == Declined([])
  {
    LeadingSpacesUnique(buf, |buf|);
  }

  /** With the empty cookie every buffer that is not blank passes, carrying
      all of it after its leading whitespace. */
  lemma GateEmptyCookie(buf: string)
    requires !AllSpace(buf)
    ensures Gate(buf, []) == Passed(buf[LeadingSpaces(buf)..])
  {
  }

  /** A cookie that starts with whitespace can never match: the loop has
      already stepped over every leading whitespace character. */
  lemma GateSpaceLedCookie(buf: string, cookie: string)
    requires cookie != [] && IsSpace(cookie[0])
    ensures Gate(buf, cookie).Declined?
  {
  }
}
