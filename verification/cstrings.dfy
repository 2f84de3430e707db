/** The parts of the C string library the modules share, on strings without their NUL. */
module CStrings {
  import opened Options

  /** The text of a C string. */
  type CString = s: string | '\0' !in s witness ""

  function ToLower(c: char): char {
    if 'A' <= c <= 'Z' then c - 'A' + 'a' else c
  }

  function Lower(s: string): (r: string)
    ensures |r| == |s|
  {
    seq(|s|, i requires 0 <= i < |s| => ToLower(s[i]))
  }

  /** !strcasecmp(a, b) */
  predicate EqNoCase(a: string, b: string) {
    Lower(a) == Lower(b)
  }

  lemma {:induction false} LowerAt(a: string, b: string)
    ensures EqNoCase(a, b) <==> |a| == |b| && forall i :: 0 <= i < |a| ==> ToLower(a[i]) == ToLower(b[i])
  {
    if EqNoCase(a, b) {
      forall i | 0 <= i < |a| ensures ToLower(a[i]) == ToLower(b[i]) {
        assert Lower(a)[i] == Lower(b)[i];
      }
    }
  }

  /** The character at index j, or the terminating NUL. */
  function At(s: string, j: nat): char
    requires j <= |s|
  {
    if j < |s| then s[j] else '\0'
  }

  predicate IsDigit(c: char) {
    '0' <= c <= '9'
  }

  predicate IsAlnum(c: char) {
    IsDigit(c) || 'a' <= c <= 'z' || 'A' <= c <= 'Z'
  }

  predicate IsSpace(c: char) {
    c == ' ' || 9 as char <= c <= 13 as char
  }

  /** What a string begins with, and what is behind it. */
  lemma {:induction false} FrontOf(s: string, t: string)
    requires s != ""
    ensures (s + t)[0] == s[0] && (s + t)[1..] == s[1..] + t
  {
  }

  // ---------------------------------------------------------------- strtok

  /** The text after the leading characters of delims. */
  function Skip(s: string, delims: string): (r: string)
    ensures |r| <= |s|
  {
    if s != "" && s[0] in delims then Skip(s[1..], delims) else s
  }

  /** The number of leading characters outside delims. */
  function Span(s: string, delims: string): (n: nat)
    ensures n <= |s|
  {
    if s == "" || s[0] in delims then 0 else 1 + Span(s[1..], delims)
  }

  /** One call of strtok (section 7.24.5.8 of ISO/IEC 9899:2011): the token, if there is one, and
      the text from the saved position on. */
  function Strtok(s: string, delims: string): (r: (Option<string>, string))
    ensures |r.1| <= |s| && match r.0 case None => r.1 == "" case Some(token) => |r.1| < |s| && token != ""
  {
    if s == "" then (None, "")
    else if s[0] in delims then Strtok(s[1..], delims)
    else
      var n := Span(s, delims);
      (Some(s[..n]), if n < |s| then s[n + 1..] else "")
  }

  lemma {:induction false} SpanOfToken(token: string, rest: string, delims: string)
    requires (forall c :: c in token ==> c !in delims) && (rest == "" || rest[0] in delims)
    ensures Span(token + rest, delims) == |token|
  {
    if token == "" {
      assert token + rest == rest;
    } else {
      assert token[0] in token && (token + rest)[0] == token[0] && (token + rest)[1..] == token[1..] + rest;
      assert forall c :: c in token[1..] ==> c in token;
      SpanOfToken(token[1..], rest, delims);
    }
  }

  lemma {:induction false} SpanStops(s: string, delims: string)
    ensures forall c :: c in s[..Span(s, delims)] ==> c !in delims
    ensures Span(s, delims) < |s| ==> s[Span(s, delims)] in delims
  {
    if s != "" && s[0] !in delims {
      var n := Span(s[1..], delims);
      SpanStops(s[1..], delims);
      assert s[..n + 1] == [s[0]] + s[1..][..n];
    }
  }

  /** A token that runs up to a delimiter. */
  lemma {:induction false} StrtokToken(token: string, d: char, rest: string, delims: string)
    requires token != "" && (forall c :: c in token ==> c !in delims) && d in delims
    ensures Strtok(token + [d] + rest, delims) == (Some(token), rest)
  {
    var s := token + [d] + rest;
    assert s == token + ([d] + rest);
    SpanOfToken(token, [d] + rest, delims);
    assert s[0] == token[0] && token[0] in token;
    assert s[..|token|] == token && s[|token| + 1..] == rest;
  }

  /** A token that runs to the end of the string. */
  lemma {:induction false} StrtokLast(token: string, delims: string)
    requires token != "" && forall c :: c in token ==> c !in delims
    ensures Strtok(token, delims) == (Some(token), "")
  {
    SpanOfToken(token, "", delims);
    assert token + "" == token && token[0] in token && token[..|token|] == token;
  }

  /** mowgli_strlcpy into a buffer of the given size. */
  function Strlcpy(src: string, size: nat): string
    requires size > 0
  {
    if |src| < size then src else src[..size - 1]
  }

  /** mowgli_strlcat onto the text of a buffer of the given size. */
  function Strlcat(dst: string, src: string, size: nat): string
    requires size > 0
  {
    if |dst| >= size then dst else Strlcpy(dst + src, size)
  }
}
