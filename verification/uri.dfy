/** The read-only URI under which an existing relay database is inspected. */
module Uri {
  import opened Bytes
  import opened LabErrors

  const SCHEME := Ascii("file:")
  const QUERY := Ascii("mode=ro&immutable=1")
  const SLASH: Byte := 47
  const PERCENT: Byte := 37
  const QUESTION: Byte := 63
  const HASH: Byte := 35

  /** ASCII letters and digits, and `/ . - _ :`. */
  predicate Plain(b: Byte) {
    48 <= b <= 57 || 65 <= b <= 90 || 97 <= b <= 122 || b in {SLASH, 46, 45, 95, 58}
  }

  /** One of `0123456789ABCDEF`. */
  function HexDigit(n: int): Byte
    requires 0 <= n < 16
  {
    if n < 10 then 48 + n else 55 + n
  }

  function Escape(b: Byte): Blob {
    if Plain(b) then [b] else [PERCENT, HexDigit(b / 16), HexDigit(b % 16)]
  }

  function EscapeAll(path: Blob): Blob {
    if path == [] then [] else Escape(path[0]) + EscapeAll(path[1..])
  }

  function UriOf(path: Blob): Blob {
    SCHEME + EscapeAll(path) + [QUESTION] + QUERY
  }

  /** `immutable_uri`. A path that is not UTF-8 is given as `None`. */
  method ImmutableUri(path: Option<Blob>) returns (r: Result<Blob>)
    ensures r == if path.None? then Err(Storage) else Ok(UriOf(path.value))
  {
    if path.None? {
      return Err(Storage);
    }
    var uri := PushAll(SCHEME, path.value);
    return Ok(uri + [QUESTION] + QUERY);
  }

  method PushAll(text: Blob, bytes: Blob) returns (extended: Blob)
    ensures extended == text + EscapeAll(bytes)
  {
    extended := text;
    for i := 0 to |bytes|
      invariant extended + EscapeAll(bytes[i..]) == text + EscapeAll(bytes)
    {
      assert bytes[i..][1..] == bytes[i + 1..];
      assert extended + EscapeAll(bytes[i..]) == (extended + Escape(bytes[i])) + EscapeAll(bytes[i + 1..]);
      extended := PushEscaped(extended, bytes[i]);
    }
    assert bytes[|bytes|..] == [];
    assert extended + EscapeAll([]) == extended;
  }

  method PushEscaped(text: Blob, b: Byte) returns (extended: Blob)
    ensures extended == text + Escape(b)
  {
    if Plain(b) {
      extended := text + [b];
    } else {
      extended := text + [PERCENT];
      extended := extended + [HexDigit(b / 16)];
      extended := extended + [HexDigit(b % 16)];
    }
  }

  // ---- Reading a URI back, by sections 2.1, 3.2 and 3.3 of RFC 3986 ----

  function HexValue(b: Byte): Option<int> {
    if 48 <= b <= 57 then Some(b - 48)
    else if 65 <= b <= 70 then Some(b - 55)
    else if 97 <= b <= 102 then Some(b - 87)
    else None
  }

  function Unescape(text: Blob): Option<Blob> {
    if text == [] then Some([])
    else if text[0] != PERCENT then
      match Unescape(text[1..])
      case None => None
      case Some(rest) => Some([text[0]] + rest)
    else if |text| < 3 then None
    else
      match (HexValue(text[1]), HexValue(text[2]), Unescape(text[3..]))
      case (Some(high), Some(low), Some(rest)) => Some([16 * high + low] + rest)
      case _ => None
  }

  predicate EndsPath(b: Byte) {
    b == QUESTION || b == HASH
  }

  /** What comes before the first `?` or `#`, and the rest. */
  function SplitPath(text: Blob): (Blob, Blob) {
    if text == [] || EndsPath(text[0]) then ([], text)
    else
      var (path, rest) := SplitPath(text[1..]);
      ([text[0]] + path, rest)
  }

  /** An authority, introduced by `//`, reaches to the next `/`, `?` or `#`. */
  function SkipAuthority(text: Blob): Blob {
    if text == [] || text[0] == SLASH || EndsPath(text[0]) then text else SkipAuthority(text[1..])
  }

  predicate HasAuthority(text: Blob) {
    |text| >= 2 && text[0] == SLASH && text[1] == SLASH
  }

  /** The decoded path of a `file:` URI, and what follows the path. */
  function ReadUri(uri: Blob): Option<(Blob, Blob)> {
    if |uri| < 5 || uri[..5] != SCHEME then None
    else
      var rest := uri[5..];
      var (path, tail) := SplitPath(if HasAuthority(rest) then SkipAuthority(rest[2..]) else rest);
      match Unescape(path)
      case None => None
      case Some(bytes) => Some((bytes, tail))
  }

  lemma {:induction false} UnescapeUndoesEscape(path: Blob)
    ensures Unescape(EscapeAll(path)) == Some(path)
  {
    if path == [] {
    } else {
      UnescapeUndoesEscape(path[1..]);
      var text, rest := EscapeAll(path), EscapeAll(path[1..]);
      if Plain(path[0]) {
        assert text[1..] == rest;
      } else {
        assert text[3..] == rest;
      }
      assert [path[0]] + path[1..] == path;
    }
  }

  /** No escape contains a character that ends a path, nor a slash unless it is one. */
  lemma EscapeIsOpaque(b: Byte)
    ensures forall i :: 0 <= i < |Escape(b)| ==> !EndsPath(Escape(b)[i])
    ensures b != SLASH ==> forall i :: 0 <= i < |Escape(b)| ==> Escape(b)[i] != SLASH
  {
  }

  lemma {:induction false} SplitFindsPath(path: Blob, tail: Blob)
    requires tail != [] && EndsPath(tail[0])
    ensures SplitPath(EscapeAll(path) + tail) == (EscapeAll(path), tail)
  {
    if path == [] {
      assert EscapeAll(path) + tail == tail;
    } else {
      SplitFindsPath(path[1..], tail);
      var rest := EscapeAll(path[1..]) + tail;
      var head := Escape(path[0]);
      EscapeIsOpaque(path[0]);
      SplitOver(head, rest);
      assert EscapeAll(path) == head + EscapeAll(path[1..]);
      assert EscapeAll(path) + tail == head + rest;
    }
  }

  lemma {:induction false} SplitOver(head: Blob, rest: Blob)
    requires forall i :: 0 <= i < |head| ==> !EndsPath(head[i])
    ensures SplitPath(head + rest) == (head + SplitPath(rest).0, SplitPath(rest).1)
  {
    if head == [] {
      assert head + rest == rest;
      assert head + SplitPath(rest).0 == SplitPath(rest).0;
    } else {
      SplitOver(head[1..], rest);
      assert (head + rest)[1..] == head[1..] + rest;
      assert [head[0]] + (head[1..] + SplitPath(rest).0) == head + SplitPath(rest).0;
    }
  }

  /** Skipping an authority over escaped text stops at the escape of a suffix. */
  lemma {:induction false} SkipStopsAtSuffix(path: Blob, tail: Blob) returns (k: nat)
    requires tail != [] && EndsPath(tail[0])
    ensures k <= |path| && SkipAuthority(EscapeAll(path) + tail) == EscapeAll(path[k..]) + tail
  {
    if path == [] {
      k := 0;
      assert EscapeAll(path) + tail == tail;
    } else if path[0] == SLASH {
      k := 0;
      FirstByteShows(path);
      assert path[0..] == path;
    } else {
      var head, rest := Escape(path[0]), EscapeAll(path[1..]) + tail;
      var j := SkipStopsAtSuffix(path[1..], tail);
      k := j + 1;
      assert path[1..][j..] == path[k..];
      EscapeIsOpaque(path[0]);
      SkipOver(head, rest);
      assert EscapeAll(path) + tail == head + rest;
    }
  }

  lemma {:induction false} SkipOver(head: Blob, rest: Blob)
    requires forall i :: 0 <= i < |head| ==> !EndsPath(head[i]) && head[i] != SLASH
    ensures SkipAuthority(head + rest) == SkipAuthority(rest)
  {
    if head == [] {
      assert head + rest == rest;
    } else {
      SkipOver(head[1..], rest);
      assert (head + rest)[1..] == head[1..] + rest;
    }
  }

  lemma ReadsEscaped(path: Blob)
    ensures var tail := [QUESTION] + QUERY;
            ReadUri(UriOf(path)) ==
            if HasAuthority(EscapeAll(path) + tail) then
              var (text, rest) := SplitPath(SkipAuthority((EscapeAll(path) + tail)[2..]));
              match Unescape(text) case None => None case Some(bytes) => Some((bytes, rest))
            else Some((path, tail))
  {
    var tail := [QUESTION] + QUERY;
    AfterScheme(path);
    SplitFindsPath(path, tail);
    UnescapeUndoesEscape(path);
  }

  /** The URI names exactly the given path, with the fixed query, if and only if the path does
      not start with `//`: such a path would be read as an authority. */
  lemma UriNamesPathExactly(path: Blob)
    ensures ReadUri(UriOf(path)) == Some((path, Ascii("?mode=ro&immutable=1"))) <==> !HasAuthority(path)
  {
    var tail := [QUESTION] + QUERY;
    var text := EscapeAll(path) + tail;
    assert tail == Ascii("?mode=ro&immutable=1");
    ReadsEscaped(path);
    AuthorityIsVisible(path, tail);
    if HasAuthority(path) {
      assert text[2..] == EscapeAll(path[2..]) + tail;
      var k := SkipStopsAtSuffix(path[2..], tail);
      var suffix := path[2..][k..];
      SplitFindsPath(suffix, tail);
      UnescapeUndoesEscape(suffix);
      assert |suffix| < |path|;
    }
  }

  lemma FirstByteShows(path: Blob)
    requires path != []
    ensures EscapeAll(path) != [] && (EscapeAll(path)[0] == SLASH <==> path[0] == SLASH)
    ensures path[0] == SLASH ==> EscapeAll(path) == [SLASH] + EscapeAll(path[1..])
  {
    assert EscapeAll(path)[0] == Escape(path[0])[0];
  }

  lemma AuthorityIsVisible(path: Blob, tail: Blob)
    requires tail != [] && EndsPath(tail[0])
    ensures HasAuthority(EscapeAll(path) + tail) <==> HasAuthority(path)
    ensures HasAuthority(path) ==> EscapeAll(path) == [SLASH, SLASH] + EscapeAll(path[2..])
  {
    if path != [] {
      FirstByteShows(path);
      if path[0] == SLASH && |path| >= 2 {
        FirstByteShows(path[1..]);
        assert path[1..][1..] == path[2..];
      }
    }
  }

  /** Distinct paths have distinct URIs, those starting with `//` included. */
  lemma UriInjective(a: Blob, b: Blob)
    requires UriOf(a) == UriOf(b)
    ensures a == b
  {
    AfterScheme(a);
    AfterScheme(b);
    SplitFindsPath(a, [QUESTION] + QUERY);
    SplitFindsPath(b, [QUESTION] + QUERY);
    UnescapeUndoesEscape(a);
    UnescapeUndoesEscape(b);
  }

  lemma AfterScheme(path: Blob)
    ensures |UriOf(path)| > 5 && UriOf(path)[..5] == SCHEME
    ensures UriOf(path)[5..] == EscapeAll(path) + ([QUESTION] + QUERY)
  {
    DropFirst(SCHEME, EscapeAll(path), [QUESTION], QUERY);
  }

  lemma DropFirst(a: Blob, b: Blob, c: Blob, d: Blob)
    ensures |a + b + c + d| == |a| + |b| + |c| + |d|
    ensures (a + b + c + d)[..|a|] == a
    ensures (a + b + c + d)[|a|..] == b + (c + d)
  {
  }
}
