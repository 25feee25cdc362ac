/**
  How a storage key reaches the `:key` routes of the upload controller
  (`DELETE /upload/:key`, `PUT /upload/:key`, `GET /upload/signed-url/:key`).
  A route parameter is one non-empty path segment: it holds no `/`. The
  router hands it to the handler percent-decoded.

  Paths are taken relative to the controller's `upload` prefix.
 */
module Routing {
  import opened Wrappers
  import opened Text
  import FileKeys

  /** The pattern of `DELETE /upload/:key` and `PUT /upload/:key`, before the parameter. */
  const KeyRoute: string := "/"

  /** The pattern of `GET /upload/signed-url/:key`, before the parameter. */
  const SignedUrlRoute: string := "/signed-url/"

  /** The percent-encoding of one character: `/` and `%` are escaped, the rest are kept. */
  function EscapeChar(c: char): string {
    if c == '/' then "%2F" else if c == '%' then "%25" else [c]
  }

  /** `encodeURIComponent`, restricted to the two characters the routing depends on. */
  function Escape(s: string): (e: string)
    ensures '/' !in e
    ensures |e| >= |s|
    decreases |s|
  {
    if |s| == 0 then [] else EscapeChar(s[0]) + Escape(s[1..])
  }

  /** `decodeURIComponent` of the escapes `%2F` and `%25`; any other character is kept. */
  function Unescape(s: string): string
    decreases |s|
  {
    if |s| >= 3 && s[0] == '%' && s[1] == '2' && s[2] == 'F' then "/" + Unescape(s[3..])
    else if |s| >= 3 && s[0] == '%' && s[1] == '2' && s[2] == '5' then "%" + Unescape(s[3..])
    else if |s| == 0 then []
    else [s[0]] + Unescape(s[1..])
  }

  /** Decoding undoes encoding, for every string. */
  lemma {:induction false} UnescapeEscape(s: string)
    ensures Unescape(Escape(s)) == s
    decreases |s|
  {
    if |s| > 0 {
      UnescapeEscape(s[1..]);
      var e := Escape(s);
      assert e == EscapeChar(s[0]) + Escape(s[1..]);
      if s[0] == '/' || s[0] == '%' {
        assert e[3..] == Escape(s[1..]);
      } else {
        assert e[0] == s[0] && e[1..] == Escape(s[1..]);
      }
    }
  }

  /**
    The `:key` parameter a request path yields on a route whose pattern is
    `prefix` then `:key`: the rest of the path, decoded, when it is one
    non-empty segment; no match otherwise.
   */
  function MatchKey(prefix: string, path: string): Option<string> {
    if StartsWith(path, prefix) && |path| > |prefix| && '/' !in path[|prefix|..]
    then Some(Unescape(path[|prefix|..]))
    else None
  }

  /**
    As written, the gallery puts the key into the path as it is. Every key
    the service generates holds a `/`, so the request matches no `:key`
    route.
   */
  lemma GeneratedKeyMissesRoute(prefix: string, originalName: string, folder: string, timestamp: nat, token: string)
    ensures MatchKey(prefix, prefix + FileKeys.GenerateFileName(originalName, folder, timestamp, token)).None?
  {
    var key := FileKeys.GenerateFileName(originalName, folder, timestamp, token);
    var path := prefix + key;
    assert path[|prefix|..] == key;
    assert key[|folder|] == (folder + "/")[|folder|] == '/';
  }

  /** With the key escaped, any non-empty key matches the route and arrives unchanged. */
  lemma EscapedKeyRoutes(prefix: string, key: string)
    requires key != ""
    ensures MatchKey(prefix, prefix + Escape(key)) == Some(key)
  {
    var path := prefix + Escape(key);
    assert path[..|prefix|] == prefix && path[|prefix|..] == Escape(key);
    UnescapeEscape(key);
  }

  /** Every generated key, escaped, reaches the delete, replace and signed-URL handlers as itself. */
  lemma GeneratedKeyRoutesEscaped(originalName: string, folder: string, timestamp: nat, token: string)
    ensures var key := FileKeys.GenerateFileName(originalName, folder, timestamp, token);
      && MatchKey(KeyRoute, KeyRoute + Escape(key)) == Some(key)
      && MatchKey(SignedUrlRoute, SignedUrlRoute + Escape(key)) == Some(key)
  {
    var key := FileKeys.GenerateFileName(originalName, folder, timestamp, token);
    assert |key| > 0;
    EscapedKeyRoutes(KeyRoute, key);
    EscapedKeyRoutes(SignedUrlRoute, key);
  }
}
