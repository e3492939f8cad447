/**
 * Resolving a track's location into a local file path (`normalizeFileUri` in lib.js).
 * The URI parser itself (Node's `url.parse`) is not modelled: its result is the
 * record `ParsedUri`, and callers pass the parser in as a function.
 */
module FileUri {
  import opened Wrappers

  /** The fields of a `url.parse` result that the resolver looks at. */
  datatype ParsedUri = ParsedUri(protocol: Option<string>, host: Option<string>, pathname: string)

  /** The two errors `normalizeFileUri` throws. */
  datatype UriError =
    | UnsupportedProtocol(protocol: string)
    | UnsupportedHost(host: string)
  {
    /** The error's message text, as thrown. */
    function Message(): string {
      match this
      case UnsupportedProtocol(p) =>
        "Unsupported protocol \"" + p + "\". Only files on the local file system can be exported."
      case UnsupportedHost(h) =>
        "Unsupported host \"" + h + "\". Only files on the local file system can be exported."
    }
  }

  const FileProtocol: string := "file:"

  function LowerChar(c: char): char {
    if 'A' <= c <= 'Z' then (c as int + 32) as char else c
  }

  /** `String.prototype.toLowerCase`, restricted to ASCII letters. */
  function ToLower(s: string): (r: string)
    ensures |r| == |s|
    ensures forall k :: 0 <= k < |s| ==> r[k] == LowerChar(s[k])
  {
    if s == [] then [] else [LowerChar(s[0])] + ToLower(s[1..])
  }

  lemma {:induction false} ToLowerIdempotent(s: string)
    ensures ToLower(ToLower(s)) == ToLower(s)
  {
    if s != [] {
      ToLowerIdempotent(s[1..]);
      assert ToLower(s)[1..] == ToLower(s[1..]);
    }
  }

  /**
   * Accepts a location only when its protocol is absent or `file:` in any letter
   * case, and then only when it names no host; the protocol is checked first.
   */
  function NormalizeFileUri(u: ParsedUri): (r: Result<string, UriError>)
    ensures r.Err? && r.error.UnsupportedProtocol?
        <==> u.protocol.Some? && ToLower(u.protocol.value) != FileProtocol
    ensures r.Err? && r.error.UnsupportedProtocol? ==> r.error.protocol == ToLower(u.protocol.value)
    ensures r.Err? && r.error.UnsupportedHost?
        <==> (u.protocol.None? || ToLower(u.protocol.value) == FileProtocol)
             && u.host.Some? && u.host.value != ""
    ensures r.Err? && r.error.UnsupportedHost? ==> r.error.host == u.host.value
    ensures r.Ok? ==> r.value == u.pathname
  {
    var protocol := if u.protocol.Some? then Some(ToLower(u.protocol.value)) else None;
    if !(protocol.None? || protocol.value == FileProtocol) then
      Err(UnsupportedProtocol(protocol.value))
    else if u.host.Some? && u.host.value != "" then
      Err(UnsupportedHost(u.host.value))
    else
      Ok(u.pathname)
  }

  /** Case-insensitive equality with `file:`, defined character by character. */
  predicate IsFileProtocol(p: string) {
    |p| == |FileProtocol| && forall k :: 0 <= k < |p| ==> LowerChar(p[k]) == FileProtocol[k]
  }

  /** A location is local when it has no protocol or a `file:` one, and no host. */
  predicate IsLocal(u: ParsedUri) {
    (u.protocol.None? || IsFileProtocol(u.protocol.value))
    && (u.host.None? || u.host.value == "")
  }

  /** The resolver accepts exactly the local locations, and then yields their path. */
  lemma AcceptsExactlyLocal(u: ParsedUri)
    ensures NormalizeFileUri(u).Ok? <==> IsLocal(u)
    ensures NormalizeFileUri(u).Ok? ==> NormalizeFileUri(u) == Ok(u.pathname)
  {
    if u.protocol.Some? {
      var p := u.protocol.value;
      if IsFileProtocol(p) {
        assert ToLower(p) == FileProtocol;
      }
    }
  }

  /** Only the letter case of the protocol is irrelevant: `FILE:` and `file:` resolve alike. */
  lemma ProtocolCaseInsensitive(u: ParsedUri, p: string)
    ensures NormalizeFileUri(u.(protocol := Some(p)))
         == NormalizeFileUri(u.(protocol := Some(ToLower(p))))
  {
    ToLowerIdempotent(p);
  }

  /** `FILE:` with no host is accepted; `http:` is refused as a protocol even with a host. */
  lemma ProtocolExamples(path: string)
    ensures NormalizeFileUri(ParsedUri(Some("FILE:"), None, path)) == Ok(path)
    ensures NormalizeFileUri(ParsedUri(Some("http:"), Some("example.com"), path))
         == Err(UnsupportedProtocol("http:"))
    ensures NormalizeFileUri(ParsedUri(Some("file:"), Some("example.com"), path))
         == Err(UnsupportedHost("example.com"))
  {
    assert ToLower("FILE:") == FileProtocol;
    assert ToLower("http:") == "http:";
  }
}
