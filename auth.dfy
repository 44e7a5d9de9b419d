/** The bearer-token gate of the mutating handlers: reading the token out of
    the Authorization header and checking it against the user directory. */
module Auth {
  import opened Types
  import opened UserDirectory

  const BearerPrefix: string := "Bearer "

  /** The bytes a header value may hold for it to be read as text: visible
      ASCII and horizontal tab (the rule of `HeaderValue::to_str`). */
  predicate Visible(b: byte) {
    (32 <= b < 127) || b == 9
  }

  /** The header value as text, or None when some byte is not visible. */
  function ToStr(raw: seq<byte>): (r: Option<string>)
    ensures r.Some? <==> forall i :: 0 <= i < |raw| ==> Visible(raw[i])
    ensures r.Some? ==> |r.value| == |raw| && forall i :: 0 <= i < |raw| ==> r.value[i] as int == raw[i] as int
  {
    if forall i :: 0 <= i < |raw| ==> Visible(raw[i])
    then Some(seq(|raw|, i requires 0 <= i < |raw| => raw[i] as int as char))
    else None
  }

  /** The bytes of a string of narrow characters. */
  function Bytes(s: string): (raw: seq<byte>)
    requires forall i :: 0 <= i < |s| ==> s[i] as int < 256
    ensures |raw| == |s| && forall i :: 0 <= i < |s| ==> raw[i] as int == s[i] as int
    ensures (forall i :: 0 <= i < |s| ==> 32 <= s[i] as int < 127 || s[i] == '\t') ==> ToStr(raw) == Some(s)
  {
    var raw := seq(|s|, i requires 0 <= i < |s| => s[i] as int as byte);
    assert (forall i :: 0 <= i < |s| ==> 32 <= s[i] as int < 127 || s[i] == '\t') ==> ToStr(raw) == Some(s) by {
      if forall i :: 0 <= i < |s| ==> 32 <= s[i] as int < 127 || s[i] == '\t' {
        assert forall i :: 0 <= i < |raw| ==> Visible(raw[i]);
        assert ToStr(raw).value == s;
      }
    }
    raw
  }

  /** `str::strip_prefix`: the rest of `s` when it starts with `prefix`. */
  function StripPrefix(s: string, prefix: string): (r: Option<string>)
    ensures r.Some? <==> prefix <= s
    ensures r.Some? ==> prefix + r.value == s
  {
    if prefix <= s then Some(s[|prefix|..]) else None
  }

  /** `extract_token`: the Authorization header's value after a literal
      "Bearer " prefix. `header` is None when the request has no such header. */
  function ExtractToken(header: Option<seq<byte>>): (r: Option<string>)
    ensures r.Some? <==> header.Some? && ToStr(header.value).Some? && BearerPrefix <= ToStr(header.value).value
    ensures r.Some? ==> ToStr(header.value) == Some(BearerPrefix + r.value)
  {
    match header
    case None => None
    case Some(raw) =>
      match ToStr(raw)
      case None => None
      case Some(text) => StripPrefix(text, BearerPrefix)
  }

  /** The check every mutating handler makes before touching the store: a
      missing or unreadable bearer token, then a token no user holds, are refused. */
  function Authorize(users: seq<User>, header: Option<seq<byte>>): (r: Result<string>)
    ensures r.Ok? <==> exists t :: ExtractToken(header) == Some(t) && TokenValid(users, t)
    ensures r.Ok? ==> ExtractToken(header) == Some(r.value)
    ensures r.Err? ==> r.error == (if ExtractToken(header).None? then MissingAuthorization else InvalidToken)
  {
    match ExtractToken(header)
    case None => Err(MissingAuthorization)
    case Some(t) => if TokenValid(users, t) then Ok(t) else Err(InvalidToken)
  }

  /** A header written as "Bearer " and a visible token yields exactly that token. */
  lemma ExtractBearer(token: string)
    requires forall i :: 0 <= i < |token| ==> (32 <= token[i] as int < 127 || token[i] == '\t')
    ensures ExtractToken(Some(Bytes(BearerPrefix + token))) == Some(token)
  {
    var text := BearerPrefix + token;
    var raw := Bytes(text);
    assert forall i :: 0 <= i < |raw| ==> Visible(raw[i]) by {
      forall i | 0 <= i < |raw| ensures Visible(raw[i]) {
        if i >= |BearerPrefix| {
          assert text[i] == token[i - |BearerPrefix|];
        }
      }
    }
    var back := ToStr(raw).value;
    assert back == text;
  }

  /** The prefix is matched literally: a header shorter than "Bearer ", or
      one whose first character is not 'B' or whose seventh is not a space,
      leaves no token. */
  lemma ExtractNeedsBearer(raw: seq<byte>)
    requires |raw| < 7 || raw[0] as int != 'B' as int || raw[6] as int != ' ' as int
    ensures ExtractToken(Some(raw)) == None
  {
  }

  /** With a well-formed directory the gate opens exactly for the tokens that
      were issued to ids 1..n. */
  lemma AuthorizeIssued(users: seq<User>, header: Option<seq<byte>>)
    requires WellFormed(users)
    ensures Authorize(users, header).Ok? <==>
      exists k :: 1 <= k <= |users| && ExtractToken(header) == Some(TokenFor(k))
  {
    match ExtractToken(header)
    case None =>
    case Some(t) =>
      TokenValidIssued(users, t);
  }
}
