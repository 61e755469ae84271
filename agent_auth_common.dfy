/**
 * What the two definitions of `LlamaBotRails::AgentAuth` share: the
 * `Authorization: LlamaBot <token>` header format, the data a verified token
 * carries, and the ways a request guard can end.
 */
module AgentAuthCommon {
  import opened Wrappers
  import Text

  /** `AUTH_SCHEME`. */
  const AuthScheme := "LlamaBot"

  /** The payload of a verified token (`{session_id:, user_id:}`); `user_id` may be absent. */
  datatype TokenData = TokenData(sessionId: string, userId: Option<int>)

  /** `request.env["warden"]` when present. */
  datatype Warden = Warden(authenticated: bool)

  /** How a guard ends: by returning, by rendering or heading a response, or by raising. */
  datatype Outcome =
    | Proceed                   // returns without rendering: the action runs
    | Forbidden(error: string)  // `render json: { error: ... }, status: :forbidden`
    | Unauthorized              // `head :unauthorized`
    | WardenAuthenticate        // `request.env["warden"].authenticate!` (Devise answers 401 or redirects)
    | NoMethodError(name: string) // a method called on `nil` or on a class without it

  /** The first index at or after `from` that is not an ASCII space (or `|s|`). */
  function SkipSpaces(s: string, from: nat): (i: nat)
    requires from <= |s|
    ensures from <= i <= |s|
    ensures forall k :: from <= k < i ==> Text.IsAsciiSpace(s[k])
    ensures i < |s| ==> !Text.IsAsciiSpace(s[i])
    decreases |s| - from
  {
    if from < |s| && Text.IsAsciiSpace(s[from]) then SkipSpaces(s, from + 1) else from
  }

  /** The first index at or after `from` that is an ASCII space (or `|s|`). */
  function SkipWord(s: string, from: nat): (i: nat)
    requires from <= |s|
    ensures from <= i <= |s|
    ensures forall k :: from <= k < i ==> !Text.IsAsciiSpace(s[k])
    ensures i < |s| ==> Text.IsAsciiSpace(s[i])
    decreases |s| - from
  {
    if from < |s| && !Text.IsAsciiSpace(s[from]) then SkipWord(s, from + 1) else from
  }

  /**
   * `header.split(" ", 2)`. A single-space pattern makes Ruby split
   * awk-style: leading whitespace is skipped, the first field runs to the
   * next whitespace, and the second field starts at the first non-space
   * character after it (it is "" when only whitespace follows). An empty
   * header gives no fields and an all-whitespace one gives [""].
   */
  function SplitSchemeToken(h: string): (parts: seq<string>)
    ensures |parts| <= 2
    ensures |parts| == 0 <==> h == ""
    ensures |parts| >= 1 ==> forall k :: 0 <= k < |parts[0]| ==> !Text.IsAsciiSpace(parts[0][k])
    ensures |parts| == 2 ==>
      && parts[0] != ""
      && |parts[1]| < |h| && parts[1] == h[|h| - |parts[1]|..]
      && Text.IsAsciiSpace(h[|h| - |parts[1]| - 1])
      && (parts[1] != "" ==> !Text.IsAsciiSpace(parts[1][0]))
  {
    if h == "" then []
    else
      var i := SkipSpaces(h, 0);
      if i == |h| then [""]
      else
        var j := SkipWord(h, i);
        if j == |h| then [h[i..]]
        else
          var k := SkipSpaces(h, j);
          assert k > j;
          [h[i..j], h[k..]]
  }

  predicate AllAsciiSpace(s: string) {
    forall k :: 0 <= k < |s| ==> Text.IsAsciiSpace(s[k])
  }

  predicate IsWord(s: string) {
    s != "" && forall k :: 0 <= k < |s| ==> !Text.IsAsciiSpace(s[k])
  }

  /** A header built as whitespace, a scheme, whitespace and a token splits back into the scheme and the token. */
  lemma SplitWellFormed(lead: string, scheme: string, gap: string, token: string)
    requires AllAsciiSpace(lead) && IsWord(scheme)
    requires gap != "" && AllAsciiSpace(gap)
    requires token == "" || !Text.IsAsciiSpace(token[0])
    ensures SplitSchemeToken(lead + scheme + gap + token) == [scheme, token]
  {
    var h := lead + scheme + gap + token;
    var i := SkipSpaces(h, 0);
    assert h[|lead|] == scheme[0];
    assert i == |lead|;
    var j := SkipWord(h, i);
    assert h[|lead| + |scheme|] == gap[0];
    assert j == |lead| + |scheme|;
    var k := SkipSpaces(h, j);
    var end := |lead| + |scheme| + |gap|;
    assert forall m :: |lead| + |scheme| <= m < end ==> h[m] == gap[m - |lead| - |scheme|];
    if token != "" {
      assert h[end] == token[0];
    }
    assert k == end;
    assert h[i..j] == scheme;
    assert h[k..] == token;
  }

  /** A header that is one word, after optional whitespace, gives that word alone: no token. */
  lemma SplitSingleWord(lead: string, word: string)
    requires AllAsciiSpace(lead) && IsWord(word)
    ensures SplitSchemeToken(lead + word) == [word]
  {
    var h := lead + word;
    assert h[|lead|] == word[0];
    assert SkipSpaces(h, 0) == |lead|;
    var j := SkipWord(h, |lead|);
    assert j == |h|;
    assert h[|lead|..] == word;
  }

  /** The token of an agent header: present only for the `LlamaBot` scheme with a non-blank token. */
  function PresentedToken(authorization: Option<string>): Option<string> {
    match authorization
    case None => None
    case Some(h) =>
      var parts := SplitSchemeToken(h);
      if |parts| == 2 && parts[0] == AuthScheme && Text.Present(parts[1]) then Some(parts[1]) else None
  }

  /** `Authorization: LlamaBot <token>` presents exactly that token (when it is not blank). */
  lemma AgentHeaderPresentsToken(token: string)
    requires token != "" && !Text.IsAsciiSpace(token[0]) && Text.Present(token)
    ensures PresentedToken(Some(AuthScheme + " " + token)) == Some(token)
  {
    SplitWellFormed("", AuthScheme, " ", token);
    assert "" + AuthScheme + " " + token == AuthScheme + " " + token;
  }

  /**
   * Headers that never present a token, whatever the verifier would say: a
   * missing header, another scheme such as `Bearer`, the bare scheme and the
   * scheme followed only by whitespace.
   */
  lemma RejectedHeaders(token: string, trailing: string)
    requires trailing != "" && AllAsciiSpace(trailing)
    ensures PresentedToken(None) == None
    ensures PresentedToken(Some("Bearer " + token)) == None
    ensures PresentedToken(Some(AuthScheme)) == None
    ensures PresentedToken(Some(AuthScheme + trailing)) == None
  {
    var bearer := "Bearer " + token;
    var parts := SplitSchemeToken(bearer);
    assert |parts| >= 1 && parts[0] == "Bearer" by {
      var j := SkipWord(bearer, 0);
      assert bearer[6] == ' ';
      assert j == 6;
    }
    SplitSingleWord("", AuthScheme);
    assert "" + AuthScheme == AuthScheme;
    SplitWellFormed("", AuthScheme, trailing, "");
    assert "" + AuthScheme + trailing + "" == AuthScheme + trailing;
  }
}
