/**
 * The second definition of `LlamaBotRails::AgentAuth`
 * (lib/llama_bot_rails/agent_auth_2.rb). Next to the guard
 * `authenticate_user_or_agent!`, which now signs the token's user in, it
 * has a filter `check_agent_authentication` that refuses an agent on an
 * action outside the allow-list and a non-agent on an action inside it.
 *
 * The verifier, the user resolver (`LlamaBotRails.user_resolver`) and the
 * sign-in function (`LlamaBotRails.sign_in_method`) are parameters; the
 * user type `U` includes whatever the resolver returns for "no user".
 */
module AgentAuth2 {
  import opened Wrappers
  import Text
  import opened AgentAuthCommon

  datatype Headers = Headers(authorization: Option<string>)
  datatype Env = Env(warden: Option<Warden>)
  /** `request`, with `headers` and `env` each possibly nil. */
  datatype Request = Request(headers: Option<Headers>, env: Option<Env>)

  /** What the filter and the guard read from the object that includes the module. */
  datatype Controller = Controller(
    isJob: bool,                    // `is_a?(ActiveJob::Base)`
    request: Option<Request>,       // None when there is no `request` or it is nil
    actionName: string,
    permitted: Option<seq<string>>) // `self.class.llama_bot_permitted_actions`; None when the class lacks it

  /**
   * How the guard ends, and which host callbacks it called: the argument
   * given to the user resolver and the user given to sign-in (None when
   * not called).
   */
  datatype AuthResult<U> = AuthResult(outcome: Outcome, resolvedFor: Option<Option<int>>, signedInAs: Option<U>)

  function RequestEnv(c: Controller): Option<Env> {
    if c.request.Some? then c.request.value.env else None
  }

  /** The token the request presents, if it has headers and a well-formed `LlamaBot` header. */
  function AgentToken(c: Controller): Option<string> {
    if c.request.None? || c.request.value.headers.None? then None
    else PresentedToken(c.request.value.headers.value.authorization)
  }

  /** `llama_bot_request?` */
  function LlamaBotRequest(c: Controller, verify: string -> Option<TokenData>): (r: bool)
    ensures r ==> c.request.Some? && c.request.value.headers.Some?
    ensures r <==> AgentToken(c).Some? && verify(AgentToken(c).value).Some?
  {
    match AgentToken(c)
    case None => false
    case Some(token) => verify(token).Some?
  }

  /** `devise_user_signed_in?`: false without Devise or without a request env; otherwise warden's `authenticated?` (nil, so false, without warden). */
  function DeviseUserSignedIn(deviseDefined: bool, c: Controller): (r: bool)
    ensures !deviseDefined || RequestEnv(c).None? ==> !r
    ensures deviseDefined && RequestEnv(c).Some? ==>
      (r <==> RequestEnv(c).value.warden.Some? && RequestEnv(c).value.warden.value.authenticated)
  {
    deviseDefined && RequestEnv(c).Some? && RequestEnv(c).value.warden.Some? && RequestEnv(c).value.warden.value.authenticated
  }

  /** `should_check_agent_auth?`: never for a signed-in user, otherwise exactly for agent requests. */
  function ShouldCheckAgentAuth(deviseDefined: bool, c: Controller, verify: string -> Option<TokenData>): (r: bool)
    ensures DeviseUserSignedIn(deviseDefined, c) ==> !r
    ensures !DeviseUserSignedIn(deviseDefined, c) ==> r == LlamaBotRequest(c, verify)
  {
    !DeviseUserSignedIn(deviseDefined, c) && LlamaBotRequest(c, verify)
  }

  function NotWhiteListedMessage(action: string): string {
    "Action '" + action + "' isn't white-listed for LlamaBot."
  }

  function RequiresAuthenticationMessage(action: string): string {
    "Action '" + action + "' requires LlamaBot authentication"
  }

  /**
   * `check_agent_authentication`: nothing for jobs or classes without the
   * allow-list; otherwise 403 exactly when "agent request" and "action is
   * allow-listed" differ, with a message saying which way.
   */
  function CheckAgentAuthentication(c: Controller, verify: string -> Option<TokenData>): (r: Outcome)
    ensures r == Proceed || r.Forbidden?
    ensures r.Forbidden? <==>
      !c.isJob && c.permitted.Some? && LlamaBotRequest(c, verify) != (c.actionName in c.permitted.value)
    ensures r.Forbidden? && LlamaBotRequest(c, verify) ==> r.error == NotWhiteListedMessage(c.actionName)
    ensures r.Forbidden? && !LlamaBotRequest(c, verify) ==> r.error == RequiresAuthenticationMessage(c.actionName)
  {
    if c.isJob || c.permitted.None? then Proceed
    else
      var isLlamaRequest := LlamaBotRequest(c, verify);
      var actionIsWhitelisted := c.actionName in c.permitted.value;
      if isLlamaRequest then
        if !actionIsWhitelisted then Forbidden(NotWhiteListedMessage(c.actionName)) else Proceed
      else if actionIsWhitelisted then Forbidden(RequiresAuthenticationMessage(c.actionName))
      else Proceed
  }

  /**
   * Run as the source wires it (`before_action ..., if: :should_check_agent_auth?`),
   * the filter only sees agent requests, so it never answers "requires
   * LlamaBot authentication".
   */
  lemma GuardedFilterNeverDemandsToken(deviseDefined: bool, c: Controller, verify: string -> Option<TokenData>)
    requires ShouldCheckAgentAuth(deviseDefined, c, verify)
    ensures CheckAgentAuthentication(c, verify) != Forbidden(RequiresAuthenticationMessage(c.actionName))
  {
    MessagesDiffer(c.actionName);
  }

  /** The two 403 messages differ: after the quoted action, one goes on with "r", the other with "i". */
  lemma MessagesDiffer(action: string)
    ensures RequiresAuthenticationMessage(action) != NotWhiteListedMessage(action)
  {
    var quoted := "Action '" + action;
    assert RequiresAuthenticationMessage(action)[|quoted| + 2] == 'r';
    assert NotWhiteListedMessage(action)[|quoted| + 2] == 'i';
  }

  /**
   * The fallback: with Devise loaded and a request env, `warden.authenticate!`
   * (a `NoMethodError` on nil when the env holds no warden); otherwise a bare 401.
   */
  function Fallback(deviseDefined: bool, c: Controller): (r: Outcome)
    ensures r == WardenAuthenticate ==> deviseDefined && RequestEnv(c).Some?
    ensures !deviseDefined || RequestEnv(c).None? ==> r == Unauthorized
    ensures deviseDefined && RequestEnv(c).Some? ==>
      (r == WardenAuthenticate <==> RequestEnv(c).value.warden.Some?)
    ensures deviseDefined && RequestEnv(c).Some? && RequestEnv(c).value.warden.None? ==>
      r == NoMethodError("authenticate!")
  {
    if deviseDefined && RequestEnv(c).Some? then
      (if RequestEnv(c).value.warden.Some? then WardenAuthenticate else NoMethodError("authenticate!"))
    else Unauthorized
  }

  predicate Allowed(c: Controller) {
    c.permitted.Some? && c.actionName in c.permitted.value
  }

  /**
   * `authenticate_user_or_agent!`. A signed-in Devise user proceeds without
   * any token check. A valid token on an allow-listed action resolves the
   * token's `user_id` to a user (possibly "no user"), hands that to sign-in,
   * and ends in 401 exactly when sign-in fails. A valid token on any other
   * action is refused with 403 without calling either callback. Everything
   * else goes to the fallback.
   */
  function AuthenticateUserOrAgent<U>(
    deviseDefined: bool, c: Controller, verify: string -> Option<TokenData>,
    resolveUser: Option<int> -> U, signIn: (Option<Env>, U) -> bool): (r: AuthResult<U>)
    ensures DeviseUserSignedIn(deviseDefined, c) ==> r == AuthResult(Proceed, None, None)
    ensures !DeviseUserSignedIn(deviseDefined, c) && LlamaBotRequest(c, verify) && Allowed(c) ==>
      var userId := verify(AgentToken(c).value).value.userId;
      && r.resolvedFor == Some(userId)
      && r.signedInAs == Some(resolveUser(userId))
      && (r.outcome == Proceed <==> signIn(RequestEnv(c), resolveUser(userId)))
      && (r.outcome == Unauthorized <==> !signIn(RequestEnv(c), resolveUser(userId)))
    ensures !DeviseUserSignedIn(deviseDefined, c) && LlamaBotRequest(c, verify) && !Allowed(c) ==>
      r == AuthResult(Forbidden(NotWhiteListedMessage(c.actionName)), None, None)
    ensures !DeviseUserSignedIn(deviseDefined, c) && !LlamaBotRequest(c, verify) ==>
      r == AuthResult(Fallback(deviseDefined, c), None, None)
    ensures r.resolvedFor.Some? <==> r.signedInAs.Some?
  {
    if DeviseUserSignedIn(deviseDefined, c) then AuthResult(Proceed, None, None)
    else if LlamaBotRequest(c, verify) then
      // the source splits the header and verifies the token a second time here
      var data := verify(AgentToken(c).value).value;
      if Allowed(c) then
        var user := resolveUser(data.userId);
        AuthResult(if signIn(RequestEnv(c), user) then Proceed else Unauthorized, Some(data.userId), Some(user))
      else
        AuthResult(Forbidden(NotWhiteListedMessage(c.actionName)), None, None)
    else AuthResult(Fallback(deviseDefined, c), None, None)
  }

  /**
   * `llama_bot_request?` is false without a request, without headers,
   * without an `Authorization` header, for another scheme, for a blank
   * token, and when the verifier rejects the token.
   */
  lemma NotAnAgentRequest(c: Controller, verify: string -> Option<TokenData>, env: Option<Env>, token: string)
    ensures !LlamaBotRequest(c.(request := None), verify)
    ensures !LlamaBotRequest(c.(request := Some(Request(None, env))), verify)
    ensures !LlamaBotRequest(c.(request := Some(Request(Some(Headers(None)), env))), verify)
    ensures !LlamaBotRequest(c.(request := Some(Request(Some(Headers(Some("Bearer " + token))), env))), verify)
    ensures !LlamaBotRequest(c.(request := Some(Request(Some(Headers(Some(AuthScheme + " "))), env))), verify)
    ensures token != "" && !Text.IsAsciiSpace(token[0]) && Text.Present(token) && verify(token).None? ==>
      !LlamaBotRequest(c.(request := Some(Request(Some(Headers(Some(AuthScheme + " " + token))), env))), verify)
  {
    RejectedHeaders(token, " ");
    HeaderNotAgent(c, verify, env, None);
    HeaderNotAgent(c, verify, env, Some("Bearer " + token));
    HeaderNotAgent(c, verify, env, Some(AuthScheme + " "));
    if token != "" && !Text.IsAsciiSpace(token[0]) && Text.Present(token) && verify(token).None? {
      AgentHeaderPresentsToken(token);
    }
  }

  /** A header that presents no token makes no agent request. */
  lemma HeaderNotAgent(c: Controller, verify: string -> Option<TokenData>, env: Option<Env>, authorization: Option<string>)
    requires PresentedToken(authorization) == None
    ensures !LlamaBotRequest(c.(request := Some(Request(Some(Headers(authorization)), env))), verify)
  {
  }

  /**
   * End to end: a request with header `LlamaBot <token>` whose token the
   * verifier accepts, on an allow-listed action and with nobody signed in,
   * signs in whatever the resolver returns for the token's `user_id`.
   */
  lemma AgentSignInOnAllowedAction<U>(
    deviseDefined: bool, c: Controller, token: string, data: TokenData,
    verify: string -> Option<TokenData>, resolveUser: Option<int> -> U, signIn: (Option<Env>, U) -> bool)
    requires token != "" && !Text.IsAsciiSpace(token[0]) && Text.Present(token)
    requires c.request.Some? && c.request.value.headers == Some(Headers(Some(AuthScheme + " " + token)))
    requires verify(token) == Some(data)
    requires !DeviseUserSignedIn(deviseDefined, c) && Allowed(c)
    ensures AuthenticateUserOrAgent(deviseDefined, c, verify, resolveUser, signIn)
         == AuthResult(if signIn(RequestEnv(c), resolveUser(data.userId)) then Proceed else Unauthorized,
                       Some(data.userId), Some(resolveUser(data.userId)))
  {
    AgentHeaderPresentsToken(token);
  }
}
