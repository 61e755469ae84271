/**
 * The first definition of `LlamaBotRails::AgentAuth`
 * (lib/llama_bot_rails/agent_auth.rb): a browser user signed in through
 * Devise, or an agent carrying a valid `LlamaBot` token for an allow-listed
 * action, may proceed; everyone else is handed to Devise or refused.
 *
 * The message verifier is the parameter `verify` (None for a forged or
 * expired token).
 */
module AgentAuth {
  import opened Wrappers
  import Text
  import opened AgentAuthCommon

  /** What the guard reads from the controller instance and its request. */
  datatype Controller = Controller(
    actionName: string,
    permitted: Option<seq<string>>,  // `self.class.llama_bot_permitted_actions`; None when the class lacks it
    authorization: Option<string>,   // `request.headers["Authorization"]`
    warden: Option<Warden>)          // `request.env["warden"]`

  /** The 403 body: it names the action and points to `llama_bot_allow :method`. */
  function NotWhiteListedMessage(action: string): (msg: string)
    ensures Text.OccursAt(msg, action, 8)
    ensures Text.Contains(msg, "`llama_bot_allow :method`")
  {
    var head := "Action '" + action + "' isn't white-listed for LlamaBot. To fix this, include LlamaBotRails::ControllerExtensions and add ";
    var hint := "`llama_bot_allow :method`";
    var msg := head + hint + " in your controller.";
    assert msg[8..8 + |action|] == action;
    assert msg[|head|..|head| + |hint|] == hint;
    Text.ContainsWitness(msg, hint, |head|);
    msg
  }

  /** `llama_bot_request?`: the header presents a token and the verifier accepts it. */
  function LlamaBotRequest(c: Controller, verify: string -> Option<TokenData>): (r: bool)
    ensures r ==>
      && c.authorization.Some?
      && var parts := SplitSchemeToken(c.authorization.value);
      && |parts| == 2 && parts[0] == AuthScheme && Text.Present(parts[1]) && verify(parts[1]).Some?
    ensures c.authorization.Some? && PresentedToken(c.authorization).Some? && verify(PresentedToken(c.authorization).value).Some? ==> r
  {
    match PresentedToken(c.authorization)
    case None => false
    case Some(token) => verify(token).Some?
  }

  /** `devise_user_signed_in?`: never without Devise; otherwise warden's `authenticated?` (nil, so false, without warden). */
  function DeviseUserSignedIn(deviseDefined: bool, c: Controller): (r: bool)
    ensures !deviseDefined ==> !r
    ensures r ==> c.warden.Some? && c.warden.value.authenticated
    ensures deviseDefined && c.warden.Some? && c.warden.value.authenticated ==> r
  {
    deviseDefined && c.warden.Some? && c.warden.value.authenticated
  }

  /** `respond_to?(:llama_bot_permitted_actions) && llama_bot_permitted_actions.include?(action_name)` */
  predicate Allowed(c: Controller) {
    c.permitted.Some? && c.actionName in c.permitted.value
  }

  /** The last resort: Devise's warden when Devise is loaded, a bare 401 otherwise. */
  function Fallback(deviseDefined: bool, c: Controller): Outcome {
    if deviseDefined then
      (if c.warden.Some? then WardenAuthenticate else NoMethodError("authenticate!"))
    else Unauthorized
  }

  /**
   * `authenticate_user_or_agent!` as written. On the refusal path the
   * source logs `self.class.llama_bot_permitted_actions` at debug level
   * before rendering 403; the string is built whatever the log level, so a
   * class without the allow-list raises NoMethodError there instead.
   */
  function AuthenticateUserOrAgentAsWritten(deviseDefined: bool, c: Controller, verify: string -> Option<TokenData>): (r: Outcome)
    ensures r == NoMethodError("llama_bot_permitted_actions") <==>
      !DeviseUserSignedIn(deviseDefined, c) && LlamaBotRequest(c, verify) && c.permitted.None?
  {
    if DeviseUserSignedIn(deviseDefined, c) then Proceed
    else if LlamaBotRequest(c, verify) then
      if Allowed(c) then Proceed
      else if c.permitted.None? then NoMethodError("llama_bot_permitted_actions")
      else Forbidden(NotWhiteListedMessage(c.actionName))
    else Fallback(deviseDefined, c)
  }

  /**
   * `authenticate_user_or_agent!` as its comments intend: a valid token on
   * an action that is not allow-listed, including a class without the list,
   * is refused with 403.
   */
  function AuthenticateUserOrAgent(deviseDefined: bool, c: Controller, verify: string -> Option<TokenData>): (r: Outcome)
    ensures DeviseUserSignedIn(deviseDefined, c) ==> r == Proceed
    ensures r == Proceed <==> DeviseUserSignedIn(deviseDefined, c) || (LlamaBotRequest(c, verify) && Allowed(c))
    ensures r.Forbidden? <==> !DeviseUserSignedIn(deviseDefined, c) && LlamaBotRequest(c, verify) && !Allowed(c)
    ensures r.Forbidden? ==> r.error == NotWhiteListedMessage(c.actionName)
    ensures r == Unauthorized <==> !deviseDefined && !LlamaBotRequest(c, verify)
    ensures r == WardenAuthenticate <==>
      deviseDefined && !DeviseUserSignedIn(deviseDefined, c) && !LlamaBotRequest(c, verify) && c.warden.Some?
  {
    if DeviseUserSignedIn(deviseDefined, c) then Proceed
    else if LlamaBotRequest(c, verify) then
      if Allowed(c) then Proceed
      else Forbidden(NotWhiteListedMessage(c.actionName))
    else Fallback(deviseDefined, c)
  }

  /** The two differ only for a valid token on a class without the allow-list. */
  lemma AsWrittenDiffersOnlyWithoutAllowList(deviseDefined: bool, c: Controller, verify: string -> Option<TokenData>)
    ensures AuthenticateUserOrAgentAsWritten(deviseDefined, c, verify) != AuthenticateUserOrAgent(deviseDefined, c, verify)
      <==> !DeviseUserSignedIn(deviseDefined, c) && LlamaBotRequest(c, verify) && c.permitted.None?
  {
  }

  /**
   * The discrepancy on a concrete request: a valid agent token sent to a
   * controller that never included the allow-list raises NoMethodError as
   * written, where a 403 naming the action was intended.
   */
  lemma MissingAllowListRaisesAsWritten(token: string, data: TokenData)
    requires token != "" && !Text.IsAsciiSpace(token[0]) && Text.Present(token)
    ensures var c := Controller("update", None, Some(AuthScheme + " " + token), None);
      var verify := (t: string) => if t == token then Some(data) else None;
      && AuthenticateUserOrAgentAsWritten(false, c, verify) == NoMethodError("llama_bot_permitted_actions")
      && AuthenticateUserOrAgent(false, c, verify) == Forbidden(NotWhiteListedMessage("update"))
  {
    AgentHeaderPresentsToken(token);
  }

  /**
   * The request of spec/integration/agent_auth_integration_spec.rb:210-241:
   * a valid agent token, Devise loaded, no user signed in, and a class
   * without the allow-list. Neither reading of the guard hands it to warden:
   * as written it raises, and the corrected guard answers 403.
   */
  lemma MissingAllowListNeverReachesWarden(c: Controller, verify: string -> Option<TokenData>)
    requires LlamaBotRequest(c, verify) && c.permitted.None?
    requires c.warden.Some? && !c.warden.value.authenticated
    ensures AuthenticateUserOrAgentAsWritten(true, c, verify) == NoMethodError("llama_bot_permitted_actions")
    ensures AuthenticateUserOrAgent(true, c, verify).Forbidden?
    ensures AuthenticateUserOrAgent(true, c, verify) != WardenAuthenticate
  {
  }

  /** A valid agent token on an allow-listed action proceeds, whatever Devise says. */
  lemma AgentTokenOnAllowedAction(deviseDefined: bool, c: Controller, token: string, verify: string -> Option<TokenData>)
    requires token != "" && !Text.IsAsciiSpace(token[0]) && Text.Present(token)
    requires c.authorization == Some(AuthScheme + " " + token) && verify(token).Some?
    requires c.permitted.Some? && c.actionName in c.permitted.value
    ensures AuthenticateUserOrAgent(deviseDefined, c, verify) == Proceed
  {
    AgentHeaderPresentsToken(token);
  }

  /**
   * Without a signed-in user, a missing header, a `Bearer` header, the bare
   * scheme or the scheme with an empty token never reach the allow-list:
   * they go straight to the fallback.
   */
  lemma MalformedHeadersFallBack(deviseDefined: bool, c: Controller, verify: string -> Option<TokenData>, token: string)
    requires !DeviseUserSignedIn(deviseDefined, c)
    requires c.authorization in {None, Some("Bearer " + token), Some(AuthScheme), Some(AuthScheme + " ")}
    ensures !LlamaBotRequest(c, verify)
    ensures AuthenticateUserOrAgent(deviseDefined, c, verify) == Fallback(deviseDefined, c)
  {
    RejectedHeaders(token, " ");
  }
}
