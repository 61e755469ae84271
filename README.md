# llama_bot_rails — a Dafny model of its core

This project models the core of the Ruby gem `llama_bot_rails` and proves properties of it. The gem connects a Rails application to a LlamaBot agent server. It covers:

- **The NDJSON stream decoder** in `LlamaBot.send_agent_message` (`LlamaBot`). The response body arrives in chunks. Complete lines are cut off a carry-over buffer; blank lines are skipped. Each other line is parsed as JSON and yielded, or logged as a parse error. A non-blank remainder is parsed once, after the body ends. `SendAgentMessage` is a method with the source's two loops, proved equal to the function `StreamEvents` of the whole body. Lemmas show the result does not depend on where the body was cut into chunks.
- **The allow-list and the global route registry** of `ControllerExtensions` (`ControllerExtensions`). A controller class is a Dafny class with a parent reference, its own allow-list and the "already configured" flag. `llama_bot_allow` updates them and adds `controller_path#action` to the shared registry.
- **The two definitions of `AgentAuth`**:
  - `AgentAuth`, from `agent_auth.rb`.
  - `AgentAuth2`, from `agent_auth_2.rb`. It adds the filter `check_agent_authentication` and signs the token's user in.
  - Both parse the `Authorization` header the way Ruby's `split(" ", 2)` does (`AgentAuthCommon`).
  - The outcome of a guard is a value: proceed, 403 with a message, 401, a handover to warden, or the `NoMethodError` the code would raise.
- **The string logic of `RouteHelper`** (`RouteHelper`):
  - reading YARD descriptions and tags;
  - the backward scan for the comment block above an action, and the forward scan for the strong-parameter method's source;
  - the `permit(...)` symbol scan;
  - the parameter union, the verb clean-up and splitting a registry entry.
- **`AgentStateBuilder#build`** (`AgentStateBuilder`): the five-field state sent to the agent.

Shared modules hold the Ruby and ActiveSupport operations the core relies on:

- `Text`: `strip`, `blank?`, `start_with?`, `include?`, `join`, and splitting at the first occurrence of a character.
- `Arrays`: `uniq` and a filter.
- `Wrappers`: `Option`.

Collaborators the core calls but does not define are parameters of the functions that call them:

- the JSON parser (`parse: string -> Option<J>`);
- Rails' message verifier (`verify: string -> Option<TokenData>`);
- `LlamaBotRails.user_resolver` and `LlamaBotRails.sign_in_method`;
- the prompt text.

Where the gem's tests and its code differ, the model follows the code:

- The test at spec/lib/llama_bot_rails/agent_auth_spec.rb:144-149 expects a 403 message that suggests `llama_bot_allow :<action>`. `check_agent_authentication` (lib/llama_bot_rails/agent_auth_2.rb:97) renders "Action '…' isn't white-listed for LlamaBot."
- The test at spec/integration/agent_auth_integration_spec.rb:210-241 expects a valid agent token on a class without the allow-list to reach Devise's `authenticate!`. `authenticate_user_or_agent!` in lib/llama_bot_rails/agent_auth.rb never does so for a valid token (see Findings).

## Model

| member | source | states |
|---|---|---|
| `LlamaBot.SendAgentMessage` | lib/llama_bot_rails/llama_bot.rb:37-67 | The events produced while reading the chunks are exactly the events of the concatenated body. This covers values yielded in line order, parse errors for bad complete lines, and the final-buffer outcome. A status other than 200 yields nothing, and so does an empty body. |
| `LlamaBot.SplitLines` | lib/llama_bot_rails/llama_bot.rb:46-47 | Repeated `split("\n", 2)` cuts a text into newline-free complete lines and a newline-free remainder. Re-joining them with newlines gives the text back. |
| `LlamaBot.SplitLinesUnique` | lib/llama_bot_rails/llama_bot.rb:46-47 | Inverse direction: newline-free lines, newline-terminated, plus a newline-free tail split back into exactly those lines and that tail. |
| `LlamaBot.SplitLinesAppend` | lib/llama_bot_rails/llama_bot.rb:41-47 | Chunk-boundary invariance. Splitting `a + b` gives the lines of `a`, followed by the lines of (the buffer left by `a`) + `b`, with the same final buffer. |
| `LlamaBot.BufferIsTextAfterLastNewline` | lib/llama_bot_rails/llama_bot.rb:43-47 | After any prefix of the body, the buffer has no newline. It is exactly the text after the last newline received. |
| `LlamaBot.LinesEventsAppend` | lib/llama_bot_rails/llama_bot.rb:46-56 | Processing lines is compositional: the events of `a + b` are the events of `a` followed by those of `b`. |
| `LlamaBot.StreamOrder` | lib/llama_bot_rails/llama_bot.rb:41-66 | A 200 body made of complete lines and a tail produces the lines' events in order, then the tail's final-buffer events. |
| `LlamaBot.WhitespaceYieldsNothing` | lib/llama_bot_rails/llama_bot.rb:48-60 | A whitespace-only line or remainder yields nothing and logs nothing. |
| `LlamaBot.MalformedLineDropped` | lib/llama_bot_rails/llama_bot.rb:48-54 | An unparsable non-blank line produces one parse error in its place. The lines before and after it are processed as usual, so the stream goes on. |
| `LlamaBot.UnseparatedObjectsDropped` | lib/llama_bot_rails/llama_bot.rb:59-66 | A body with no newline that does not parse as one JSON value gives exactly one final-buffer parse error and yields no value. |
| `ControllerExtensions.ToStrings` | lib/llama_bot_rails/controller_extensions.rb:17 | `actions.map(&:to_s)`: same length, each action converted in place. |
| `ControllerExtensions.RouteRegistry.constructor` | lib/llama_bot_rails/controller_extensions.rb:33 | The shared registry starts empty. |
| `ControllerExtensions.RouteRegistry.AddAll` | lib/llama_bot_rails/controller_extensions.rb:34 | The registry becomes its old contents plus `controller_path#a` for every given action, and nothing else. |
| `ControllerExtensions.ControllerClass.Including` | lib/llama_bot_rails/controller_extensions.rb:6-11 | A class that includes the extension starts with the default empty allow-list and is not yet configured. |
| `ControllerExtensions.ControllerClass.Subclass` | lib/llama_bot_rails/controller_extensions.rb:8-10 | A subclass inherits its parent's list and is not yet configured itself. |
| `ControllerExtensions.ControllerClass.SetPermittedActions` | lib/llama_bot_rails/controller_extensions.rb:30 | The class-attribute writer: the class now reads the given list, and its superclass still reads its own list. |
| `ControllerExtensions.ControllerClass.LlamaBotAllow` | lib/llama_bot_rails/controller_extensions.rb:15-36 | The new list is `uniq` of the class's own previous list, or `[]` on the first call (inherited values ignored), plus the given actions as strings. The class is marked configured, its list has no duplicates, and the parent's list is unchanged. Every `controller_path#action` is added to the registry. |
| `ControllerExtensions.AllowedListIsDuplicateFree` | lib/llama_bot_rails/controller_extensions.rb:30 | After any call the list has no duplicates and contains every given action. |
| `ControllerExtensions.RepeatedAllowAppendsOnlyNew` | lib/llama_bot_rails/controller_extensions.rb:20-22 | On an already configured class the existing entries stay first, in order. Only new actions are appended, in first-occurrence order. |
| `ControllerExtensions.RouteKeysNameTheirActions` | lib/llama_bot_rails/controller_extensions.rb:33-35 | Every given action has its `controller_path#action` entry. A set holds no duplicates, so there are at most as many entries as actions. |
| `ControllerExtensions.RouteKeysSize` | lib/llama_bot_rails/controller_extensions.rb:34 | The entries added number at most the actions given. |
| `AgentAuthCommon.SplitSchemeToken` | lib/llama_bot_rails/agent_auth.rb:46 | `split(" ", 2)` gives at most two fields, and none for an empty header. The first field has no whitespace. The second field is the header's suffix after a whitespace character, starting at a non-space. |
| `AgentAuthCommon.SplitWellFormed` | lib/llama_bot_rails/agent_auth.rb:46 | Leading whitespace, a word, a whitespace gap and a token split into exactly `[word, token]`. |
| `AgentAuthCommon.SplitSingleWord` | lib/llama_bot_rails/agent_auth.rb:46 | A header with a single word splits into that word alone, so the token is nil. |
| `AgentAuthCommon.AgentHeaderPresentsToken` | lib/llama_bot_rails/agent_auth.rb:46-48 | `LlamaBot <token>` presents exactly that token. |
| `AgentAuthCommon.RejectedHeaders` | lib/llama_bot_rails/agent_auth.rb:46-48 | No header, a `Bearer` header, the bare scheme, and the scheme followed only by whitespace present no token. |
| `AgentAuth.NotWhiteListedMessage` | lib/llama_bot_rails/agent_auth.rb:82 | The 403 error names the action and points to `` `llama_bot_allow :method` ``. |
| `AgentAuth.LlamaBotRequest` | lib/llama_bot_rails/agent_auth.rb:45-54 | True exactly when the header splits into the `LlamaBot` scheme and a present token that the verifier accepts. |
| `AgentAuth.DeviseUserSignedIn` | lib/llama_bot_rails/agent_auth.rb:61-64 | Always false without Devise. With Devise loaded it is true exactly when warden exists and is authenticated. |
| `AgentAuth.AuthenticateUserOrAgentAsWritten` | lib/llama_bot_rails/agent_auth.rb:66-92 | As written, the guard raises `NoMethodError` exactly when a valid agent token reaches a class without the allow-list. |
| `AgentAuth.AuthenticateUserOrAgent` | lib/llama_bot_rails/agent_auth.rb:66-92 | It proceeds iff a Devise user is signed in, or a valid token meets an allow-listed action. It returns 403, with the not-white-listed message, iff a valid token meets any other action. It returns 401 iff Devise is absent and no valid token is presented. It hands over to warden iff Devise is loaded, nobody is signed in, no valid token is presented and warden exists. |
| `AgentAuth.AsWrittenDiffersOnlyWithoutAllowList` | lib/llama_bot_rails/agent_auth.rb:71-83 | The as-written and the intended guard differ exactly for a valid token on a class without the allow-list. |
| `AgentAuth.MissingAllowListRaisesAsWritten` | lib/llama_bot_rails/agent_auth.rb:77 | A concrete request whose valid token reaches a controller without the allow-list: it raises as written, where the intended guard returns 403. |
| `AgentAuth.MissingAllowListNeverReachesWarden` | lib/llama_bot_rails/agent_auth.rb:66-91 | A valid agent token on a class without the allow-list, with Devise loaded and nobody signed in, raises `NoMethodError` as written and gets 403 from the corrected guard. Neither hands it to warden. |
| `AgentAuth.AgentTokenOnAllowedAction` | lib/llama_bot_rails/agent_auth.rb:70-74 | `LlamaBot <token>` with an accepted token on an allow-listed action proceeds. |
| `AgentAuth.MalformedHeadersFallBack` | lib/llama_bot_rails/agent_auth.rb:86-91 | With nobody signed in, a missing, `Bearer`, bare-scheme or empty-token header is not an agent request and goes to the fallback. |
| `AgentAuth2.LlamaBotRequest` | lib/llama_bot_rails/agent_auth_2.rb:67-77 | False without a request or headers. Otherwise true exactly when the header presents a token that the verifier accepts. |
| `AgentAuth2.DeviseUserSignedIn` | lib/llama_bot_rails/agent_auth_2.rb:110-114 | False without Devise and false without a request env. With both, it is true exactly when the env's warden exists and is authenticated. |
| `AgentAuth2.ShouldCheckAgentAuth` | lib/llama_bot_rails/agent_auth_2.rb:61-65 | False whenever a Devise user is signed in. Otherwise it equals `llama_bot_request?`. |
| `AgentAuth2.CheckAgentAuthentication` | lib/llama_bot_rails/agent_auth_2.rb:84-105 | Nothing happens for jobs or classes without the allow-list. Otherwise it returns 403 iff "agent request" and "allow-listed" differ. The message says "isn't white-listed" for an agent and "requires LlamaBot authentication" otherwise. |
| `AgentAuth2.MessagesDiffer` | lib/llama_bot_rails/agent_auth_2.rb:97-102 | The two 403 messages differ for every action name: "isn't white-listed" and "requires LlamaBot authentication" can never be confused. |
| `AgentAuth2.GuardedFilterNeverDemandsToken` | lib/llama_bot_rails/agent_auth_2.rb:16 | Run under `if: :should_check_agent_auth?`, the filter never answers "requires LlamaBot authentication". |
| `AgentAuth2.Fallback` | lib/llama_bot_rails/agent_auth_2.rb:140-145 | With Devise loaded and a request env, the answer is `warden.authenticate!` exactly when the env holds a warden, and `NoMethodError` on `authenticate!` when it does not. Warden is used only with Devise and a request env. Without either, the answer is 401. |
| `AgentAuth2.AuthenticateUserOrAgent` | lib/llama_bot_rails/agent_auth_2.rb:116-146 | A signed-in user proceeds with no callbacks. A valid token on an allow-listed action resolves the token's `user_id` and signs that user in; the result is 401 iff sign-in fails, and proceed otherwise. A valid token on another action gets 403 with no callbacks. Everything else goes to the fallback. |
| `AgentAuth2.NotAnAgentRequest` | lib/llama_bot_rails/agent_auth_2.rb:67-77 | `llama_bot_request?` is false in each of these cases: no request; no headers; no `Authorization` header; a `Bearer` header; an empty token; a token the verifier rejects. |
| `AgentAuth2.AgentSignInOnAllowedAction` | lib/llama_bot_rails/agent_auth_2.rb:119-131 | End to end, `LlamaBot <token>` on an allow-listed action signs in whatever the resolver returns for the token's `user_id`. |
| `RouteHelper.Lines` | lib/llama_bot_rails/route_helper.rb:5 | `String#lines` pieces re-join to the text. Each piece is non-empty with a newline only at its end, and every piece but the last ends in one. |
| `RouteHelper.Uncomment` | lib/llama_bot_rails/route_helper.rb:5 | At most one leading `#`, and one space right after it, are removed from a line. Other lines are kept. |
| `RouteHelper.DescriptionLines` | lib/llama_bot_rails/route_helper.rb:5-6 | The uncommented lines up to the first line whose stripped text starts with `@`, and no further. |
| `RouteHelper.ExtractYardDescription` | lib/llama_bot_rails/route_helper.rb:4-8 | The description has no leading or trailing whitespace. |
| `RouteHelper.LinesAfterTagIgnored` | lib/llama_bot_rails/route_helper.rb:6 | No line after the first tag line contributes to the description. |
| `RouteHelper.ExtractYardTag` | lib/llama_bot_rails/route_helper.rb:11-15 | A found value is already stripped: it has no leading or trailing whitespace. |
| `RouteHelper.ExtractYardTagNil` | lib/llama_bot_rails/route_helper.rb:12-14 | The result is nil exactly when no position holds `@tag` followed by a space and then a character other than a newline. |
| `RouteHelper.TagValueIsRestOfLine` | lib/llama_bot_rails/route_helper.rb:12-13 | When the leftmost match's line ends at a newline or at the end of the text, the value is the text from after `@tag ` up to that point, stripped. Whatever follows the line does not matter. |
| `RouteHelper.YardMetadataExample` | lib/llama_bot_rails/route_helper.rb:52-56 | When the first `@` of the newline-joined comment block opens `@example x` and that line ends after `x`, the recorded example is `x` stripped. The description is read from the same joined text. |
| `RouteHelper.CommentRunStart` | lib/llama_bot_rails/route_helper.rb:47 | The start of the maximal run of comment lines ending just above a line: every line in the run is a comment and the line before it is not. |
| `RouteHelper.CollectComments` | lib/llama_bot_rails/route_helper.rb:45-50 | The backward scan returns the maximal run of `#` lines directly above the definition, stripped and in file order, without going below index 0. |
| `RouteHelper.SourceEnd` | lib/llama_bot_rails/route_helper.rb:70-75 | One past the first line containing `end` but not `permit`, or the end of the file when there is none. |
| `RouteHelper.CollectMethodSource` | lib/llama_bot_rails/route_helper.rb:68-75 | The forward scan returns the stripped lines from the definition up to and including the first end line, or to the end of the file. |
| `RouteHelper.PermitContent` | lib/llama_bot_rails/route_helper.rb:77-78 | nil exactly when no `.permit(` is closed by `)` on its line. Otherwise it returns the text between them, which holds no `)` or newline. |
| `RouteHelper.PermitContentOf` | lib/llama_bot_rails/route_helper.rb:77-78 | The first `.permit(` with content free of `)` and newlines yields exactly that content. |
| `RouteHelper.SymbolNames` | lib/llama_bot_rails/route_helper.rb:29 | Every scanned name is a non-empty run of word characters. |
| `RouteHelper.SymbolNamesOfList` | lib/llama_bot_rails/route_helper.rb:79 | Scanning `:a, :b, …` gives back exactly `a, b, …` in order. |
| `RouteHelper.StrongParams` | lib/llama_bot_rails/route_helper.rb:76-80 | Every strong parameter is a non-empty run of word characters. |
| `RouteHelper.StrongParamsOfPermit` | lib/llama_bot_rails/route_helper.rb:76-80 | When the first `.permit(` of the joined method source is followed by `:a, :b, …` and `)`, the strong parameters are exactly `a, b, …`, in order. |
| `RouteHelper.RemoveAnchors` | lib/llama_bot_rails/route_helper.rb:27 | The verb keeps every character except `$` and `^`, and has none of those left. |
| `RouteHelper.PlainVerbKept` | lib/llama_bot_rails/route_helper.rb:27 | A verb without anchors is unchanged. |
| `RouteHelper.RemoveAnchorsAppend` | lib/llama_bot_rails/route_helper.rb:27 | Removing anchors from joined text is joining the pieces with anchors removed, so the kept characters stay in order and with their repeats. |
| `RouteHelper.AnchoredVerbUnwrapped` | lib/llama_bot_rails/route_helper.rb:27 | A verb string `^GET$` comes out as `GET`. |
| `RouteHelper.AcceptedParams` | lib/llama_bot_rails/route_helper.rb:84-94 | Without a controller class, the result is the path parameters as they are. With one, it is duplicate-free, holding the path parameters, then the strong ones, then `message` for `pages#update` only, each at its first occurrence. |
| `RouteHelper.RouteParamsHold` | lib/llama_bot_rails/route_helper.rb:29-94 | For `all_params` of a route, the path parameters are the names scanned from the route's path, and the strong parameters are none when the parameter method is not found. Without a controller class they are the result. With one, the result also holds every strong parameter, and nothing beyond path parameters, strong parameters and `message`. |
| `RouteHelper.RouteTarget` | lib/llama_bot_rails/route_helper.rb:21 | Controller and action contain no `#`, and an action is present only with a controller. |
| `RouteHelper.RouteTargetOfRouteKey` | lib/llama_bot_rails/route_helper.rb:21 | A registry entry `controller_path#action` splits back into its controller path and action. |
| `RouteHelper.RouteTargetWithoutAction` | lib/llama_bot_rails/route_helper.rb:21 | `path#` and `path` give a nil action. |
| `AgentStateBuilder.AgentStateBuilder.Build` | lib/llama_bot_rails/agent_state_builder.rb:9-17 | Exactly five keys. The message is taken from the params, and the thread id and API token from the context, each unchanged or nil, with no default. The prompt is the provider's text, and the agent name is always `llamabot`. |
| `AgentStateBuilder.BuildReadsOnlyItsKeys` | lib/llama_bot_rails/agent_state_builder.rb:9-17 | Builders that agree on `message`, `thread_id` and `api_token` build the same state, whatever else their inputs hold. |
| `AgentStateBuilder.PromptAndNameIgnoreInputs` | lib/llama_bot_rails/agent_state_builder.rb:14-15 | The prompt and the agent name depend on neither params nor context. |
| `AgentStateBuilder.EmptyInputsGiveNil` | lib/llama_bot_rails/agent_state_builder.rb:11-13 | Empty params and context give nil message, thread id and token. |
| `Arrays.Uniq` | lib/llama_bot_rails/controller_extensions.rb:30 | `uniq` has the same members as its input and is no longer than it. |
| `Arrays.UniqNoDups` | lib/llama_bot_rails/controller_extensions.rb:30 | `uniq` leaves no duplicates. |
| `Arrays.UniqAppend` | lib/llama_bot_rails/controller_extensions.rb:30 | `uniq(a + b)` is `uniq(a)` followed by the new members of `uniq(b)`: first occurrences win. |
| `Arrays.UniqOfNoDups` | lib/llama_bot_rails/controller_extensions.rb:30 | `uniq` leaves a duplicate-free array unchanged. |
| `Arrays.UniqIdempotent` | lib/llama_bot_rails/controller_extensions.rb:30 | Applying `uniq` twice is the same as applying it once. |
| `Text.Strip` | lib/llama_bot_rails/llama_bot.rb:48 | `strip` returns a slice that neither starts nor ends with whitespace or NUL. |
| `Text.StripIsTheTrimmedSlice` | lib/llama_bot_rails/llama_bot.rb:48 | `strip` is the one slice with only whitespace or NUL outside it and, when it is not empty, none at its two ends. |
| `Text.SplitAtFirst` | lib/llama_bot_rails/llama_bot.rb:47 | `split(c, 2)` on a text containing `c` gives the parts before and after the first `c`. |
| `Text.SplitAtFirstOf` | lib/llama_bot_rails/llama_bot.rb:47 | The inverse: `a`, `c`, `b` with no `c` in `a` splits back into `a` and `b`. |

## Left out

- The HTTP request to the agent server is not modelled: connecting, posting `agent_params.to_json`, and the outer `rescue` that turns a network error into `{ error: … }`. Neither are `get_threads`, `get_chat_history` or the enumerator returned when no block is given. The status code and the body chunks are inputs.
- `response.code.to_i` is not modelled: the status arrives as an integer.
- Log messages are not modelled, except the two parse-error events the decoder logs, and the debug line in `agent_auth.rb` whose interpolation raises (see Findings).
- `AgentAuth2.AuthenticateUserOrAgent` verifies the token twice in the source. The model assumes the verifier gives the same answer both times.
- `AgentAuth.DeviseUserSignedIn` and `AgentAuth2.DeviseUserSignedIn` have no Devise mappings. The `included` blocks that alias `authenticate_<scope>!` are not modelled either: they are metaprogramming over Devise scopes. Only the guard they call is modelled.
- `ControllerExtensions.ControllerClass.LlamaBotAllow` does not model the `llama_bot_permitted_actions || []` case for a nil list. The list is never nil when set only through `llama_bot_allow`, and its default is `[]`.
- The global registry is modelled as always defined (`defined?(LlamaBotRails.allowed_routes)`). When it is not passed (`null`), no entries are added.
- `formatted_routes_xml` is not modelled as a whole. These parts are left out:
  - the Rails route table;
  - `camelize` and `singularize`, and the constant lookup;
  - `instance_method` and `source_location`, and reading files;
  - the silent `rescue`;
  - the XML text.
  A file arrives as its lines and a definition as its 1-based line number. Whether the controller class was found is an input.
- `RouteHelper.RemoveAnchors` works on the verb as a string. `Regexp#to_s` is not modelled: a verb held as a `Regexp` turns into text such as `(?-mix:^GET$)`, and removing the anchors from that leaves `(?-mix:GET)`.
- `RouteHelper.ExtractYardTag` treats the tag literally. The source interpolates it into a regular expression, and every caller passes a plain word.
- `Text.IsBlankChar` covers the Unicode White_Space characters that `blank?` skips. It has no further Unicode handling, and there is no encoding model.
- `AgentStateBuilder.AgentStateBuilder.Build` reads the prompt text as a parameter. The prompt file and its reading and appending in `lib/llama_bot_rails.rb` are not modelled.
- The install generator's template copy of the state builder is not modelled. It is the same builder.

## Findings

| source | as written | input that shows it | evidently intended | confidence | as-written member | corrected member |
|---|---|---|---|---|---|---|
| lib/llama_bot_rails/agent_auth.rb:77 | On the refusal path the guard builds a debug message from `self.class.llama_bot_permitted_actions`, whatever the log level. A class that does not respond to it raises `NoMethodError`. | A request with `Authorization: LlamaBot <valid token>` to a controller that includes `AgentAuth` but not `ControllerExtensions`. | The 403 "isn't white-listed" response. Line 71 folds a missing list into `allowed` with `respond_to?`, lines 74-83 refuse every valid token that is not `allowed` with 403, and the line-82 message tells the developer to include `ControllerExtensions`, advice meant for exactly this class. The test at spec/integration/agent_auth_integration_spec.rb:210-241 expects the Devise fallback instead, which no branch of lines 70-84 leads to for a valid token (`AgentAuth.MissingAllowListNeverReachesWarden`). | not executed | `AgentAuth.MissingAllowListRaisesAsWritten` | `AgentAuth.AuthenticateUserOrAgent` |
