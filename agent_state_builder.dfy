/**
 * `LlamaBotRails::AgentStateBuilder` (lib/llama_bot_rails/agent_state_builder.rb):
 * the state sent to the agent server is built from the request parameters,
 * a context hash and the system prompt, as a record of five fields.
 *
 * Hash keys are written as strings (`:message` is "message"); the prompt
 * text, which the host application reads from its prompt file, is a
 * parameter of `Build`.
 */
module AgentStateBuilder {

  /** A field of the state: nil, a value taken from the inputs, or a string the builder supplies. */
  datatype Field<V> = Nil | Given(value: V) | Text(text: string)

  /** `hash[key]`: nil when the key is absent. */
  function Lookup<V>(m: map<string, V>, key: string): Field<V> {
    if key in m then Given(m[key]) else Nil
  }

  const StateKeys: set<string> := {"message", "thread_id", "api_token", "agent_prompt", "agent_name"}

  /** The builder holds what `initialize(params:, context:)` stored. */
  datatype AgentStateBuilder<V> = AgentStateBuilder(params: map<string, V>, context: map<string, V>)
  {
    /**
     * `build`: exactly the five state keys. The message comes from the
     * params and the thread id and API token from the context, each as
     * given or nil, with no default; the prompt is the prompt text and the
     * agent name is always "llamabot".
     */
    function Build(promptText: string): (state: map<string, Field<V>>)
      ensures state.Keys == StateKeys
      ensures state["message"] == Lookup(params, "message")
      ensures state["thread_id"] == Lookup(context, "thread_id")
      ensures state["api_token"] == Lookup(context, "api_token")
      ensures state["agent_prompt"] == Text(promptText)
      ensures state["agent_name"] == Text("llamabot")
    {
      map[
        "message" := Lookup(params, "message"),
        "thread_id" := Lookup(context, "thread_id"),
        "api_token" := Lookup(context, "api_token"),
        "agent_prompt" := Text(promptText),
        "agent_name" := Text("llamabot")]
    }
  }

  /**
   * The state reads nothing else: two builders whose params agree on
   * `message` and whose contexts agree on `thread_id` and `api_token` build
   * the same state, whatever other keys they hold.
   */
  lemma BuildReadsOnlyItsKeys<V>(a: AgentStateBuilder<V>, b: AgentStateBuilder<V>, promptText: string)
    requires Lookup(a.params, "message") == Lookup(b.params, "message")
    requires Lookup(a.context, "thread_id") == Lookup(b.context, "thread_id")
    requires Lookup(a.context, "api_token") == Lookup(b.context, "api_token")
    ensures a.Build(promptText) == b.Build(promptText)
  {
    var sa := a.Build(promptText);
    var sb := b.Build(promptText);
    assert forall k :: k in sa.Keys ==> k in StateKeys;
    assert forall k :: k in StateKeys ==> sa[k] == sb[k];
  }

  /** The prompt and the agent name depend on neither params nor context. */
  lemma PromptAndNameIgnoreInputs<V>(a: AgentStateBuilder<V>, b: AgentStateBuilder<V>, promptText: string)
    ensures a.Build(promptText)["agent_prompt"] == b.Build(promptText)["agent_prompt"]
    ensures a.Build(promptText)["agent_name"] == b.Build(promptText)["agent_name"]
  {
  }

  /** Empty inputs give nil for the three input fields: no thread id or token is made up. */
  lemma EmptyInputsGiveNil<V>(promptText: string)
    ensures var empty: AgentStateBuilder<V> := AgentStateBuilder(map[], map[]);
      var state := empty.Build(promptText);
      state["message"] == Nil && state["thread_id"] == Nil && state["api_token"] == Nil
  {
  }
}
