/**
 * The records the chat room passes around: participants (the agents), the
 * speaker recorded on a message, the messages of the history and the
 * `{role, content}` entries sent to the completion service.
 */
module Chat {
  import opened Wrappers

  datatype Role = System | User | Assistant

  /** The role as the strings `'system'`, `'user'` and `'assistant'`. */
  function RoleName(r: Role): (s: string)
    ensures s in {"system", "user", "assistant"}
    ensures ',' !in s && '\n' !in s
  {
    match r
    case System => "system"
    case User => "user"
    case Assistant => "assistant"
  }

  /**
   * A participant object. The property the source spells `setupPrmopt`
   * is `setupPrompt` here; an unset prompt is the empty string (both are
   * falsy to `!!`). `model` is never set by the dialog, so it is usually None.
   */
  datatype Participant = Participant(
    name: string,
    color: string,
    model: Option<string>,
    temperature: real,
    setupPrompt: string,
    introPrompt: string)

  /**
   * The `participant` recorded on a message: the `Host`/`System`
   * pseudo-participant of a host turn, or the agent that replied.
   */
  datatype Speaker = Pseudo(pseudoName: string, pseudoColor: string) | Agent(agent: Participant)
  {
    function Name(): string {
      match this
      case Pseudo(n, _) => n
      case Agent(p) => p.name
    }
    function Color(): string {
      match this
      case Pseudo(_, c) => c
      case Agent(p) => p.color
    }
  }

  /** A history message; an agent reply whose text had no `>>` has no content (`undefined`). */
  datatype Message = Message(role: Role, speaker: Speaker, content: Option<string>)

  /** One `{role, content}` entry of the context sent to the completion service. */
  datatype Entry = Entry(role: Role, content: string)

  /** How a template literal renders a possibly-undefined content. */
  function Show(content: Option<string>): (s: string)
    ensures content.Some? ==> s == content.value
    ensures content.None? ==> s == "undefined"
  {
    match content
    case Some(text) => text
    case None => "undefined"
  }
}
