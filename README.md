# Multi-agent chat room: conversation engine

This project models the core of a browser chat room where a human host
talks to several language-model agents ("participants") at once. It models:

- **The participant dialog.** It starts from a default record and clamps the
  temperature field to [0.0, 2.0].
- **The conversation view.** It keeps the participant registry, the shared
  message history and the max-token setting, clamped to [1, 4096].
- **A host turn.** A host message is appended to the history. Then every
  addressed participant (all of them for `all`, otherwise every participant
  with that exact name) gets a reply cycle.
- **A reply cycle.** It composes the context the agent is prompted with, asks
  the completion service, and parses the `NAME>>reply` answer with
  `split('>>')[1]`. It then appends one `assistant` message to the history.
- **CSV export** of the message history and of the participant registry.
- **`getInitials`**, which both the shared helper and the avatar component
  implement. It takes the upper-cased first characters of the first and last
  space-separated words.

Modules:

| module | what it holds |
|---|---|
| `Wrappers` | `Option`, which stands for JavaScript `undefined` and `NaN` |
| `Text` | ASCII upper-casing, and `split`/`join` on one character with their round trips |
| `Chat` | The records: roles, participants, speakers, messages, context entries |
| `Names` | `getInitials`: what the initials are (`Initials`) and the loop that computes them |
| `AvatarIcon` | The avatar's own copy of the loop, proved equal to `Names.Initials` |
| `ParticipantModal` | The default participant, the temperature clamp, and the dialog's draft record as a class |
| `Conversation` | The max-token clamp, composition, reply parsing, addressing, CSV text, and the `Session` class |

A reply cycle is asynchronous in the program. Here it is split in two:

- `Session.AddHostMessage`, `Session.AddNewParticipant` and
  `Session.ChatToParticipant` return the requests they would send. Each
  request holds a participant, its composed context and the max-token limit.
- `Session.ReceiveReply` is what happens when a completion arrives. The
  completion text is a parameter. A failed completion never reaches it, so
  the history stays as it was.

Behaviours of the program the model keeps:

- Every agent addressed in one host turn is prompted from the history as it
  was *before* the host message was appended. The host message reaches the
  agent only as the addressed entry, written `NAME: content`, not
  `NAME>>content`.
- A reply without `>>` gets an *undefined* content, not the raw reply. Any
  later history entry renders it as `undefined`. Text after a second `>>` is
  dropped.
- A `NaN` temperature becomes 0.0, not the starting value 0.2. A `NaN`
  max-token value becomes 1024.
- There is no duplicate-name check and no busy guard.
- An addressee that names nobody (including the default `audience`) starts
  no reply cycle and raises no error.
- The setup prompt is stored under the key the code spells `setupPrmopt`.
  Composition reads that key, but the participants export reads
  `setupPrompt`, so its setupPrompt column always reads `undefined`.

## Model

| member | source | states |
|---|---|---|
| Text.UpperChar | src/utils/names.js:12 | The result is never a lower-case ASCII letter. A lower-case letter moves up by 32 and every other character is kept. |
| Text.UpperString | src/components/Conversation.jsx:144 | Same length as the input, and each position is the upper-cased character. |
| Text.SplitOn | src/utils/names.js:3 | `split` on one character gives at least one piece, and no piece contains the separator. |
| Text.JoinSplit | src/utils/names.js:3 | Joining the pieces of a split with the separator gives back the original string. |
| Text.SplitWithoutSep | src/utils/names.js:3 | A string without the separator splits into itself alone. |
| Text.SplitAfterPiece | src/utils/names.js:3 | Splitting `a + sep + b` with `a` separator-free gives `a` followed by the pieces of `b`. |
| Text.SplitJoin | src/components/Conversation.jsx:204-208 | Splitting a join of separator-free pieces gives back exactly those pieces, empty ones included. |
| Chat.RoleName | src/components/Conversation.jsx:52 | A role is one of `system`, `user`, `assistant`, and never contains a comma or a newline. |
| Chat.Show | src/components/Conversation.jsx:144-146 | A template literal renders a present content as itself and an undefined one as `undefined`. |
| Names.WordInitial | src/utils/names.js:10-12 | A word contributes exactly one character when non-empty, that character being its upper-cased first one, and nothing when empty. |
| Names.Initials | src/utils/names.js:1-21 | A name has at most two initials. |
| Names.GetInitials | src/utils/names.js:1-21 | The loop over the words of `split(' ')` returns exactly `Initials(fullName)`. |
| Names.InitialsOfWords | src/utils/names.js:7-18 | For a name made of words joined by single spaces, the initials are those of the first word, then of the last word when there are two or more. |
| Names.InitialsWithoutSpace | src/utils/names.js:3-18 | A name without a space has at most one initial, that of the whole name. |
| Names.MiddleWordsIgnored | src/utils/names.js:14-15 | Names of two or more words that agree on their first and last words have the same initials, whatever lies between. |
| Names.InitialsOfOneWord | src/utils/names.js:3-12 | `""` has no initials, and `"alice"` gives `"A"`. |
| Names.InitialsOfThreeWords | src/utils/names.js:12-15 | `"alice bob carol"` gives `"AC"`: the middle word is skipped. |
| Names.InitialsWithEdgeSpace | src/utils/names.js:10 | A leading or trailing space leaves an empty edge word that contributes nothing: `" bob"` and `"bob "` give `"B"`. |
| AvatarIcon.GetInitials | src/components/AvatarIcon.jsx:5-25 | The avatar's duplicate loop computes the same initials as the shared helper on every name: at most two, none lower-case. |
| ParticipantModal.DefaultParticipant | src/components/ParticipantModal.jsx:16-20 | The dialog starts with an empty name, the given colour, temperature 0.2 (inside the allowed range) and no prompts. |
| ParticipantModal.ClampTemperature | src/components/ParticipantModal.jsx:41-50 | The stored temperature always lies in [0.0, 2.0]. `NaN` and negatives give 0.0, values above 2.0 give 2.0, and in-range values are kept. |
| ParticipantModal.ClampTemperatureIdempotent | src/components/ParticipantModal.jsx:41-50 | Clamping a clamped temperature changes nothing. |
| ParticipantModal.NaNTemperatureIsNotDefault | src/components/ParticipantModal.jsx:19-45 | A `NaN` entry gives 0.0, which differs from the starting temperature 0.2. |
| ParticipantModal.ParticipantForm.constructor | src/components/ParticipantModal.jsx:16-21 | The draft record is the default participant, and its temperature is in range. |
| ParticipantModal.ParticipantForm.HandleTemperatureChange | src/components/ParticipantModal.jsx:41-53 | The draft becomes a copy of itself with only the temperature replaced by the clamped value. The range invariant is kept. |
| ParticipantModal.ParticipantForm.HandleNameChange | src/components/ParticipantModal.jsx:82-87 | The draft becomes a copy of itself with only the name replaced. |
| Conversation.ClampMaxTokens | src/components/Conversation.jsx:87-98 | The limit always lies in [1, 4096]. `NaN` gives 1024, below 1 gives 1, above 4096 gives 4096, and in-range values are kept. |
| Conversation.ClampMaxTokensIdempotent | src/components/Conversation.jsx:87-98 | Clamping a clamped limit changes nothing. |
| Conversation.Compose | src/components/Conversation.jsx:126-163 | The context is, in order: the format preamble; the setup entry exactly when the setup prompt is non-empty; one `UPPER(NAME)>>content` entry per history message in history order; the addressed entry `UPPER(NAME): content` when there is one; the format instruction last. The length is fixed by these. |
| Conversation.ComposeSeesOnlySetup | src/components/Conversation.jsx:133-148 | Two agents with the same setup prompt get identical contexts from histories that agree on every message's role, speaker name and content. So nothing else about the prompted agent, and nothing a history speaker carries besides its name (its setup prompt included), reaches the context. |
| Conversation.SpeakerSetupPromptUnseen | src/components/Conversation.jsx:141-148 | Changing the setup prompt of the agent that spoke any one message of the history leaves the context composed from that history unchanged. |
| Conversation.ComposeConversation | src/components/Conversation.jsx:126-163 | The push-by-push construction produces exactly `Compose` of the participant, the snapshot and the addressed message. |
| Conversation.FindDelim | src/components/Conversation.jsx:177 | Finds the first occurrence of `>>`, and finds none exactly when the text has no `>>`. |
| Conversation.ParseReply | src/components/Conversation.jsx:175-182 | `split('>>')[1]` is undefined exactly when the reply has no `>>`. Otherwise it is the text starting right after the first `>>`. It holds no `>>`, and no `>>` of the reply starts inside it. It ends at the second `>>` or at the end of the reply. |
| Conversation.ParseFormatted | src/components/Conversation.jsx:158-177 | A reply in the instructed format `NAME>>text` (name without `>`, text without `>>`) parses to exactly `text`. |
| Conversation.ParseDropsAfterSecondDelim | src/components/Conversation.jsx:177 | For `NAME>>text>>tail`, only `text` is kept and `tail` is lost. |
| Conversation.ParseWellFormedExample | src/components/Conversation.jsx:175-182 | `"ALICE>>Hi"` parses to `"Hi"`. |
| Conversation.ParseTwoDelimsExample | src/components/Conversation.jsx:175-182 | `"A>>b>>c"` parses to `"b"`. |
| Conversation.ParseNoDelimExample | src/components/Conversation.jsx:175-182 | `"Hello there"` parses to undefined: the reply text is lost. |
| Conversation.HostMessage | src/components/Conversation.jsx:51-58 | The host message has role `system` exactly when the system box is ticked and is never `assistant`. It is spoken by `System` or `Host` in `#ccc`, with the text as its content. |
| Conversation.Recipients | src/components/Conversation.jsx:62-66 | The agents selected for a turn are at most the registered ones, and each is addressed (`all` or its own name). |
| Conversation.RecipientsMembership | src/components/Conversation.jsx:62-66 | An agent is selected if and only if it is registered and addressed. |
| Conversation.RecipientsConcat | src/components/Conversation.jsx:62-66 | Selection keeps registration order: selecting from two registries joined is selecting from each and joining. |
| Conversation.RecipientsOfAll | src/components/Conversation.jsx:63 | `all` selects every registered agent, in registration order. |
| Conversation.RecipientsOfUnknown | src/components/Conversation.jsx:62-66 | An addressee that is not `all` and names no agent (such as `audience`) selects nobody. |
| Conversation.RecipientsOfName | src/components/Conversation.jsx:63 | Addressing the name of the one agent that carries it, when that name is not `all`, selects exactly that agent. |
| Conversation.MessagesCsv | src/components/Conversation.jsx:204-212 | The export starts with the header line `role,content,participant_name,participant_color`. |
| Conversation.MessageRowFields | src/components/Conversation.jsx:206 | A message row whose fields hold no comma splits back into role, rendered content, speaker name and colour. |
| Conversation.MessagesCsvLines | src/components/Conversation.jsx:204-212 | The export's lines are the header followed by one row per message in history order, or a single empty line for an empty history. |
| Conversation.SetupPromptLostInExport | src/components/Conversation.jsx:229 | The as-written row is the same whatever the setup prompt is, and its third column reads `undefined`. |
| Conversation.ParticipantRowFields | src/components/Conversation.jsx:229 | The corrected row of comma-free fields splits back into name, colour, setup prompt, intro prompt and temperature. |
| Conversation.ParticipantsCsv | src/components/Conversation.jsx:225-238 | The export as written starts with the header line `name,color,setupPrompt,introPrompt,temperature`. |
| Conversation.ParticipantsCsvLines | src/components/Conversation.jsx:225-238 | When no exported field holds a newline, the export's lines are the header followed by one as-written row per participant in registry order, or a single empty line for an empty registry. |
| Conversation.TurnRequests | src/components/Conversation.jsx:62-66 | A host turn sends one request per selected agent, in order. Each carries that agent, its context composed from the pre-turn snapshot with the host message addressed, and the current limit. |
| Conversation.Session.constructor | src/components/Conversation.jsx:29-34 | A session starts with no participants, no messages and a limit of 1024. |
| Conversation.Session.HandleMaxTokenChange | src/components/Conversation.jsx:87-98 | The stored limit becomes the clamped value, so it stays in [1, 4096]. |
| Conversation.Session.ChatToParticipant | src/components/Conversation.jsx:121-171 | A reply cycle requests a completion for the agent with exactly `Compose` of the snapshot and the addressed message, under the current limit, which lies in [1, 4096]. |
| Conversation.Session.ReceiveReply | src/components/Conversation.jsx:173-194 | A received completion appends exactly one `assistant` message from the agent, with the parsed reply as content. Nothing before it changes. |
| Conversation.Session.AddHostMessage | src/components/Conversation.jsx:50-69 | The history grows by exactly the host message. The requests are `TurnRequests` of the selected agents over the pre-turn history, so no agent of the turn sees the host message inside its history. Every request's limit lies in [1, 4096]. |
| Conversation.Session.AddNewParticipant | src/components/Conversation.jsx:100-119 | The registry grows by the participant at the end and the history is untouched. Exactly one request is made when a response is wanted and the intro prompt is non-empty, and it is addressed with the intro prompt as a host or system message. |
| Conversation.HostTurnToAll | src/components/Conversation.jsx:50-66 | A turn to `all` on a fresh session with two agents gives two requests in registration order. Both are composed from the empty pre-turn history. |

## Left out

- The completion service (`GPTClient`, the API key) is outside the model. A completion is a string parameter of `Session.ReceiveReply`, and a failed or rejected completion is the absence of that call.
- Asynchrony is not modelled. The order in which concurrent replies arrive, the `isLoading` flag and the loading indicators are left out. Conversation.HostTurnToAll: states the requests of the turn but not the final history order, because replies are appended in completion order, which the program does not fix.
- Rendering (React components, `ChatMessage`, the addressee menu, left/right placement) and `console.log` output are not modelled.
- The Blob, link and download steps of the CSV export are left out. Only the CSV text is modelled.
- `handleCreateParticipant` is not modelled. It reads an undeclared `hasSetupPrompt` (a `ReferenceError` when the button is pressed), and it passes only two arguments to `addNewParticipant`. `Session.AddNewParticipant` takes the participant and both flags as parameters instead.
- `getRandomColor` and the colour button `setRandomColor` are left out. `src/utils/color.js` is not part of this model; the colour is a parameter of `DefaultParticipant`.
- `parseInt`/`parseFloat` are left out. The clamps take the parsed value as an `Option`, with None standing for `NaN`; JavaScript infinities and fractional digits typed into the max-token field are not modelled.
- Text.UpperChar: upper-cases ASCII letters only, not the full Unicode `toUpperCase` mapping.
- Names.Initials: the bound of at most two initials holds only for the ASCII case mapping. JavaScript's `toUpperCase` can lengthen a character (`'ß'` becomes `"SS"`), so the program gives `"SSSS"` for `"ß ß"`. Also, `charAt(0)` takes one UTF-16 code unit, so a name starting with a character outside the Basic Multilingual Plane (an emoji) gives a lone surrogate. The model's strings hold whole Unicode scalar values, so it gives the whole character.
- AvatarIcon.GetInitials: its bound of at most two initials, none lower-case, holds under the same ASCII and whole-character model as Names.Initials.
- Conversation.ParticipantsCsv: the JavaScript rendering of the temperature number is the parameter `showNumber`, not a modelled number-to-string conversion.
- The addressee selector's state is the `addressee` parameter of `Session.AddHostMessage`, and the host text field's reset after sending is not modelled.
- A JSON `null` completion, which would make `split` throw inside the `try`, is not modelled. A completion is always a string.

## Findings

| source | as written | input that shows it | evidently intended | confidence | as-written member | corrected member |
|---|---|---|---|---|---|---|
| src/components/Conversation.jsx:229 | The participants export reads `participant.setupPrompt`, but participants carry the setup prompt under the key `setupPrmopt` (src/components/ParticipantModal.jsx:32), so the column is always `undefined` | any participant with setup prompt `pirate` exports `undefined` in the setupPrompt column | the setupPrompt column holds the participant's setup prompt, as the header line says | high (not executed) | Conversation.SetupPromptLostInExport | Conversation.ParticipantRowFields |
