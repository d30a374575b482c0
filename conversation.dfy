/**
 * The conversation engine of the chat room: the max-token clamp, the
 * composition of the context an agent is prompted with, the parsing of
 * its `NAME>>reply` answer, the choice of which agents answer a host
 * message, the CSV text of the history, and the session state that the
 * host's actions and the agents' replies update.
 */
module Conversation {
  import opened Wrappers
  import opened Text
  import opened Chat

  // ---------------------------------------------------------------------
  // Max-token clamp
  // ---------------------------------------------------------------------

  /**
   * The max-token field's clamp on the parsed integer (None stands for NaN):
   * NaN gives 1024, anything below 1 gives 1, anything above 4096 gives 4096,
   * and a value in range is kept.
   */
  function ClampMaxTokens(input: Option<int>): (n: int)
    ensures 1 <= n <= 4096
    ensures input.None? ==> n == 1024
    ensures input.Some? && input.value < 1 ==> n == 1
    ensures input.Some? && input.value > 4096 ==> n == 4096
    ensures input.Some? && 1 <= input.value <= 4096 ==> n == input.value
  {
    match input
    case None => 1024
    case Some(v) => if v < 1 then 1 else if v > 4096 then 4096 else v
  }

  /** Clamping a clamped value changes nothing. */
  lemma ClampMaxTokensIdempotent(input: Option<int>)
    ensures ClampMaxTokens(Some(ClampMaxTokens(input))) == ClampMaxTokens(input)
  {
  }

  // ---------------------------------------------------------------------
  // Prompt composition
  // ---------------------------------------------------------------------

  /** The system preamble that explains the `NAME>>content` convention. */
  const UniversalFormatMessage: string :=
    "This is a chat conversation between multiple chat agents with different setup prompts, generated by an application given user input. The purpose is for training, simulations, test content generation, entertainment, etc. Each participant's message begins with their name in all caps followed by \">>\". Your character will be defined with the [CHARACTER SETUP] prompt. Each character only sees their own setup prompt. Please respond only as this character. Try to respond in character as best you can. The human user will be named \"HOST\", and system messages will be named \"SYSTEM\"."

  /** The closing system instruction on the reply format. */
  const ResponseInstruction: string :=
    "Respond only as your given character, in the format:\nCHARACTER NAME>>Their response to the conversation at this point"

  const SetupTag: string := "[CHARACTER SETUP]: "

  const FormatEntry: Entry := Entry(System, UniversalFormatMessage)
  const InstructionEntry: Entry := Entry(System, ResponseInstruction)

  /** The `[CHARACTER SETUP]` entry, present only for a non-empty setup prompt. */
  function SetupEntries(p: Participant): seq<Entry>
  {
    if p.setupPrompt != "" then [Entry(System, SetupTag + p.setupPrompt)] else []
  }

  /** A history message as the agent sees it: its role, and `UPPER(name)>>content`. */
  function HistoryEntry(m: Message): Entry
  {
    Entry(m.role, UpperString(m.speaker.Name()) + ">>" + Show(m.content))
  }

  function HistoryEntries(history: seq<Message>): (r: seq<Entry>)
    ensures |r| == |history|
  {
    seq(|history|, i requires 0 <= i < |history| => HistoryEntry(history[i]))
  }

  /** The addressed message as the agent sees it: its role, and `UPPER(name): content`. */
  function AddressedEntry(m: Message): Entry
  {
    Entry(m.role, UpperString(m.speaker.Name()) + ": " + Show(m.content))
  }

  function AddressedEntries(addressed: Option<Message>): seq<Entry>
  {
    match addressed
    case None => []
    case Some(m) => [AddressedEntry(m)]
  }

  /** Where the history starts in a composed context: after the preamble and the optional setup entry. */
  function HistoryOffset(p: Participant): nat
  {
    if p.setupPrompt != "" then 2 else 1
  }

  /**
   * The context sent to the completion service for `participant`, given the
   * history snapshot and the optional addressed message: the preamble first,
   * the setup entry second exactly when the setup prompt is non-empty, one
   * entry per history message in order (empty contents included), the
   * addressed message, and the format instruction last.
   */
  function Compose(participant: Participant, history: seq<Message>, addressed: Option<Message>): (r: seq<Entry>)
    ensures |r| == 2 + (if participant.setupPrompt != "" then 1 else 0) + |history|
                     + (if addressed.Some? then 1 else 0)
    ensures r[0] == FormatEntry
    ensures r[|r| - 1] == InstructionEntry
    ensures participant.setupPrompt != "" ==> r[1] == Entry(System, SetupTag + participant.setupPrompt)
    ensures forall i :: 0 <= i < |history| ==> r[HistoryOffset(participant) + i] == HistoryEntry(history[i])
    ensures addressed.Some? ==> r[|r| - 2] == AddressedEntry(addressed.value)
  {
    [FormatEntry] + SetupEntries(participant) + HistoryEntries(history) + AddressedEntries(addressed)
    + [InstructionEntry]
  }

  /** Two history messages an agent cannot tell apart: same role, speaker name and content. */
  predicate SameView(m: Message, n: Message)
  {
    m.role == n.role && m.speaker.Name() == n.speaker.Name() && m.content == n.content
  }

  /**
   * The only setup prompt a context holds is the prompted agent's own:
   * agents with the same setup prompt, prompted from histories that differ
   * only in what the speakers carry besides their names (their setup
   * prompts above all), get the same context.
   */
  lemma ComposeSeesOnlySetup(p: Participant, q: Participant, history: seq<Message>, other: seq<Message>,
                             addressed: Option<Message>)
    requires p.setupPrompt == q.setupPrompt
    requires |history| == |other|
    requires forall i :: 0 <= i < |history| ==> SameView(history[i], other[i])
    ensures Compose(p, history, addressed) == Compose(q, other, addressed)
  {
    assert HistoryEntries(history) == HistoryEntries(other);
  }

  /**
   * Whichever message of the history an agent spoke, the context reads the
   * same whatever that agent's setup prompt is.
   */
  lemma SpeakerSetupPromptUnseen(p: Participant, history: seq<Message>, i: nat, setupPrompt: string,
                                 addressed: Option<Message>)
    requires i < |history| && history[i].speaker.Agent?
    ensures Compose(p, history, addressed)
            == Compose(p, history[i := history[i].(speaker := Agent(history[i].speaker.agent.(setupPrompt := setupPrompt)))],
                       addressed)
  {
    var other := history[i := history[i].(speaker := Agent(history[i].speaker.agent.(setupPrompt := setupPrompt)))];
    assert forall j :: 0 <= j < |history| ==> SameView(history[j], other[j]);
    ComposeSeesOnlySetup(p, p, history, other, addressed);
  }

  /**
   * The composition step of `chatToParticipant`: start from the preamble,
   * push the setup entry when there is one, push one entry per history
   * message, push the addressed message when there is one, and push the
   * closing instruction.
   */
  method ComposeConversation(participant: Participant, history: seq<Message>, addressed: Option<Message>)
    returns (conversation: seq<Entry>)
    ensures conversation == Compose(participant, history, addressed)
  {
    conversation := [FormatEntry];
    if participant.setupPrompt != "" {
      conversation := conversation + [Entry(System, SetupTag + participant.setupPrompt)];
    }
    var i := 0;
    while i < |history|
      invariant 0 <= i <= |history|
      invariant conversation == [FormatEntry] + SetupEntries(participant) + HistoryEntries(history[..i])
    {
      var m := history[i];
      conversation := conversation + [Entry(m.role, UpperString(m.speaker.Name()) + ">>" + Show(m.content))];
      assert HistoryEntries(history[..i + 1]) == HistoryEntries(history[..i]) + [HistoryEntry(m)];
      i := i + 1;
    }
    assert history[..i] == history;
    if addressed.Some? {
      var m := addressed.value;
      conversation := conversation + [Entry(m.role, UpperString(m.speaker.Name()) + ": " + Show(m.content))];
    }
    conversation := conversation + [InstructionEntry];
  }

  // ---------------------------------------------------------------------
  // Reply parsing
  // ---------------------------------------------------------------------

  /** The delimiter `>>` starts at index `k` of `s`. */
  predicate DelimAt(s: string, k: int)
  {
    0 <= k && k + 1 < |s| && s[k] == '>' && s[k + 1] == '>'
  }

  predicate HasDelim(s: string)
  {
    exists k :: 0 <= k < |s| && DelimAt(s, k)
  }

  /** The index of the first `>>` in `s`, as `split` finds it. */
  function FindDelim(s: string): (r: Option<nat>)
    ensures r.None? <==> !HasDelim(s)
    ensures r.Some? ==> DelimAt(s, r.value)
    ensures r.Some? ==> forall k :: 0 <= k < r.value ==> !DelimAt(s, k)
    decreases |s|
  {
    if |s| < 2 then None
    else if s[0] == '>' && s[1] == '>' then assert DelimAt(s, 0); Some(0)
    else
      var tail := FindDelim(s[1..]);
      assert forall k :: 1 <= k ==> (DelimAt(s, k) <==> DelimAt(s[1..], k - 1));
      assert forall k :: 0 <= k ==> (DelimAt(s[1..], k) <==> DelimAt(s, k + 1));
      assert !DelimAt(s, 0);
      match tail
      case None => None
      case Some(i) => Some(i + 1)
  }

  /**
   * `raw.split('>>')[1]`: the text strictly between the first and the
   * second `>>` (or up to the end when there is no second one); without any
   * `>>` the result is undefined. Everything before the first `>>` and from
   * the second one on is dropped.
   */
  function ParseReply(raw: string): (r: Option<string>)
    ensures r.None? <==> !HasDelim(raw)
    ensures r.Some? ==> !HasDelim(r.value)
    ensures r.Some? ==>
      var start := FindDelim(raw).value + 2;
      var stop := start + |r.value|;
      && stop <= |raw|
      && raw[start..stop] == r.value
      && (stop == |raw| || DelimAt(raw, stop))
    ensures r.Some? ==>
      forall k :: FindDelim(raw).value + 2 <= k < FindDelim(raw).value + 2 + |r.value| ==> !DelimAt(raw, k)
  {
    match FindDelim(raw)
    case None => None
    case Some(i) =>
      var rest := raw[i + 2..];
      assert forall k :: i + 2 <= k ==> (DelimAt(raw, k) ==> DelimAt(rest, k - (i + 2)));
      match FindDelim(rest)
      case None => Some(rest)
      case Some(j) =>
        assert forall k :: 0 <= k ==> (DelimAt(rest[..j], k) ==> DelimAt(rest, k));
        assert rest[..j] == raw[i + 2..i + 2 + j];
        assert DelimAt(raw, i + 2 + j);
        Some(rest[..j])
  }

  /** A `>>` at `i` with none before it is the one `split` cuts at first. */
  lemma FirstDelimIs(s: string, i: nat)
    requires DelimAt(s, i)
    requires forall k :: 0 <= k < i ==> !DelimAt(s, k)
    ensures FindDelim(s) == Some(i)
  {
    assert HasDelim(s);
    var j := FindDelim(s).value;
    assert !(i < j);
  }

  /** The first `>>` of `name + ">>" + rest` is the one after `name` when `name` holds no `>`. */
  lemma FirstDelimAfterName(name: string, rest: string)
    requires '>' !in name
    ensures FindDelim(name + ">>" + rest) == Some(|name|)
  {
    var raw := name + ">>" + rest;
    forall k | 0 <= k < |name|
      ensures !DelimAt(raw, k)
    {
      assert raw[k] == name[k] && name[k] in name;
    }
    FirstDelimIs(raw, |name|);
  }

  /** A reply in the requested `NAME>>text` form parses back to `text`. */
  lemma ParseFormatted(name: string, text: string)
    requires '>' !in name
    requires !HasDelim(text)
    ensures ParseReply(name + ">>" + text) == Some(text)
  {
    var raw := name + ">>" + text;
    FirstDelimAfterName(name, text);
    assert raw[|name| + 2..] == text;
  }

  /** A second `>>` cuts the reply short: whatever follows it is lost. */
  lemma ParseDropsAfterSecondDelim(name: string, text: string, tail: string)
    requires '>' !in name
    requires !HasDelim(text + ">")
    ensures ParseReply(name + ">>" + text + ">>" + tail) == Some(text)
  {
    var rest := text + ">>" + tail;
    var raw := name + ">>" + text + ">>" + tail;
    assert raw == name + ">>" + rest;
    FirstDelimAfterName(name, rest);
    assert raw[|name| + 2..] == rest;
    var closed := text + ">";
    forall k | 0 <= k < |text|
      ensures !DelimAt(rest, k)
    {
      assert rest[k] == closed[k] && rest[k + 1] == closed[k + 1];
      assert DelimAt(rest, k) ==> DelimAt(closed, k);
    }
    assert DelimAt(rest, |text|);
    FirstDelimIs(rest, |text|);
    assert rest[..|text|] == text;
  }

  /** Text without any `>` holds no delimiter. */
  lemma NoDelimWithoutGt(s: string)
    requires '>' !in s
    ensures !HasDelim(s)
  {
    assert forall k :: 0 <= k < |s| ==> s[k] in s;
  }

  /** Worked case: a well-formed reply keeps the text after the name. */
  lemma ParseWellFormedExample()
    ensures ParseReply("ALICE>>Hi") == Some("Hi")
  {
    assert "ALICE>>Hi" == "ALICE" + ">>" + "Hi";
    assert '>' !in "ALICE";
    NoDelimWithoutGt("Hi");
    ParseFormatted("ALICE", "Hi");
  }

  /** Worked case: with two delimiters only the middle part is kept. */
  lemma ParseTwoDelimsExample()
    ensures ParseReply("A>>b>>c") == Some("b")
  {
    assert "A>>b>>c" == "A" + ">>" + "b" + ">>" + "c";
    assert !DelimAt("b>", 0) && !DelimAt("b>", 1);
    ParseDropsAfterSecondDelim("A", "b", "c");
  }

  /** Worked case: a reply without a delimiter loses its text altogether. */
  lemma ParseNoDelimExample()
    ensures ParseReply("Hello there") == None
  {
    NoDelimWithoutGt("Hello there");
  }

  // ---------------------------------------------------------------------
  // Addressing
  // ---------------------------------------------------------------------

  const HostColor: string := "#ccc"

  /**
   * The message a host turn (or an enrolment intro) records: role `system`
   * under the `System` pseudo-participant when `isSystem`, otherwise role
   * `user` under `Host`; its content is the typed text.
   */
  function HostMessage(isSystem: bool, text: string): (m: Message)
    ensures m.role == System <==> isSystem
    ensures m.role != Assistant
    ensures m.speaker.Name() == (if m.role == System then "System" else "Host")
    ensures m.speaker.Color() == HostColor
    ensures m.content == Some(text)
  {
    if isSystem then Message(System, Pseudo("System", HostColor), Some(text))
    else Message(User, Pseudo("Host", HostColor), Some(text))
  }

  predicate IsAddressed(addressee: string, p: Participant)
  {
    addressee == "all" || addressee == p.name
  }

  /** The participants that get a reply cycle, in registration order. */
  function Recipients(participants: seq<Participant>, addressee: string): (rs: seq<Participant>)
    ensures |rs| <= |participants|
    ensures forall i :: 0 <= i < |rs| ==> IsAddressed(addressee, rs[i])
  {
    if participants == [] then []
    else
      var last := participants[|participants| - 1];
      Recipients(participants[..|participants| - 1], addressee) + (if IsAddressed(addressee, last) then [last] else [])
  }

  /** Visiting one more participant adds it at the end of the recipients when it is addressed. */
  lemma RecipientsStep(participants: seq<Participant>, i: nat, addressee: string)
    requires i < |participants|
    ensures Recipients(participants[..i + 1], addressee)
            == Recipients(participants[..i], addressee)
               + (if IsAddressed(addressee, participants[i]) then [participants[i]] else [])
  {
    assert participants[..i + 1][..i] == participants[..i];
  }

  /** A participant gets a reply cycle exactly when it is registered and addressed. */
  lemma {:induction false} RecipientsMembership(participants: seq<Participant>, addressee: string, p: Participant)
    ensures p in Recipients(participants, addressee) <==> p in participants && IsAddressed(addressee, p)
    decreases |participants|
  {
    if participants != [] {
      var init := participants[..|participants| - 1];
      var last := participants[|participants| - 1];
      assert participants == init + [last];
      RecipientsMembership(init, addressee, p);
    }
  }

  /** Selection keeps registration order: it distributes over concatenation. */
  lemma {:induction false} RecipientsConcat(first: seq<Participant>, second: seq<Participant>, addressee: string)
    ensures Recipients(first + second, addressee) == Recipients(first, addressee) + Recipients(second, addressee)
    decreases |second|
  {
    if second == [] {
      assert first + second == first;
    } else {
      var all := first + second;
      var init := second[..|second| - 1];
      assert all[..|all| - 1] == first + init;
      assert all[|all| - 1] == second[|second| - 1];
      RecipientsConcat(first, init, addressee);
    }
  }

  /** Addressing `all` gives every participant a cycle, in registration order. */
  lemma {:induction false} RecipientsOfAll(participants: seq<Participant>)
    ensures Recipients(participants, "all") == participants
    decreases |participants|
  {
    if participants != [] {
      RecipientsOfAll(participants[..|participants| - 1]);
      assert participants[..|participants| - 1] + [participants[|participants| - 1]] == participants;
    }
  }

  /** A name no participant has (such as `audience`, usually) gives nobody a cycle; no error is raised. */
  lemma {:induction false} RecipientsOfUnknown(participants: seq<Participant>, addressee: string)
    requires addressee != "all"
    requires forall i :: 0 <= i < |participants| ==> participants[i].name != addressee
    ensures Recipients(participants, addressee) == []
    decreases |participants|
  {
    if participants != [] {
      RecipientsOfUnknown(participants[..|participants| - 1], addressee);
    }
  }

  /** A name held by exactly one participant gives that one participant a cycle. */
  lemma RecipientsOfName(before: seq<Participant>, p: Participant, after: seq<Participant>)
    requires p.name != "all"
    requires forall i :: 0 <= i < |before| ==> before[i].name != p.name
    requires forall i :: 0 <= i < |after| ==> after[i].name != p.name
    ensures Recipients(before + [p] + after, p.name) == [p]
  {
    var a := p.name;
    RecipientsConcat(before + [p], after, a);
    RecipientsConcat(before, [p], a);
    RecipientsOfUnknown(before, a);
    RecipientsOfUnknown(after, a);
    assert [p][..0] == [];
    assert Recipients([p], a) == [p];
    assert Recipients(before + [p], a) == [p];
  }

  // ---------------------------------------------------------------------
  // Messages CSV
  // ---------------------------------------------------------------------

  /** The header line `role,content,participant_name,participant_color`. */
  const MessagesHeader: string := "role" + "," + "content" + "," + "participant_name" + "," + "participant_color"

  /** One CSV row: role, content, participant name and colour, comma-joined without quoting. */
  function MessageRow(m: Message): string
  {
    RoleName(m.role) + "," + Show(m.content) + "," + m.speaker.Name() + "," + m.speaker.Color()
  }

  function MessageRows(messages: seq<Message>): (rows: seq<string>)
    ensures |rows| == |messages|
  {
    seq(|messages|, i requires 0 <= i < |messages| => MessageRow(messages[i]))
  }

  /** The text of `messages.csv`: the header line, then the rows joined by newlines. */
  function MessagesCsv(messages: seq<Message>): (csv: string)
    ensures |csv| > |MessagesHeader|
    ensures csv[..|MessagesHeader| + 1] == MessagesHeader + "\n"
  {
    MessagesHeader + "\n" + Join(MessageRows(messages), '\n')
  }

  predicate FieldsFree(m: Message, c: char)
  {
    c !in Show(m.content) && c !in m.speaker.Name() && c !in m.speaker.Color()
  }

  lemma HeaderHasNoNewline()
    ensures '\n' !in MessagesHeader
  {
    assert '\n' !in "role" && '\n' !in "content" && '\n' !in "participant_name";
    assert '\n' !in "participant_color" && '\n' !in ",";
  }

  /** A row whose fields hold no comma splits back into exactly its four fields. */
  lemma MessageRowFields(m: Message)
    requires FieldsFree(m, ',')
    ensures SplitOn(MessageRow(m), ',')
            == [RoleName(m.role), Show(m.content), m.speaker.Name(), m.speaker.Color()]
  {
    var fields := [RoleName(m.role), Show(m.content), m.speaker.Name(), m.speaker.Color()];
    assert Join(fields[3..], ',') == fields[3];
    assert Join(fields[2..], ',') == fields[2] + "," + fields[3];
    assert Join(fields[1..], ',') == fields[1] + "," + fields[2] + "," + fields[3];
    assert Join(fields, ',') == MessageRow(m);
    SplitJoin(fields, ',');
  }

  /**
   * When no field holds a newline, the lines of the CSV are the header and
   * then one row per message in history order (an empty history leaves one
   * empty line after the header).
   */
  lemma MessagesCsvLines(messages: seq<Message>)
    requires forall i :: 0 <= i < |messages| ==> FieldsFree(messages[i], '\n')
    ensures SplitOn(MessagesCsv(messages), '\n')
            == [MessagesHeader] + (if messages == [] then [""] else MessageRows(messages))
  {
    var rows := MessageRows(messages);
    HeaderHasNoNewline();
    SplitAfterPiece(MessagesHeader, Join(rows, '\n'), '\n');
    assert MessagesCsv(messages) == MessagesHeader + ['\n'] + Join(rows, '\n');
    if messages == [] {
      SplitWithoutSep("", '\n');
    } else {
      forall i | 0 <= i < |rows|
        ensures '\n' !in rows[i]
      {
        assert FieldsFree(messages[i], '\n');
      }
      SplitJoin(rows, '\n');
    }
  }

  // ---------------------------------------------------------------------
  // Participants CSV
  // ---------------------------------------------------------------------

  /** The header line `name,color,setupPrompt,introPrompt,temperature`. */
  const ParticipantsHeader: string := "name" + "," + "color" + "," + "setupPrompt" + "," + "introPrompt" + "," + "temperature"

  /**
   * The participant row as written: it reads a `setupPrompt` property, but
   * the dialog stores the setup prompt under the misspelt key `setupPrmopt`,
   * so the column always renders as `undefined`. `showNumber` is how
   * JavaScript prints the temperature.
   */
  function ParticipantRowAsWritten(p: Participant, showNumber: real -> string): string
  {
    p.name + "," + p.color + "," + Show(None) + "," + p.introPrompt + "," + showNumber(p.temperature)
  }

  /** Two participants that differ only in their setup prompt get the same row: the prompt is lost. */
  lemma SetupPromptLostInExport(p: Participant, setupPrompt: string, showNumber: real -> string)
    ensures ParticipantRowAsWritten(p, showNumber)
            == ParticipantRowAsWritten(p.(setupPrompt := setupPrompt), showNumber)
    ensures ParticipantRowAsWritten(p, showNumber)[|p.name| + |p.color| + 2..][..9] == "undefined"
  {
    var row := ParticipantRowAsWritten(p, showNumber);
    assert row == p.name + "," + p.color + "," + ("undefined" + "," + p.introPrompt + "," + showNumber(p.temperature));
    assert row[|p.name| + |p.color| + 2..] == "undefined" + "," + p.introPrompt + "," + showNumber(p.temperature);
  }

  /** The intended participant row: the five header columns, the setup prompt included. */
  function ParticipantRow(p: Participant, showNumber: real -> string): string
  {
    p.name + "," + p.color + "," + p.setupPrompt + "," + p.introPrompt + "," + showNumber(p.temperature)
  }

  /** A participant row whose fields hold no comma splits back into its five fields, setup prompt included. */
  lemma ParticipantRowFields(p: Participant, showNumber: real -> string)
    requires ',' !in p.name && ',' !in p.color && ',' !in p.setupPrompt && ',' !in p.introPrompt
    requires ',' !in showNumber(p.temperature)
    ensures SplitOn(ParticipantRow(p, showNumber), ',')
            == [p.name, p.color, p.setupPrompt, p.introPrompt, showNumber(p.temperature)]
  {
    var fields := [p.name, p.color, p.setupPrompt, p.introPrompt, showNumber(p.temperature)];
    assert Join(fields[4..], ',') == fields[4];
    assert Join(fields[3..], ',') == fields[3] + "," + fields[4];
    assert Join(fields[2..], ',') == fields[2] + "," + fields[3] + "," + fields[4];
    assert Join(fields[1..], ',') == fields[1] + "," + fields[2] + "," + fields[3] + "," + fields[4];
    assert Join(fields, ',') == ParticipantRow(p, showNumber);
    SplitJoin(fields, ',');
  }

  function ParticipantRows(participants: seq<Participant>, showNumber: real -> string): (rows: seq<string>)
    ensures |rows| == |participants|
  {
    seq(|participants|, i requires 0 <= i < |participants| => ParticipantRowAsWritten(participants[i], showNumber))
  }

  /** The text of `participants.csv` as written: the header line, then one row per participant. */
  function ParticipantsCsv(participants: seq<Participant>, showNumber: real -> string): (csv: string)
    ensures |csv| > |ParticipantsHeader|
    ensures csv[..|ParticipantsHeader| + 1] == ParticipantsHeader + "\n"
  {
    ParticipantsHeader + "\n" + Join(ParticipantRows(participants, showNumber), '\n')
  }

  /** The exported fields of a participant hold no `c`. */
  predicate ExportFree(p: Participant, showNumber: real -> string, c: char)
  {
    c !in p.name && c !in p.color && c !in p.introPrompt && c !in showNumber(p.temperature)
  }

  lemma ParticipantsHeaderHasNoNewline()
    ensures '\n' !in ParticipantsHeader
  {
    assert '\n' !in "name" && '\n' !in "color" && '\n' !in "setupPrompt";
    assert '\n' !in "introPrompt" && '\n' !in "temperature" && '\n' !in ",";
  }

  /**
   * When no exported field holds a newline, the lines of the participants
   * CSV are the header and then one row per participant in registry order
   * (an empty registry leaves one empty line after the header).
   */
  lemma ParticipantsCsvLines(participants: seq<Participant>, showNumber: real -> string)
    requires forall i :: 0 <= i < |participants| ==> ExportFree(participants[i], showNumber, '\n')
    ensures SplitOn(ParticipantsCsv(participants, showNumber), '\n')
            == [ParticipantsHeader] + (if participants == [] then [""] else ParticipantRows(participants, showNumber))
  {
    var rows := ParticipantRows(participants, showNumber);
    ParticipantsHeaderHasNoNewline();
    SplitAfterPiece(ParticipantsHeader, Join(rows, '\n'), '\n');
    assert ParticipantsCsv(participants, showNumber) == ParticipantsHeader + ['\n'] + Join(rows, '\n');
    if participants == [] {
      SplitWithoutSep("", '\n');
    } else {
      forall i | 0 <= i < |rows|
        ensures '\n' !in rows[i]
      {
        assert ExportFree(participants[i], showNumber, '\n');
        assert '\n' !in "undefined" && '\n' !in ",";
      }
      SplitJoin(rows, '\n');
    }
  }

  // ---------------------------------------------------------------------
  // Session state
  // ---------------------------------------------------------------------

  /**
   * What one reply cycle sends to the completion service: the context
   * composed for `participant` (whose model and temperature go with it)
   * and the session's max-token setting.
   */
  datatype Request = Request(participant: Participant, context: seq<Entry>, maxTokens: int)

  /**
   * The requests of one host turn: one per recipient, in order, each
   * composed from the same history snapshot and addressed with the same
   * host message.
   */
  function TurnRequests(recipients: seq<Participant>, history: seq<Message>, addressed: Message, maxTokens: int)
    : (rs: seq<Request>)
    ensures |rs| == |recipients|
    ensures forall k :: 0 <= k < |rs| ==>
      && rs[k].participant == recipients[k]
      && rs[k].context == Compose(recipients[k], history, Some(addressed))
      && rs[k].maxTokens == maxTokens
  {
    if recipients == [] then []
    else
      var last := recipients[|recipients| - 1];
      TurnRequests(recipients[..|recipients| - 1], history, addressed, maxTokens)
      + [Request(last, Compose(last, history, Some(addressed)), maxTokens)]
  }

  lemma TurnRequestsSnoc(recipients: seq<Participant>, p: Participant, history: seq<Message>, addressed: Message, maxTokens: int)
    ensures TurnRequests(recipients + [p], history, addressed, maxTokens)
            == TurnRequests(recipients, history, addressed, maxTokens)
               + [Request(p, Compose(p, history, Some(addressed)), maxTokens)]
  {
    assert (recipients + [p])[..|recipients|] == recipients;
  }

  /**
   * The state of the conversation view: the registered participants, the
   * shared message history and the max-token setting. Both sequences only
   * ever grow at the end.
   */
  class Session {
    var participants: seq<Participant>
    var messages: seq<Message>
    var maxTokens: int

    ghost predicate Valid()
      reads this
    {
      1 <= maxTokens <= 4096
    }

    constructor ()
      ensures Valid()
      ensures participants == [] && messages == [] && maxTokens == 1024
    {
      participants := [];
      messages := [];
      maxTokens := 1024;
    }

    /** The max-token field changed: store the clamped value. */
    method HandleMaxTokenChange(input: Option<int>)
      requires Valid()
      modifies this`maxTokens
      ensures Valid()
      ensures maxTokens == ClampMaxTokens(input)
    {
      maxTokens := ClampMaxTokens(input);
    }

    /**
     * The synchronous half of a reply cycle: compose the context from the
     * given history snapshot and build the request. The Talk button calls
     * it with the current history and no addressed message.
     */
    method ChatToParticipant(participant: Participant, history: seq<Message>, addressed: Option<Message>)
      returns (request: Request)
      requires Valid()
      ensures 1 <= request.maxTokens <= 4096
      ensures request.participant == participant
      ensures request.maxTokens == maxTokens
      ensures request.context == Compose(participant, history, addressed)
    {
      var conversation := ComposeConversation(participant, history, addressed);
      request := Request(participant, conversation, maxTokens);
    }

    /**
     * The asynchronous half of a reply cycle, once the completion service
     * answered `completion`: append one `assistant` message from
     * `participant` whose content is the parsed reply. A failed completion
     * never gets here and leaves the history as it was.
     */
    method ReceiveReply(participant: Participant, completion: string)
      modifies this`messages
      ensures messages == old(messages) + [Message(Assistant, Agent(participant), ParseReply(completion))]
    {
      var content := ParseReply(completion);
      messages := messages + [Message(Assistant, Agent(participant), content)];
    }

    /**
     * The host says something: append the host message at the end, then
     * start a reply cycle for each addressed participant in registration
     * order. Every cycle composes from the history as it was BEFORE the
     * host message was appended; the host message reaches the agents only
     * as the addressed message.
     */
    method AddHostMessage(hostMessage: string, isSystem: bool, addressee: string)
      returns (requests: seq<Request>)
      requires Valid()
      modifies this`messages
      ensures Valid()
      ensures messages == old(messages) + [HostMessage(isSystem, hostMessage)]
      ensures forall k :: 0 <= k < |requests| ==> 1 <= requests[k].maxTokens <= 4096
      ensures requests == TurnRequests(Recipients(participants, addressee), old(messages),
                                       HostMessage(isSystem, hostMessage), maxTokens)
    {
      var snapshot := messages;
      var newMessage := HostMessage(isSystem, hostMessage);
      messages := messages + [newMessage];
      requests := [];
      var i := 0;
      while i < |participants|
        invariant 0 <= i <= |participants|
        invariant messages == snapshot + [newMessage]
        invariant requests == TurnRequests(Recipients(participants[..i], addressee), snapshot, newMessage, maxTokens)
      {
        var p := participants[i];
        RecipientsStep(participants, i, addressee);
        if addressee == "all" || addressee == p.name {
          var request := ChatToParticipant(p, snapshot, Some(newMessage));
          TurnRequestsSnoc(Recipients(participants[..i], addressee), p, snapshot, newMessage, maxTokens);
          requests := requests + [request];
        }
        i := i + 1;
      }
      assert participants[..i] == participants;
    }

    /**
     * Enrol a participant: append it at the end of the registry (no check
     * for a repeated name). When `doResponseNow` is set and the intro
     * prompt is non-empty, start exactly one reply cycle addressed with the
     * intro prompt; no host message is appended to the history.
     */
    method AddNewParticipant(newParticipant: Participant, doResponseNow: bool, isSystemIntroPrompt: bool)
      returns (requests: seq<Request>)
      requires Valid()
      modifies this`participants
      ensures Valid()
      ensures participants == old(participants) + [newParticipant]
      ensures messages == old(messages)
      ensures |requests| == (if doResponseNow && newParticipant.introPrompt != "" then 1 else 0)
      ensures |requests| == 1 ==>
        requests[0] == Request(newParticipant,
                               Compose(newParticipant, messages,
                                       Some(HostMessage(isSystemIntroPrompt, newParticipant.introPrompt))),
                               maxTokens)
    {
      participants := participants + [newParticipant];
      requests := [];
      if doResponseNow && newParticipant.introPrompt != "" {
        var introMessage := HostMessage(isSystemIntroPrompt, newParticipant.introPrompt);
        var request := ChatToParticipant(newParticipant, messages, Some(introMessage));
        requests := [request];
      }
    }
  }

  /**
   * A host turn on a fresh session with two agents enrolled without an
   * intro, addressed to `all`: two requests, in registration order, both
   * composed from the empty pre-turn history. Whichever reply is appended
   * first, the other agent's prompt never contains it.
   */
  method HostTurnToAll(first: Participant, second: Participant, text: string)
    returns (requests: seq<Request>)
    ensures |requests| == 2
    ensures requests[0].participant == first && requests[1].participant == second
    ensures requests[0].context == Compose(first, [], Some(HostMessage(false, text)))
    ensures requests[1].context == Compose(second, [], Some(HostMessage(false, text)))
  {
    var session := new Session();
    var none := session.AddNewParticipant(first, false, false);
    none := session.AddNewParticipant(second, false, false);
    RecipientsOfAll([first, second]);
    requests := session.AddHostMessage(text, false, "all");
  }
}
