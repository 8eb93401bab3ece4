/** The chat window's state, with the widgets left out: the transcript
    shown in the chat box and the bot it talks to. A session starts from
    the saved history or from the bot's greeting, each non-blank line the
    user sends adds the user's line and the bot's reply, and clearing the
    chat goes back to the greeting with no subject selected. */
module Session {
  import opened Strings
  import opened Knowledge
  import opened Conversation
  import opened Links

  const UserPrefix := "\n🧑 You: "
  const BotPrefix := "🤖 StudyMate: "

  /** The greeting the window shows: "initial_greeting", or "Hello!". */
  function GreetingLine(kb: KnowledgeBase): string {
    BotPrefix + kb.initialGreeting.GetOr("Hello!") + "\n"
  }

  /** What one exchange adds to the transcript: the user's line, the bot's
      prefix and the inserts written for the reply. */
  function Exchange(msg: string, reply: string): string {
    UserPrefix + msg + "\n" + BotPrefix + Flatten(Segments(reply))
  }

  /** Unless the reply itself holds "|||", an exchange shows the reply
      word for word, followed by a newline. */
  lemma ExchangeShowsReply(msg: string, reply: string)
    requires !IsSubstring(Marker, reply)
    ensures Exchange(msg, reply) == UserPrefix + msg + "\n" + BotPrefix + reply + "\n"
  {
    SegmentsRoundTrip(reply);
  }

  class ChatSession {
    const engine: Engine
    var transcript: string

    predicate Valid()
      reads this, engine
    {
      engine.Valid()
    }

    /** Opening the window: the saved history if there is any, else the
        greeting; no subject is selected. */
    constructor (kb: KnowledgeBase, history: string)
      ensures Valid() && fresh(engine)
      ensures engine.kb == kb && engine.currentSubject == ""
      ensures transcript == if history != "" then history else GreetingLine(kb)
    {
      engine := new Engine(kb);
      transcript := if history != "" then history else GreetingLine(kb);
    }

    /** send_message: a blank line changes nothing; any other line is
        stripped, answered by the bot and written to the transcript. */
    method Send(line: string)
      requires Valid()
      modifies this, engine
      ensures Valid()
      ensures Strip(line) == "" ==>
        transcript == old(transcript) && engine.currentSubject == old(engine.currentSubject)
      ensures Strip(line) != "" ==>
        var turn := Step(engine.kb, old(engine.currentSubject), Strip(line));
        && transcript == old(transcript) + Exchange(Strip(line), turn.reply)
        && engine.currentSubject == turn.subject
    {
      var msg := Strip(line);
      if msg == "" {
        return;
      }
      var reply := engine.Respond(msg);
      var segs := SegmentReply(reply);
      transcript := transcript + (UserPrefix + msg + "\n" + BotPrefix + Flatten(segs));
    }

    /** clear_chat_history: back to the greeting, with no subject. */
    method Clear()
      requires Valid()
      modifies this, engine
      ensures Valid()
      ensures transcript == GreetingLine(engine.kb) && engine.currentSubject == ""
    {
      transcript := GreetingLine(engine.kb);
      engine.currentSubject := "";
    }
  }
}
