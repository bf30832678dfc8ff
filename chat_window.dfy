/**
 * The conversation of components/ChatWindow.tsx: the system instruction built from the book, the
 * initial transcript set when the component mounts, and the submit guard with its two appends.
 *
 * The Gemini client is abstracted: creating the chat either succeeds, giving a handle that
 * records the model name and the system instruction, or throws; `chat.sendMessage` settles
 * with the whole reply text or fails (there is no streaming in the component).
 */
module ChatWindow {
  import opened Wrappers
  import JsStrings

  const ModelName := "gemini-2.5-flash"

  /** The fixed text of the system instruction before the book. */
  const InstructionPreamble := "You are a helpful assistant and an expert on the book provided below. Your task is to answer the user's questions based *only* on the content of this book. Do not use any external knowledge or make assumptions beyond what is written. If the answer is not in the book, say so. Here is the book's content: "
  const StartMarker := "\n\n---START OF BOOK---\n\n"
  const EndMarker := "\n\n---END OF BOOK---"

  const Quote := "\""
  const GreetingPrefix := "I've finished reading " + Quote
  const GreetingSuffix := Quote + ". What would you like to know?"

  const ConnectionErrorText := "Sorry, I am having trouble connecting to my brain right now. Please check the API key and refresh."
  const AnswerErrorText := "Oops! Something went wrong while trying to answer."

  // ---------------------------------------------------------------------------------------
  // Template strings
  // ---------------------------------------------------------------------------------------

  /** A template literal with one placeholder: `${prefix}${body}${suffix}`. */
  function Fill(prefix: string, body: string, suffix: string): string {
    prefix + body + suffix
  }

  /** Reads the placeholder back out of a filled template, if `s` has its shape. */
  function Unfill(s: string, prefix: string, suffix: string): (body: Option<string>)
    ensures body.Some? ==> s == prefix + body.value + suffix
  {
    if |prefix| + |suffix| <= |s| && s[..|prefix|] == prefix && s[|s| - |suffix|..] == suffix then
      assert s == s[..|prefix|] + s[|prefix|..|s| - |suffix|] + s[|s| - |suffix|..];
      Some(s[|prefix|..|s| - |suffix|])
    else
      None
  }

  /** Filling a template and reading it back gives the placeholder's value. */
  lemma UnfillFill(prefix: string, body: string, suffix: string)
    ensures Unfill(Fill(prefix, body, suffix), prefix, suffix) == Some(body)
  {
  }

  /** The system instruction the chat is created with: the book text verbatim between the two markers. */
  function SystemInstruction(bookContent: string): string {
    Fill(InstructionPreamble + StartMarker, bookContent, EndMarker)
  }

  /** The book a system instruction carries. */
  function BookOf(instruction: string): Option<string> {
    Unfill(instruction, InstructionPreamble + StartMarker, EndMarker)
  }

  /** The whole book, and nothing else, sits between `---START OF BOOK---` and `---END OF BOOK---`. */
  lemma InstructionCarriesBook(bookContent: string)
    ensures BookOf(SystemInstruction(bookContent)) == Some(bookContent)
    ensures SystemInstruction(bookContent) == InstructionPreamble + StartMarker + bookContent + EndMarker
  {
  }

  /** Different books give different system instructions. */
  lemma InstructionInjective(a: string, b: string)
    requires SystemInstruction(a) == SystemInstruction(b)
    ensures a == b
  {
    InstructionCarriesBook(a);
    InstructionCarriesBook(b);
  }

  /** The first model message after a successful start. */
  function Greeting(bookTitle: string): string {
    Fill(GreetingPrefix, bookTitle, GreetingSuffix)
  }

  /** The greeting quotes the title: `"` + title + `"` sits right after `I've finished reading `, and the title can be read back. */
  lemma GreetingQuotesTitle(bookTitle: string)
    ensures Unfill(Greeting(bookTitle), GreetingPrefix, GreetingSuffix) == Some(bookTitle)
    ensures var g, at := Greeting(bookTitle), |GreetingPrefix| - 1;
      at + |bookTitle| + 2 <= |g| && g[at..at + |bookTitle| + 2] == Quote + bookTitle + Quote
  {
  }

  // ---------------------------------------------------------------------------------------
  // The transcript
  // ---------------------------------------------------------------------------------------

  datatype Role = User | Model

  datatype Message = Message(role: Role, text: string)

  /** What `ai.chats.create` returns, reduced to the configuration it was given. */
  datatype ChatHandle = ChatHandle(model: string, systemInstruction: string)

  /** How `chat.sendMessage` settles. */
  datatype Reply = Answered(text: string) | RequestFailed

  /** The model message a settled request appends. */
  function ReplyMessage(reply: Reply): (m: Message)
    ensures m.role == Model
    ensures reply.Answered? ==> m.text == reply.text
    ensures reply.RequestFailed? ==> m.text == AnswerErrorText
  {
    match reply
    case Answered(text) => Message(Model, text)
    case RequestFailed => Message(Model, AnswerErrorText)
  }

  /** The opening model message, then user and model messages taking turns. */
  predicate Alternating(messages: seq<Message>) {
    forall i :: 0 <= i < |messages| ==> messages[i].role == (if i % 2 == 0 then Model else User)
  }

  /** Appending a message of the role whose turn it is keeps the roles alternating. */
  lemma AlternatingAppend(messages: seq<Message>, m: Message)
    requires Alternating(messages)
    requires m.role == if |messages| % 2 == 0 then Model else User
    ensures Alternating(messages + [m])
  {
  }

  /** Two model messages in a row can never be part of an alternating transcript. */
  lemma ModelTwiceBreaksAlternation(messages: seq<Message>, i: nat)
    requires i + 1 < |messages| && messages[i].role == Model && messages[i + 1].role == Model
    ensures !Alternating(messages)
  {
  }

  /** Whether the submit guard lets `currentMessage` through. */
  predicate Accepts(currentMessage: string, isLoading: bool, chat: Option<ChatHandle>) {
    JsStrings.Trim(currentMessage) != "" && !isLoading && chat.Some?
  }

  /** The guard rejects exactly the blank messages, the submits while a reply is awaited, and every submit without a chat. */
  lemma AcceptsIff(currentMessage: string, isLoading: bool, chat: Option<ChatHandle>)
    ensures Accepts(currentMessage, isLoading, chat) <==>
      !JsStrings.IsBlank(currentMessage) && !isLoading && chat.Some?
  {
  }

  class ChatWindow {
    /** The chat handle; `None` is `null`, the state after a failed start. */
    var chat: Option<ChatHandle>
    var messages: seq<Message>
    /** The text of the input box. */
    var currentMessage: string
    /** Whether a reply is awaited. */
    var isLoading: bool

    /** A reply is only awaited with a chat; this survives every step, including a re-run of `initChat`. */
    predicate Live()
      reads this
    {
      isLoading ==> chat.Some?
    }

    /**
     * The transcript opens with one model message, then user and model messages alternate;
     * a reply is awaited exactly when the last message is the user's. This holds from mounting
     * on, as long as `initChat` is not re-run while a reply is awaited.
     */
    predicate Valid()
      reads this
    {
      && Live()
      && |messages| > 0
      && Alternating(messages)
      && (isLoading <==> |messages| % 2 == 0)
    }

    /** Mounting with a book: the initial state, then the first run of `initChat`. */
    constructor (bookContent: string, bookTitle: string, clientReady: bool)
      ensures Valid()
      ensures clientReady ==>
        chat == Some(ChatHandle(ModelName, SystemInstruction(bookContent)))
        && messages == [Message(Model, Greeting(bookTitle))]
      ensures !clientReady ==> chat == None && messages == [Message(Model, ConnectionErrorText)]
      ensures currentMessage == "" && !isLoading
    {
      chat := None;
      messages := [];
      currentMessage := "";
      isLoading := false;
      new;
      InitChat(bookContent, bookTitle, clientReady);
    }

    /**
     * `initChat`, run on mounting and again whenever the `bookContent` or `bookTitle` props change
     * (the window is kept, not remounted, when the app receives another book). On success the
     * chat is replaced and the transcript becomes the greeting; on failure only the transcript is
     * replaced, by the connection error, and any earlier chat stays. The input and the wait are
     * kept, so a re-run while a reply is awaited breaks the alternation of `Valid`.
     */
    method InitChat(bookContent: string, bookTitle: string, clientReady: bool)
      requires Live()
      modifies this
      ensures Live()
      ensures clientReady ==>
        chat == Some(ChatHandle(ModelName, SystemInstruction(bookContent)))
        && messages == [Message(Model, Greeting(bookTitle))]
      ensures !clientReady ==> chat == old(chat) && messages == [Message(Model, ConnectionErrorText)]
      ensures currentMessage == old(currentMessage) && isLoading == old(isLoading)
      ensures !isLoading ==> Valid()
    {
      if clientReady {
        chat := Some(ChatHandle(ModelName, SystemInstruction(bookContent)));
        messages := [Message(Model, Greeting(bookTitle))];
      } else {
        messages := [Message(Model, ConnectionErrorText)];
      }
    }

    /** The input's `onChange`: the input is disabled while a reply is awaited and without a chat. */
    method EditInput(text: string)
      requires Live()
      modifies this
      ensures Live() && (old(Valid()) ==> Valid())
      ensures currentMessage == if !old(isLoading) && old(chat).Some? then text else old(currentMessage)
      ensures messages == old(messages) && isLoading == old(isLoading) && chat == old(chat)
    {
      if !isLoading && chat.Some? {
        currentMessage := text;
      }
    }

    /**
     * `handleSubmit` up to its `await`: a rejected submit changes nothing; an accepted one appends
     * the user's message, untrimmed, clears the input, starts waiting, and sends that same text.
     */
    method Submit() returns (request: Option<string>)
      requires Live()
      modifies this
      ensures Live() && (old(Valid()) ==> Valid())
      ensures chat == old(chat)
      ensures Accepts(old(currentMessage), old(isLoading), old(chat)) ==>
        && request == Some(old(currentMessage))
        && messages == old(messages) + [Message(User, old(currentMessage))]
        && currentMessage == "" && isLoading
      ensures !Accepts(old(currentMessage), old(isLoading), old(chat)) ==>
        && request == None
        && messages == old(messages) && currentMessage == old(currentMessage) && isLoading == old(isLoading)
    {
      if !Accepts(currentMessage, isLoading, chat) {
        return None;
      }
      request := SendUserMessage();
    }

    /** The accepted branch of `handleSubmit` before its `await`. */
    method SendUserMessage() returns (request: Option<string>)
      requires Live() && !isLoading && chat.Some?
      modifies this
      ensures Live() && (old(Valid()) ==> Valid())
      ensures chat == old(chat) && isLoading && currentMessage == ""
      ensures messages == old(messages) + [Message(User, old(currentMessage))]
      ensures request == Some(old(currentMessage))
    {
      var userMessage := Message(User, currentMessage);
      ghost var wasValid := Valid();
      if wasValid {
        AlternatingAppend(messages, userMessage);
      }
      messages := messages + [userMessage];
      currentMessage := "";
      isLoading := true;
      request := Some(userMessage.text);
    }

    /**
     * `handleSubmit` after its `await`: exactly one model message, the reply's text or the fixed
     * error text, is appended, and the wait ends (`finally`).
     */
    method Respond(reply: Reply)
      requires Live() && isLoading
      modifies this
      ensures Live() && (old(Valid()) ==> Valid())
      ensures messages == old(messages) + [ReplyMessage(reply)]
      ensures !isLoading && chat == old(chat) && currentMessage == old(currentMessage)
    {
      ghost var wasValid := Valid();
      if wasValid {
        AlternatingAppend(messages, ReplyMessage(reply));
      }
      messages := messages + [ReplyMessage(reply)];
      isLoading := false;
    }
  }

  /** A window on the first book whose user has asked a non-blank question and awaits the reply. */
  method AwaitingFirstReply(firstBook: string, firstTitle: string, question: string)
    returns (window: ChatWindow)
    requires JsStrings.Trim(question) != ""
    ensures fresh(window) && window.Live() && window.isLoading
  {
    window := new ChatWindow(firstBook, firstTitle, true);
    window.EditInput(question);
    assert Accepts(window.currentMessage, window.isLoading, window.chat);
    var request := window.Submit();
  }

  /** The second book's `initChat` on a window that awaits a reply, then that reply. */
  method RestartThenReply(window: ChatWindow, secondBook: string, secondTitle: string, replyText: string)
    returns (transcript: seq<Message>)
    requires window.Live() && window.isLoading
    modifies window
    ensures transcript == [Message(Model, Greeting(secondTitle)), Message(Model, replyText)]
  {
    window.InitChat(secondBook, secondTitle, true);
    window.Respond(Answered(replyText));
    transcript := window.messages;
  }

  /**
   * Another book arriving while a reply is awaited: `initChat` runs again on the live window,
   * the transcript restarts with the new greeting, and the reply to the earlier question then
   * lands right after it, so two model messages follow each other.
   */
  method NewBookWhileAwaitingReply(firstBook: string, firstTitle: string, question: string,
                                   secondBook: string, secondTitle: string, replyText: string)
    returns (transcript: seq<Message>)
    requires JsStrings.Trim(question) != ""
    ensures transcript == [Message(Model, Greeting(secondTitle)), Message(Model, replyText)]
    ensures !Alternating(transcript)
  {
    var window := AwaitingFirstReply(firstBook, firstTitle, question);
    transcript := RestartThenReply(window, secondBook, secondTitle, replyText);
    ModelTwiceBreaksAlternation(transcript, 0);
  }
}
