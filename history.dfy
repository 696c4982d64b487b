/** The chat session state of app.py: the history list (lines 60-61), `submit_chat` (85-94) and the newest-first view (104). */
module History {
  import opened Corpus
  import opened Responses

  /** One entry of `chat_history`: the `{user, bot, time}` dictionary. */
  datatype ChatRecord = ChatRecord(user: string, bot: string, time: string)

  /** What one call of `submit_chat` did. */
  datatype SubmitOutcome =
    | EmptyInput              // the input field was "", nothing happened
    | Recorded(reply: string) // one record was appended and the input cleared
    | ChoiceFailed            // random.choice raised on an empty responses list; nothing changed

  /** Python's `reversed(...)` over a list. */
  function Reverse<T>(s: seq<T>): (r: seq<T>)
    ensures |r| == |s|
  {
    if s == [] then [] else Reverse(s[1..]) + [s[0]]
  }

  /** The reversed view holds the k-th newest element at position k. */
  lemma {:induction false} ReverseAt<T>(s: seq<T>, k: nat)
    requires k < |s|
    ensures Reverse(s)[k] == s[|s| - 1 - k]
  {
    if k < |s| - 1 {
      ReverseAt(s[1..], k);
    }
  }

  /** Appending a record puts it at the front of the reversed view, in front of the old view. */
  lemma {:induction false} ReverseSnoc<T>(s: seq<T>, x: T)
    ensures Reverse(s + [x]) == [x] + Reverse(s)
  {
    if s != [] {
      assert (s + [x])[1..] == s[1..] + [x];
      ReverseSnoc(s[1..], x);
    }
  }

  /** Reversing twice gives back the stored order: the view loses and invents nothing. */
  lemma {:induction false} ReverseReverse<T>(s: seq<T>)
    ensures Reverse(Reverse(s)) == s
  {
    if s != [] {
      ReverseSnoc(Reverse(s[1..]), s[0]);
      ReverseReverse(s[1..]);
    }
  }

  /**
   * The session state one browser session keeps: the intents and the trained
   * classifier (fixed after start-up), the chat history (absent until first
   * initialised) and the text of the input field.
   */
  class ChatSession {
    const intents: seq<Intent>
    const predict: string -> string
    var chatHistory: Option<seq<ChatRecord>>
    var userInput: string

    constructor (intents: seq<Intent>, predict: string -> string)
      ensures this.intents == intents && this.predict == predict
      ensures chatHistory == None && userInput == ""
    {
      this.intents := intents;
      this.predict := predict;
      chatHistory := None;
      userInput := "";
    }

    /** Creates an empty history only when none exists yet, so running it again changes nothing. */
    method InitHistory()
      modifies this`chatHistory
      ensures old(chatHistory) == None ==> chatHistory == Some([])
      ensures old(chatHistory) != None ==> chatHistory == old(chatHistory)
      ensures chatHistory.Some?
    {
      if chatHistory == None {
        chatHistory := Some([]);
      }
    }

    /** The user types into the input field (the widget writes `user_input`). */
    method TypeInput(text: string)
      modifies this`userInput
      ensures userInput == text
    {
      userInput := text;
    }

    /**
     * The on-change callback of the input field. Any non-empty text, blank
     * or not, is answered and recorded with the given timestamp; `choice` is
     * the draw of `random.choice`.
     */
    method SubmitChat(choice: nat, timestamp: string) returns (outcome: SubmitOutcome)
      requires chatHistory.Some?
      modifies this`chatHistory, this`userInput
      ensures old(userInput) == "" ==>
        outcome == EmptyInput && chatHistory == old(chatHistory) && userInput == old(userInput)
      ensures old(userInput) != "" && SelectResponse(intents, predict(old(userInput)), choice).NoResponses? ==>
        outcome == ChoiceFailed && chatHistory == old(chatHistory) && userInput == old(userInput)
      ensures old(userInput) != "" && SelectResponse(intents, predict(old(userInput)), choice).Answer? ==>
        var reply := SelectResponse(intents, predict(old(userInput)), choice).text;
        outcome == Recorded(reply) &&
        chatHistory == Some(old(chatHistory).value + [ChatRecord(old(userInput), reply, timestamp)]) &&
        userInput == ""
      ensures chatHistory.Some? && old(chatHistory).value <= chatHistory.value
    {
      if userInput == "" {
        return EmptyInput;
      }
      var response := ChatbotResponse(intents, predict(userInput), choice);
      match response
      case NoResponses =>
        outcome := ChoiceFailed;
      case Answer(text) =>
        chatHistory := Some(chatHistory.value + [ChatRecord(userInput, text, timestamp)]);
        userInput := "";
        outcome := Recorded(text);
    }

    /** The "Conversation History" page's order: latest first, the exact reverse of the stored list. */
    function NewestFirst(): (view: seq<ChatRecord>)
      reads this
      requires chatHistory.Some?
      ensures |view| == |chatHistory.value|
      ensures forall k :: 0 <= k < |view| ==> view[k] == chatHistory.value[|view| - 1 - k]
    {
      var h := chatHistory.value;
      assert forall k :: 0 <= k < |h| ==> Reverse(h)[k] == h[|h| - 1 - k] by {
        forall k | 0 <= k < |h| {
          ReverseAt(h, k);
        }
      }
      Reverse(h)
    }
  }
}
