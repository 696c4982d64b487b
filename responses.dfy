/** Response selection for a predicted tag: `chatbot_response` in app.py, lines 44-50. */
module Responses {
  import opened Corpus

  datatype Option<T> = None | Some(value: T)

  /** The reply given when no intent carries the predicted tag. */
  const Fallback: string := "I'm not sure how to respond to that."

  /**
   * The outcome of one lookup: a reply text, or the IndexError that
   * `random.choice` raises when the matched intent has no responses.
   */
  datatype Reply = Answer(text: string) | NoResponses

  /** Index of the first intent whose tag is `tag`, if there is one. */
  function FirstMatch(intents: seq<Intent>, tag: string): (r: Option<nat>)
    ensures r.Some? ==>
      r.value < |intents| && intents[r.value].tag == tag &&
      forall j :: 0 <= j < r.value ==> intents[j].tag != tag
    ensures r.None? ==> forall j :: 0 <= j < |intents| ==> intents[j].tag != tag
  {
    if intents == [] then None
    else if intents[0].tag == tag then Some(0)
    else match FirstMatch(intents[1..], tag)
      case None => None
      case Some(k) => Some(k + 1)
  }

  /** The first matching intent is unique: any intent with the tag and no earlier match is the one found. */
  lemma FirstMatchIs(intents: seq<Intent>, tag: string, j: nat)
    requires j < |intents| && intents[j].tag == tag
    requires forall i :: 0 <= i < j ==> intents[i].tag != tag
    ensures FirstMatch(intents, tag) == Some(j)
  {
  }

  /** `random.choice(responses)`, with the generator's draw given as `choice`. */
  function Choose(responses: seq<string>, choice: nat): (r: Reply)
    ensures r.NoResponses? <==> responses == []
    ensures r.Answer? ==> r.text in responses
  {
    if responses == [] then NoResponses else Answer(responses[choice % |responses|])
  }

  /** What `chatbot_response` returns once the classifier has predicted `tag`. */
  function SelectResponse(intents: seq<Intent>, tag: string, choice: nat): (r: Reply)
    ensures r.NoResponses? ==>
      exists j :: 0 <= j < |intents| && intents[j].tag == tag && intents[j].responses == []
    ensures r.Answer? ==>
      r.text == Fallback || exists j :: 0 <= j < |intents| && intents[j].tag == tag && r.text in intents[j].responses
  {
    match FirstMatch(intents, tag)
    case None => Answer(Fallback)
    case Some(j) => Choose(intents[j].responses, choice)
  }

  /** The linear scan with early return over the intents list. */
  method ChatbotResponse(intents: seq<Intent>, predictedTag: string, choice: nat) returns (r: Reply)
    ensures r == SelectResponse(intents, predictedTag, choice)
  {
    var i := 0;
    while i < |intents|
      invariant i <= |intents|
      invariant forall j :: 0 <= j < i ==> intents[j].tag != predictedTag
    {
      if intents[i].tag == predictedTag {
        FirstMatchIs(intents, predictedTag, i);
        r := Choose(intents[i].responses, choice);
        return;
      }
      i := i + 1;
    }
    r := Answer(Fallback);
  }

  /** A known tag is answered from the responses of the first intent carrying it, or fails if that list is empty. */
  lemma KnownTagAnswered(intents: seq<Intent>, tag: string, choice: nat, j: nat)
    requires j < |intents| && intents[j].tag == tag
    requires forall i :: 0 <= i < j ==> intents[i].tag != tag
    ensures intents[j].responses == [] ==> SelectResponse(intents, tag, choice) == NoResponses
    ensures intents[j].responses != [] ==>
      SelectResponse(intents, tag, choice).Answer? &&
      SelectResponse(intents, tag, choice).text in intents[j].responses
  {
    FirstMatchIs(intents, tag, j);
  }

  /** An unknown tag gets exactly the fallback text. */
  lemma UnknownTagFallback(intents: seq<Intent>, tag: string, choice: nat)
    requires forall j :: 0 <= j < |intents| ==> intents[j].tag != tag
    ensures SelectResponse(intents, tag, choice) == Answer(Fallback)
  {
  }

  /** Once an intent with the tag occurs in `a`, intents after it (duplicates included) are never consulted. */
  lemma LaterIntentsIgnored(a: seq<Intent>, b: seq<Intent>, tag: string, choice: nat)
    requires exists j :: 0 <= j < |a| && a[j].tag == tag
    ensures SelectResponse(a + b, tag, choice) == SelectResponse(a, tag, choice)
  {
    var m := FirstMatch(a, tag);
    assert m.Some?;
    FirstMatchIs(a + b, tag, m.value);
  }

  /** Every response of the matched intent can be produced by some draw of the generator. */
  lemma EveryResponseReachable(intents: seq<Intent>, tag: string, j: nat, i: nat)
    requires FirstMatch(intents, tag) == Some(j)
    requires i < |intents[j].responses|
    ensures SelectResponse(intents, tag, i) == Answer(intents[j].responses[i])
  {
  }
}
