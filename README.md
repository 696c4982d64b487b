# Intent chatbot: training data, response selection and chat history

A Dafny model of the data handling in `app.py` of a small Streamlit intent
chatbot. The chatbot reads a list of intents. Each intent has a `tag`, example
`patterns` and canned `responses`. It trains a classifier on the
(pattern, tag) pairs, answers each user message with a random response of the
predicted intent, and keeps a per-session chat history.

Three modules, one per concern:

- `Corpus` (`corpus.dfy`): the `Intent` record and the flattening loop.
  The loop turns the intents into the two parallel training lists `patterns`
  and `tags`. It is an imperative method (`FlattenTrainingData`) proved
  against the specification functions `TrainingPatterns` and `TrainingTags`.
  Lemmas relate those functions to the intents: their lengths, their in-order
  concatenation, and the pairing of each pattern with its intent's tag.
- `Responses` (`responses.dfy`): `chatbot_response` with the predicted tag
  as an input. `ChatbotResponse` is the linear scan with early return. It is
  proved equal to the specification `SelectResponse`, which takes the first
  intent with the tag (`FirstMatch`) and draws one of its responses
  (`Choose`). With no matching tag it returns the fixed fallback text.
  `random.choice` is modelled by the draw `choice: nat`: the pick is
  `responses[choice % |responses|]`, and `EveryResponseReachable` shows that
  every response can be drawn. On an empty response list, `random.choice`
  raises `IndexError`; the model returns `NoResponses` for that case.
- `History` (`history.dfy`): the session state as a class `ChatSession`.
  The history is `None` until it is first initialised. `SubmitChat` appends
  one `{user, bot, time}` record and clears the input field. The
  "Conversation History" page shows the list newest first (`NewestFirst`).
  The classifier is the session's uninterpreted function `predict` from text
  to tag. The timestamp is a parameter of `SubmitChat`.

Behaviour of the code that the model keeps as written:

- The input guard of `submit_chat` (`app.py:86`) tests only Python
  truthiness. Empty input `""` is ignored silently: no error is raised and
  nothing changes. Whitespace-only input such as `"   "` is answered and
  recorded like any other text.
- Nothing checks that tags are distinct. A duplicate tag is shadowed by its
  first occurrence (`LaterIntentsIgnored`).
- Nothing checks that pattern lists are non-empty. An intent without patterns
  contributes no training pair (`PatternlessIntentIgnored`).
- Nothing checks that response lists are non-empty. A matched intent without
  responses makes `random.choice` raise, and `SubmitChat` then records
  nothing and keeps the input (`ChoiceFailed`).
- The code has no tie-break rule of its own between equally likely tags. That
  choice happens inside the classifier, which is outside this model.

## Model

| member | source | states |
|---|---|---|
| `Corpus.FlattenTrainingData` | app.py:28-32 | the loop yields `patterns` equal to `TrainingPatterns(intents)` and `tags` equal to `TrainingTags(intents)`; both lists have the same length, the total number of patterns |
| `Corpus.TrainingPatterns` | app.py:30-32 | the training patterns number exactly the sum of the intents' pattern counts |
| `Corpus.TrainingTags` | app.py:31 | the tag list has one entry per pattern, so it has the same length as the pattern list |
| `Corpus.Repeat` | app.py:31 | `[tag] * n` has length n and holds `tag` at every position |
| `Corpus.PatternCountBounds` | app.py:30-32 | the total `PatternCount` is at least the pattern count of every single intent |
| `Corpus.PatternCountZero` | app.py:30-32 | the total `PatternCount`, and so each training list, is empty exactly when no intent has a pattern |
| `Corpus.PatternCountAppend` | app.py:30-32 | the pattern total of a concatenation of intent lists is the sum of the two totals |
| `Corpus.TrainingPatternsAppend` | app.py:30-32 | flattening a concatenation of intent lists concatenates their pattern lists in order |
| `Corpus.TrainingTagsAppend` | app.py:31 | flattening a concatenation of intent lists concatenates their tag lists in order |
| `Corpus.PatternlessIntentIgnored` | app.py:30-32 | an intent with no patterns adds nothing to either training list, wherever it stands |
| `Corpus.Owner` | app.py:30-32 | every training position k falls inside the pattern block of an intent j: the patterns of intents before j end at or before k, and intent j's block contains k |
| `Corpus.PrefixMono` | app.py:30-32 | pattern blocks are laid out in intent order: the block of intent i ends at or before the start of the block of any later intent j |
| `Corpus.OwnerUnique` | app.py:30-32 | any intent whose pattern block contains position k is `Owner(k)`, so each training position belongs to exactly one intent |
| `Corpus.TrainingPairAt` | app.py:31-32 | pattern m of intent j is at position (patterns of earlier intents) + m of `patterns`, and `tags` holds intent j's tag at the same position |
| `Corpus.TagOfTrainingPattern` | app.py:31-32 | for every position k, `patterns[k]` is a pattern of intent `Owner(k)` and `tags[k]` is that intent's tag |
| `Responses.FirstMatch` | app.py:47-48 | the result is the index of an intent with the tag, and no earlier intent has it; with no result, no intent has the tag |
| `Responses.FirstMatchIs` | app.py:47-48 | an intent with the tag, with no earlier intent carrying it, is the one the scan stops at |
| `Responses.SelectResponse` | app.py:47-50 | the reply of `chatbot_response` is the fallback text or a response of an intent carrying the tag; a failed choice happens only when some intent with the tag has no responses |
| `Responses.Choose` | app.py:49 | `random.choice` fails exactly on an empty list, and otherwise returns an element of it |
| `Responses.ChatbotResponse` | app.py:44-50 | the scan with early return gives exactly `SelectResponse`: a response of the first intent with the predicted tag, or the fallback |
| `Responses.KnownTagAnswered` | app.py:47-49 | if intent j is the first with the tag, the reply is an element of j's responses; if j has no responses, the choice fails |
| `Responses.UnknownTagFallback` | app.py:50 | if no intent has the tag, the reply is exactly "I'm not sure how to respond to that." |
| `Responses.LaterIntentsIgnored` | app.py:47-49 | once some intent in `a` has the tag, appending intents `b` (duplicate tags included) does not change the reply |
| `Responses.EveryResponseReachable` | app.py:49 | each response of the matched intent is the reply for some draw of the generator |
| `History.ChatSession.constructor` | app.py:59-61 | a new session has no history yet and an empty input field |
| `History.ChatSession.InitHistory` | app.py:60-61 | an empty history is created only when none exists; an existing history is kept, so repeating the step is idempotent |
| `History.ChatSession.TypeInput` | app.py:77-82 | the input widget sets `user_input` to the typed text and touches nothing else |
| `History.ChatSession.SubmitChat` | app.py:85-94 | empty input changes nothing; any other input (blank or not) appends exactly one record (input, reply, timestamp) after the unchanged earlier records and clears the input; a failed choice changes nothing |
| `History.ChatSession.NewestFirst` | app.py:104 | the view has the history's length, and position k holds the k-th newest record |
| `History.Reverse` | app.py:104 | `reversed` keeps the length of the history; `ReverseAt` and `ReverseReverse` give its contents |
| `History.ReverseAt` | app.py:104 | the reversed list holds `s[|s|-1-k]` at position k |
| `History.ReverseSnoc` | app.py:90-92 | after a record is appended, the newest-first view is that record followed by the previous view |
| `History.ReverseReverse` | app.py:104 | reversing the view restores the stored order, so the view loses and adds nothing |

## Left out

- Loading and parsing `intents.json` and reporting errors through `st.error` and `st.stop` (app.py:15-25): file I/O and a foreign JSON parser. The intents list is an input.
- The SSL context override and `nltk.download` (app.py:12-13): network side effects.
- The `TfidfVectorizer` and `LogisticRegression` fitting and prediction (app.py:35-41, 45-46): a foreign library with floating-point numerics. The prediction is the uninterpreted function `predict` from text to tag.
- `datetime.now().strftime` (app.py:88): the clock. The timestamp is an opaque string parameter.
- The generator behind `random.choice` (app.py:49): only the draw `choice` is modelled, as `choice % len(responses)`.
- Streamlit rendering, the sidebar menu, the forward-order history display on the Home page and the `st.session_state` wiring of the callback (app.py:53-58, 62-75, 96-118). The session state is the plain fields of `ChatSession`.
- History.ChatSession.SubmitChat: requires the history to exist. In the code the callback is only bound after `main` has initialised the history in the same run.
