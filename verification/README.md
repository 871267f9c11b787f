# Emotion-aware chatbot core, modelled in Dafny

This project models the per-turn decision procedure of a mental-health
chatbot: a FastAPI `/chat` endpoint hands each user message to a
`DialogueManager`, which checks for a repeated message, corrects typos,
detects the emotion, and either searches the web (for a question) or picks a
canned reply for the emotion from a table loaded from CSV, and remembers the
exchange in a bounded, time-stamped FIFO memory. Within a turn, no
collaborator failure escapes as an exception. A failed correction keeps the
input, a failed classification gives the neutral emotion, and a failed
search or an empty candidate list gives a fixed reply. Constructing the
manager can fail: see `Dialogue.NewManager`.

The model is functional. One turn is a pure function
`Dialogue.GenerateResponse(manager, message, now, collaborators)` returning
the reply and the next manager. The collaborators are parameters:

- the spelling library, the classifier pipeline and the search provider are
  total functions from their input text to an outcome datatype;
- the clock is the integer `now`, in microseconds;
- `random.choice` is an index `pick`, reduced modulo the list length, so
  every element can be chosen and no other value can be returned;
- the success of the CSV turn-log write is a boolean;
- at construction, whether the emotion pipeline loaded is a boolean, and
  the NLTK stop-word corpus is an optional word list.

Modules follow the source files:

| module | file | models |
|---|---|---|
| `Outcomes` | (all) | exceptions as `Result`, optional values, dynamically typed values |
| `Text` | (all) | Python's `str.isspace`, `strip`, `lower`, and `endswith` on a stripped text |
| `Nlp` | `chatbot/nlp_processing.py` | construction, which needs the stop-word corpus, and `correct_typos` as an opaque corrector that falls back to its input |
| `Emotions` | `chatbot/emotions.py` | `EmotionAnalyzer`: construction, `analyze`, `analyze_batch` |
| `Responses` | `chatbot/response_generator.py` | table loading, canned choice, question test, search policy, top-two emotions, `get_response` |
| `Dialogue` | `chatbot/dialogue_manager.py` | construction, bounded memory, context lookup, emotion containment, the turn ladder |
| `Api` | `main.py` | the `/chat` handler's validation and dispatch |

On these points the model keeps the code's behaviour:

- `get_csv_response` looks the label up exactly as given, with no lowercasing.
- A `Turn` holds no confidence value.
- The repetition reply uses a typographic apostrophe (U+2019): "Let’s".
- A body that is not JSON makes `request.json()` raise an ordinary exception.
  The handler therefore answers 500, not 400.
- One manager, and so one memory, is shared by all requests.
- `EmotionAnalyzer.analyze` does not contain pipeline errors. Its handler
  uses `self.logger`, which the class never sets, so it fails with an
  AttributeError. `DialogueManager.detect_emotions` contains that failure.

## Model

| member | source | states |
|---|---|---|
| Nlp.NewProcessor | chatbot/nlp_processing.py:7-12 | construction fails with LookupError exactly when the stop-word corpus is missing, since a failed download does not raise; otherwise the stop words are exactly the corpus's words |
| Nlp.CorrectTypos | chatbot/nlp_processing.py:18-22 | the corrector never fails: a library exception gives back the input text unchanged |
| Emotions.NewAnalyzer | chatbot/emotions.py:5-10 | construction succeeds exactly when the pipeline was built, and a construction failure surfaces as RuntimeError |
| Emotions.Analyze | chatbot/emotions.py:12-20 | it fails (AttributeError) exactly when the pipeline raised; an empty prediction list gives ("neutral", 0.0); otherwise the first prediction's label, case-folded, with its score; the label is always lower case |
| Emotions.AnalyzeBatch | chatbot/emotions.py:23-33 | ValueError exactly when the input is not a list or has a non-string or blank element; a pipeline failure gives "neutral" once per input; otherwise one lower-case label per pipeline entry, "neutral" for an empty one |
| Emotions.BatchPreservesLength | chatbot/emotions.py:28-33 | on valid input, whenever the pipeline answers once per text or raises, the output has exactly one label per input text |
| Emotions.EmptyBatchIsValid | chatbot/emotions.py:25-26 | the empty list passes validation |
| Text.StripEmptyIff | main.py:40-42 | a message strips to nothing exactly when it is whitespace only, which is when the handler treats it as empty |
| Responses.SetDefaultAppendLookup | chatbot/response_generator.py:39 | `setdefault(k, []).append(v)` extends the list under `k` by `v` at the end and leaves every other key's list alone |
| Responses.SetDefaultAppendKeys | chatbot/response_generator.py:39 | a key already present keeps its position; a new key is added last |
| Responses.LoadResponses | chatbot/response_generator.py:30-43 | an unreadable file or a non-string cell gives the empty table; otherwise rows are grouped |
| Responses.GroupedColumns | chatbot/response_generator.py:35-40 | the grouped list under a key is exactly the responses of the rows with that key, in row order; a key no row has is absent |
| Responses.GroupedKeys | chatbot/response_generator.py:35-40 | the table's keys are the row keys in order of first appearance |
| Responses.LoadedTable | chatbot/response_generator.py:36-40 | a key is present exactly when some row's stripped, lowered emotion equals it; its list is the stripped responses of those rows, in order, and is non-empty |
| Responses.LoadedTableWellFormed | chatbot/response_generator.py:35-43 | every loaded table has stripped, lower-case, distinct keys and only non-empty lists |
| Responses.Choose | chatbot/response_generator.py:61 | `random.choice` fails with IndexError exactly on the empty list and otherwise returns an element of the list |
| Responses.EveryElementChoosable | chatbot/response_generator.py:61 | every element of the list is the choice for some random pick |
| Responses.GetCsvResponse | chatbot/response_generator.py:59-61 | a label that is not a key gives "I'm here to listen."; a key gives an element of its list; the only failure is an empty list under the key |
| Responses.CannedLookupOnLoadedTable | chatbot/response_generator.py:59-61 | on a loaded table the lookup never fails, and a label not already stripped and lower-cased always gets the default reply, as there is no case folding |
| Responses.QuestionIff | chatbot/response_generator.py:63-65 | a text is a question exactly when it contains a '?' followed only by whitespace; `dialogue_manager.py` lines 77 and 94-95 use the same test |
| Responses.SearchOnline | chatbot/response_generator.py:67-89 | a transport failure, a 4xx/5xx status or an unparsable body gives the fixed error text; otherwise the answer-box answer; else the first organic snippet, or the no-snippet text if it has none; else the nothing-found text |
| Responses.SearchReplyOrigin | chatbot/response_generator.py:81-86 | the reply is always the provider's answer, its first snippet, or one of the fixed texts; an answer box with an answer wins whatever organic results come with it |
| Responses.InsertByScore | chatbot/response_generator.py:52 | inserting into a descending list keeps it descending and adds exactly one element; among the elements of any one score, the new element comes first and the others keep their order |
| Responses.InsertByScoreSplits | chatbot/response_generator.py:52 | the new element lands at one index, behind exactly the elements scoring strictly more, and everything after it scores no more |
| Responses.SortByScore | chatbot/response_generator.py:52 | the sort is a permutation of the predictions in non-increasing score order, and it is stable: predictions with equal scores keep their input order |
| Responses.SortRemovesFirstBest | chatbot/response_generator.py:52 | the sort is the earliest highest-scoring prediction followed by the sort of all the others |
| Responses.SortLeadingPair | chatbot/response_generator.py:52-54 | the first two of the sort are the first best, then the first best of what remains |
| Responses.SortHeadIsFirstBest | chatbot/response_generator.py:52 | the sort is stable at the top: its head is the earliest of the highest-scoring predictions |
| Responses.DetectTopTwoEmotions | chatbot/response_generator.py:45-57 | two neutral pairs with no model, a failure, or no prediction list; otherwise at most two pairs, in non-increasing order, drawn from the predictions and outscoring every prediction left out; with two or more predictions, exactly the earliest best and then the earliest best of the rest, so ties go to the earlier prediction |
| Responses.TopTwoLeadIsFirstBest | chatbot/response_generator.py:52-54 | the leading pair is the first highest-scoring prediction |
| Responses.NewGenerator | chatbot/response_generator.py:9-28 | construction never fails; the table is exactly what the loader built from the CSV, so it is well formed; a model load failure leaves no model |
| Responses.SelectEmotion | chatbot/response_generator.py:105 | the more confident of two emotions; ties go to the first |
| Responses.GetResponse | chatbot/response_generator.py:91-109 | a question gets the search reply and no emotion detection; fewer than two emotions gives the fixed invitation; otherwise the canned reply for the leading emotion, which is always the one selected |
| Dialogue.NewManager | chatbot/dialogue_manager.py:12-39 | a negative memory bound raises ValueError; then an analyzer failure raises RuntimeError; then a missing stop-word corpus raises LookupError; it succeeds exactly when none of these happens, and then memory starts empty, the expiry is the minutes in microseconds, the threshold and the generator are kept as given, and the log is reset to its header |
| Dialogue.DefaultManager | chatbot/dialogue_manager.py:12-20 | with the default arguments the manager remembers 5 turns for 600,000,000 microseconds (10 minutes) and stores the threshold 0.1 |
| Dialogue.Record | chatbot/dialogue_manager.py:53 | a bounded deque append: never over the bound, the new turn last; below the bound nothing is dropped; at the bound only the oldest is dropped |
| Dialogue.RecordAllKeepsNewest | chatbot/dialogue_manager.py:18 | recording turns one by one keeps exactly the newest `limit` of all turns, in their original order |
| Dialogue.FifoBound | chatbot/dialogue_manager.py:18 | after `limit + k` turns into an empty memory, exactly the last `limit` submitted remain |
| Dialogue.GetMemoryContext | chatbot/dialogue_manager.py:103-109 | the last response exactly when memory is non-empty and the last turn is strictly younger than the expiry; otherwise none |
| Dialogue.ContextExpiryMonotone | chatbot/dialogue_manager.py:107 | once expired, the context stays expired at every later time |
| Dialogue.UpdateMemory | chatbot/dialogue_manager.py:50-60 | the turn is recorded in memory; its row is logged only if the write succeeded; nothing else changes |
| Dialogue.DetectEmotions | chatbot/dialogue_manager.py:41-48 | an analyzer failure becomes ("neutral", 0.0) and never propagates |
| Dialogue.GenerateResponse | chatbot/dialogue_manager.py:62-92 | a repeat gets the fixed reply with the manager unchanged; a failed routing step gets the fixed apology with the manager unchanged; otherwise the reply is recorded in memory with the original message; the memory bound and every other field are preserved |
| Dialogue.RepeatShortCircuits | chatbot/dialogue_manager.py:67-68 | a case-insensitive repeat of the last message gets the fixed reply, leaves the manager unchanged, and does not depend on any collaborator |
| Dialogue.OnlyLastTurnIsCompared | chatbot/dialogue_manager.py:67 | a message that matches an older turn but not the last one is processed and recorded as a fresh turn |
| Dialogue.QuestionRouting | chatbot/dialogue_manager.py:73-87 | a question gets the search reply for the corrected text; any other message gets a canned reply for the detected emotion, or the apology; either way the detected emotion is recorded |
| Dialogue.ClassifierFailureIsNeutral | chatbot/dialogue_manager.py:41-48 | when the classifier raises, the turn still completes and records the neutral emotion, unless the routing step itself raised |
| Dialogue.SuccessfulTurnAppendsOne | chatbot/dialogue_manager.py:86-89 | a successful turn appends exactly one entry: the original message, the emotion, the returned reply and `now`; earlier entries keep their order and only the oldest can be dropped |
| Dialogue.LogFailureIsInvisible | chatbot/dialogue_manager.py:55-60 | a failed log write changes neither the reply nor the memory |
| Dialogue.LoadedTableNeverApologises | chatbot/dialogue_manager.py:80-92 | with a table built by the loader the routing step never raises, so the apology path is unreachable |
| Dialogue.NewManagerNeverApologises | chatbot/dialogue_manager.py:22 | a manager built around a freshly constructed generator holds the loaded table, so its routing step never raises |
| Api.Classify | main.py:36-44 | a non-object body or a missing "message" is a bad request; a blank string message is empty; a non-string message or unparsable body is an internal error; otherwise the stripped, non-blank message is delegated |
| Api.Chat | main.py:28-66 | 400 with the fixed detail for a bad request; the fixed invitation for a blank message; 500 with the fixed detail for any other failure; only a delegated message reaches the manager; no other status occurs |
| Api.MessageIsStripped | main.py:40 | whitespace around the message never changes the answer or the manager |
| Api.RecordedMessagesAreStripped | main.py:40-50 | a turn recorded through the endpoint holds a stripped, non-blank message |

## Left out

- The emotion models, TextBlob and the SerpAPI request are not modelled. Their answers are parameters of the model.
- The CSV files are not modelled. The response table arrives as already-read rows or a read failure. A missing column is counted as a read failure.
- Logging and `print` are not modelled. They have no effect on replies or state.
- `datetime.now()` is not modelled. Both timestamp reads are the parameter `now`.
- `random.choice` is not modelled as random. It is the index `pick % len`.
- Confidence scores are `real`, not floating point.
- Text.Lower: case-folds only the ASCII and Latin-1 letters. Python's `str.lower` covers all of Unicode, including case mappings that change the length.
- The `GET /` liveness endpoint is left out. It returns a constant and touches no state.
- FastAPI's async request parsing is left out. The parsed body is the `Body` parameter.
- Concurrent requests are not modelled. They share one manager without locking, and a turn is modelled as atomic.
- `NLPProcessor.preprocess`, `chatbot/train_model.py`, `testing.py`, `interactive_chat.py`, `config.py`, `utils/logger.py` and `test_chatbot.py` are left out. They are model training, demos, console I/O and configuration, outside the turn pipeline.
- Dialogue.NewManager: the memory bound is an integer, so `memory_limit=None` is not modelled. Python would give an unbounded deque. `timedelta`'s OverflowError is not modelled either: it needs more than 999,999,999 days of expiry, and the model's integers are unbounded.
- `memory_expiry_minutes` is taken as a whole number of minutes. Python would also accept a fractional value.
- The `emotion_threshold` setting is stored in `Dialogue.Manager` and never read, as in the source.
- Exceptions inside `generate_response` are modelled only where they can arise from the modelled logic: `random.choice` on an empty list. Every other collaborator call contains its own failures.
