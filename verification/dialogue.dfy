/** `DialogueManager` of `chatbot/dialogue_manager.py`: the per-turn decision
    ladder (repetition check, typo correction, emotion detection, question
    routing, memory update, top-level containment) over a bounded FIFO
    memory of turns. The clock, the random choice, the collaborators and the
    CSV turn log are parameters, so one turn is a pure function from
    (manager, message, time, collaborator answers) to (reply, manager). */
module Dialogue {
  import opened Outcomes
  import opened Text
  import Nlp
  import Emotions
  import Responses

  /** The constructor's default arguments. */
  const DefaultMemoryLimit: nat := 5
  const DefaultExpiryMinutes: int := 10
  const DefaultEmotionThreshold: real := 0.1

  /** Timestamps and durations are integers in microseconds, the resolution
      of Python's `datetime`. */
  const MicrosPerMinute: int := 60_000_000

  const RepeatReply: string := "It seems like this is important to you. Let\U{2019}s explore it further."
  const IssueReply: string := "I'm sorry, I encountered an issue. Can you try again?"

  /** One remembered exchange. The source keeps no confidence here. */
  datatype Turn = Turn(message: string, emotion: string, response: string, time: int)

  /** One row of the per-user turn log CSV. */
  datatype LogRow = Header | Row(time: int, message: string, emotion: string, response: string)

  /** The manager's state. `emotionThreshold` is stored but never read. */
  datatype Manager = Manager(
    memoryCsv: string,
    memoryLimit: nat,
    memoryExpiry: int,
    emotionThreshold: real,
    memory: seq<Turn>,
    generator: Responses.Generator,
    log: seq<LogRow>)

  /** The bound the memory deque enforces. */
  predicate Valid(m: Manager) {
    |m.memory| <= m.memoryLimit
  }

  /** `DialogueManager.__init__`: a negative memory bound makes `deque`
      raise ValueError; otherwise the analyzer's construction failure
      escapes as RuntimeError; otherwise a missing stop-word corpus makes
      the NLP processor raise LookupError; otherwise the manager starts with
      empty memory and the log is (re)initialised to its header row, or left
      as it was when the file could not be opened. The response generator
      is built before the analyzer and never fails. */
  function NewManager(memoryCsv: string, memoryLimit: int, expiryMinutes: int, emotionThreshold: real,
                      generator: Responses.Generator, analyzerBuilt: bool, stopWords: Option<seq<string>>,
                      logOpened: bool, priorLog: seq<LogRow>): (r: Result<Manager>)
    ensures memoryLimit < 0 ==> r == Failure(ValueError)
    ensures memoryLimit >= 0 && !analyzerBuilt ==> r == Failure(RuntimeError)
    ensures memoryLimit >= 0 && analyzerBuilt && stopWords.None? ==> r == Failure(LookupError)
    ensures r.Success? <==> memoryLimit >= 0 && analyzerBuilt && stopWords.Some?
    ensures r.Success? ==>
      && Valid(r.value)
      && r.value.memory == []
      && r.value.memoryLimit == memoryLimit
      && r.value.memoryExpiry == expiryMinutes * MicrosPerMinute
      && r.value.emotionThreshold == emotionThreshold
      && r.value.generator == generator
      && r.value.log == (if logOpened then [Header] else priorLog)
  {
    if memoryLimit < 0 then Failure(ValueError)
    else match Emotions.NewAnalyzer(Emotions.DefaultModel, analyzerBuilt)
      case Failure(e) => Failure(e)
      case Success(_) =>
        match Nlp.NewProcessor(stopWords)
        case Failure(e) => Failure(e)
        case Success(_) =>
          Success(Manager(memoryCsv, memoryLimit, expiryMinutes * MicrosPerMinute, emotionThreshold, [],
                          generator, if logOpened then [Header] else priorLog))
  }

  /** With its default arguments the manager remembers 5 turns for 10
      minutes, and stores the threshold 0.1. */
  lemma DefaultManager(memoryCsv: string, generator: Responses.Generator, stopWords: seq<string>,
                        logOpened: bool, priorLog: seq<LogRow>)
    ensures var r := NewManager(memoryCsv, DefaultMemoryLimit, DefaultExpiryMinutes, DefaultEmotionThreshold,
                                generator, true, Some(stopWords), logOpened, priorLog);
      && r.Success?
      && r.value.memoryLimit == 5
      && r.value.memoryExpiry == 600_000_000
      && r.value.emotionThreshold == 0.1
  {
  }

  // ---------------------------------------------------------------------------
  // The bounded memory.

  /** The last `n` elements of `s` (all of them if there are fewer). */
  function Keep(s: seq<Turn>, n: nat): (r: seq<Turn>)
    ensures |r| == if |s| <= n then |s| else n
  {
    if |s| <= n then s else s[|s| - n..]
  }

  /** `deque(maxlen=limit).append(t)`: `t` goes at the end and, when the
      deque is full, the oldest entry is dropped. */
  function Record(memory: seq<Turn>, limit: nat, t: Turn): (r: seq<Turn>)
    ensures |r| <= limit
    ensures limit > 0 ==> |r| > 0 && r[|r| - 1] == t
    ensures |memory| < limit ==> r == memory + [t]
    ensures |memory| == limit > 0 ==> r == memory[1..] + [t]
    ensures limit == 0 ==> r == []
  {
    Keep(memory + [t], limit)
  }

  /** Recording turns one at a time. */
  function RecordAll(memory: seq<Turn>, limit: nat, ts: seq<Turn>): seq<Turn>
    decreases |ts|
  {
    if ts == [] then memory
    else RecordAll(Record(memory, limit, ts[0]), limit, ts[1..])
  }

  /** The FIFO bound: recording a series of turns into a valid memory keeps
      the last `limit` of all turns, old and new, in their original order. */
  lemma {:induction false} RecordAllKeepsNewest(memory: seq<Turn>, limit: nat, ts: seq<Turn>)
    requires |memory| <= limit
    ensures RecordAll(memory, limit, ts) == Keep(memory + ts, limit)
    decreases |ts|
  {
    if ts != [] {
      var next := Record(memory, limit, ts[0]);
      RecordAllKeepsNewest(next, limit, ts[1..]);
      KeepKeep(memory + [ts[0]], ts[1..], limit);
      assert memory + [ts[0]] + ts[1..] == memory + ts;
    }
  }

  /** Trimming before appending more does not change what is finally kept. */
  lemma KeepKeep(s: seq<Turn>, more: seq<Turn>, n: nat)
    ensures Keep(Keep(s, n) + more, n) == Keep(s + more, n)
  {
    if |s| > n {
      var k := Keep(s, n);
      assert (s + more)[|s + more| - n..] == (k + more)[|k + more| - n..] by {
        if |more| >= n {
          assert (s + more)[|s + more| - n..] == more[|more| - n..];
          assert (k + more)[|k + more| - n..] == more[|more| - n..];
        } else {
          assert (s + more)[|s + more| - n..] == s[|s| - (n - |more|)..] + more;
          assert (k + more)[|k + more| - n..] == k[|k| - (n - |more|)..] + more;
        }
      }
    }
  }

  /** The FIFO bound: after `limit + k` turns (k >= 1)
      into an empty memory, exactly `limit` remain, the last ones submitted. */
  lemma FifoBound(limit: nat, ts: seq<Turn>)
    requires |ts| > limit
    ensures RecordAll([], limit, ts) == ts[|ts| - limit..]
  {
    RecordAllKeepsNewest([], limit, ts);
    assert [] + ts == ts;
  }

  /** `DialogueManager.get_memory_context`: the last response when memory is
      non-empty and the last turn is strictly younger than the expiry. */
  function GetMemoryContext(m: Manager, now: int): (r: Option<string>)
    ensures r.Some? <==> |m.memory| > 0 && now - m.memory[|m.memory| - 1].time < m.memoryExpiry
    ensures r.Some? ==> r.value == m.memory[|m.memory| - 1].response
  {
    if |m.memory| > 0 then
      var last := m.memory[|m.memory| - 1];
      if now - last.time < m.memoryExpiry then Some(last.response) else None
    else None
  }

  /** Freshness only decays: once the context has expired it stays expired
      at every later time, and a fresh context was fresh all along. */
  lemma ContextExpiryMonotone(m: Manager, now: int, later: int)
    requires now <= later
    ensures GetMemoryContext(m, now).None? ==> GetMemoryContext(m, later).None?
    ensures GetMemoryContext(m, later).Some? ==> GetMemoryContext(m, now) == GetMemoryContext(m, later)
  {
  }

  /** `DialogueManager.update_memory`: record the turn in memory; append its
      row to the log when the write succeeds. A failed write changes nothing
      else. */
  function UpdateMemory(m: Manager, message: string, emotion: string, response: string,
                        now: int, logWritten: bool): (r: Manager)
    ensures r.memory == Record(m.memory, m.memoryLimit, Turn(message, emotion, response, now))
    ensures r.log == if logWritten then m.log + [Row(now, message, emotion, response)] else m.log
    ensures r.(memory := m.memory, log := m.log) == m
  {
    m.(memory := Record(m.memory, m.memoryLimit, Turn(message, emotion, response, now)),
       log := if logWritten then m.log + [Row(now, message, emotion, response)] else m.log)
  }

  // ---------------------------------------------------------------------------
  // One turn.

  /** `DialogueManager.detect_emotions`: the analyzer's answer, or neutral
      with zero confidence when it failed; it never fails itself. */
  function DetectEmotions(analysis: Result<(string, real)>): (r: (string, real))
    ensures analysis.Failure? ==> r == (Emotions.Neutral, 0.0)
    ensures analysis.Success? ==> r == analysis.value
  {
    match analysis
    case Success(v) => v
    case Failure(_) => (Emotions.Neutral, 0.0)
  }

  /** What the collaborators answer during one turn: the spelling library
      and the classifier pipeline and the search provider as functions of
      their input, the random pick, and whether the log write succeeded. */
  datatype Collaborators = Collaborators(
    correct: string -> Nlp.CorrectOutcome,
    classify: string -> Emotions.PipelineOutcome,
    search: string -> Responses.HttpOutcome,
    pick: nat,
    logWritten: bool)

  /** The reply to one message and the manager afterwards. */
  datatype TurnResult = TurnResult(response: string, manager: Manager)

  /** The repetition test: memory is non-empty and its LAST message equals
      this one ignoring case. */
  predicate IsRepeat(memory: seq<Turn>, message: string) {
    |memory| > 0 && SameIgnoringCase(memory[|memory| - 1].message, message)
  }

  /** The text the turn works on after typo correction. */
  function Corrected(message: string, c: Collaborators): string {
    Nlp.CorrectTypos(message, c.correct(message))
  }

  /** The emotion the turn detects, on the corrected text. */
  function TurnEmotion(message: string, c: Collaborators): (string, real) {
    DetectEmotions(Emotions.Analyze(c.classify(Corrected(message, c))))
  }

  /** The reply the routing step produces, or the exception it raised:
      questions (judged on the original message) search the corrected
      text, everything else gets a canned reply for the detected emotion. */
  function Route(m: Manager, message: string, c: Collaborators): Result<string> {
    if Responses.IsQuestion(message) then
      Success(Responses.SearchOnline(c.search(Corrected(message, c))))
    else
      Responses.GetCsvResponse(m.generator.table, TurnEmotion(message, c).0, c.pick)
  }

  /** `DialogueManager.generate_response`. */
  function GenerateResponse(m: Manager, message: string, now: int, c: Collaborators): (r: TurnResult)
    ensures IsRepeat(m.memory, message) ==> r == TurnResult(RepeatReply, m)
    ensures !IsRepeat(m.memory, message) && Route(m, message, c).Failure? ==> r == TurnResult(IssueReply, m)
    ensures !IsRepeat(m.memory, message) && Route(m, message, c).Success? ==>
      && r.response == Route(m, message, c).value
      && r.manager.memory == Record(m.memory, m.memoryLimit,
                                    Turn(message, TurnEmotion(message, c).0, r.response, now))
    ensures Valid(m) ==> Valid(r.manager)
    ensures r.manager.(memory := m.memory, log := m.log) == m
  {
    if IsRepeat(m.memory, message) then TurnResult(RepeatReply, m)
    else
      var emotion := TurnEmotion(message, c).0;
      match Route(m, message, c)
      case Failure(_) => TurnResult(IssueReply, m)
      case Success(response) =>
        TurnResult(response, UpdateMemory(m, message, emotion, response, now, c.logWritten))
  }

  /** A repeat of the last message, in any case, gets the fixed reply and
      leaves the manager untouched: nothing is corrected, classified,
      searched or recorded. */
  lemma RepeatShortCircuits(m: Manager, message: string, now: int, c: Collaborators, c': Collaborators)
    requires |m.memory| > 0 && Lower(m.memory[|m.memory| - 1].message) == Lower(message)
    ensures GenerateResponse(m, message, now, c) == TurnResult(RepeatReply, m)
    ensures GenerateResponse(m, message, now, c) == GenerateResponse(m, message, now, c')
  {
  }

  /** Only the immediately preceding turn counts: a message that matches an
      older turn but not the last one is processed as a fresh turn, and on
      success it is recorded. */
  lemma OnlyLastTurnIsCompared(m: Manager, message: string, now: int, c: Collaborators, older: nat)
    requires older < |m.memory| - 1 && SameIgnoringCase(m.memory[older].message, message)
    requires !SameIgnoringCase(m.memory[|m.memory| - 1].message, message)
    requires m.memoryLimit > 0 && Route(m, message, c).Success?
    ensures var r := GenerateResponse(m, message, now, c);
      |r.manager.memory| > 0 && r.manager.memory[|r.manager.memory| - 1].message == message
  {
  }

  /** Question routing: a question (judged on the original text) is
      answered by searching the CORRECTED text and never by the table; any
      other message gets a canned reply for the detected emotion and is
      never searched. Emotion detection runs on both paths. */
  lemma QuestionRouting(m: Manager, message: string, now: int, c: Collaborators)
    requires !IsRepeat(m.memory, message) && m.memoryLimit > 0
    ensures var r := GenerateResponse(m, message, now, c);
      var corrected := Nlp.CorrectTypos(message, c.correct(message));
      var emotion := DetectEmotions(Emotions.Analyze(c.classify(corrected))).0;
      && (Responses.IsQuestion(message) ==>
            r.response == Responses.SearchOnline(c.search(corrected))
            && r.manager.memory[|r.manager.memory| - 1] == Turn(message, emotion, r.response, now))
      && (!Responses.IsQuestion(message) ==>
            r.response == IssueReply
            || (r.response in Responses.Candidates(m.generator.table, emotion)
                && r.manager.memory[|r.manager.memory| - 1] == Turn(message, emotion, r.response, now)))
  {
    var r := GenerateResponse(m, message, now, c);
    var emotion := TurnEmotion(message, c).0;
    var routed := Route(m, message, c);
    if routed.Success? {
      var mem := r.manager.memory;
      assert mem == Record(m.memory, m.memoryLimit, Turn(message, emotion, r.response, now));
      assert mem[|mem| - 1] == Turn(message, emotion, r.response, now);
      if !Responses.IsQuestion(message) {
        assert routed == Responses.GetCsvResponse(m.generator.table, emotion, c.pick);
      }
    } else {
      assert r.response == IssueReply;
    }
  }

  /** A classifier that raises never breaks the turn: unless the routing
      step itself raised, the turn is recorded with the neutral emotion. */
  lemma ClassifierFailureIsNeutral(m: Manager, message: string, now: int, c: Collaborators)
    requires !IsRepeat(m.memory, message) && m.memoryLimit > 0
    requires c.classify(Nlp.CorrectTypos(message, c.correct(message))).PipelineRaised?
    ensures var r := GenerateResponse(m, message, now, c);
      r == TurnResult(IssueReply, m)
      || r.manager.memory[|r.manager.memory| - 1].emotion == Emotions.Neutral
  {
  }

  /** A successful non-repeat turn appends exactly one entry, holding the
      ORIGINAL message, the detected emotion, the reply it returns, and the
      time; older entries keep their order and only the oldest can go. */
  lemma SuccessfulTurnAppendsOne(m: Manager, message: string, now: int, c: Collaborators)
    requires Valid(m) && m.memoryLimit > 0
    requires !IsRepeat(m.memory, message) && Route(m, message, c).Success?
    ensures var r := GenerateResponse(m, message, now, c);
      var mem := r.manager.memory;
      && |mem| == (if |m.memory| < m.memoryLimit then |m.memory| + 1 else m.memoryLimit)
      && mem[|mem| - 1] == Turn(message, TurnEmotion(message, c).0, r.response, now)
      && mem[..|mem| - 1] == m.memory[|m.memory| + 1 - |mem|..]
  {
    var r := GenerateResponse(m, message, now, c);
    var mem := r.manager.memory;
    if |m.memory| < m.memoryLimit {
      assert mem == m.memory + [mem[|mem| - 1]];
    } else {
      assert mem == m.memory[1..] + [mem[|mem| - 1]];
    }
  }

  /** Whether the log write succeeds changes neither the reply nor the
      memory. */
  lemma LogFailureIsInvisible(m: Manager, message: string, now: int, c: Collaborators)
    ensures var ok := GenerateResponse(m, message, now, c.(logWritten := true));
      var failed := GenerateResponse(m, message, now, c.(logWritten := false));
      ok.response == failed.response && ok.manager.memory == failed.manager.memory
      && failed.manager.log == m.log
  {
  }

  /** The turn fails over to the fixed apology only when the routing step
      raised, and then nothing is recorded; on a table built by the loader
      routing never raises. */
  lemma LoadedTableNeverApologises(m: Manager, message: string, now: int, c: Collaborators, csv: Responses.CsvOutcome)
    requires m.generator.table == Responses.LoadResponses(csv)
    ensures Route(m, message, c).Success?
  {
    Responses.CannedLookupOnLoadedTable(csv, TurnEmotion(message, c).0, c.pick);
  }

  /** A freshly constructed manager holds the table its generator loaded,
      so its first turn never reaches the apology through routing. */
  lemma NewManagerNeverApologises(memoryCsv: string, memoryLimit: int, expiryMinutes: int, emotionThreshold: real,
                                  csv: Responses.CsvOutcome, modelLoaded: bool, stopWords: seq<string>, logOpened: bool,
                                  priorLog: seq<LogRow>, message: string, c: Collaborators)
    requires memoryLimit >= 0
    ensures var r := NewManager(memoryCsv, memoryLimit, expiryMinutes, emotionThreshold,
                                Responses.NewGenerator(csv, modelLoaded), true, Some(stopWords), logOpened, priorLog);
      r.Success? && Route(r.value, message, c).Success?
  {
    var r := NewManager(memoryCsv, memoryLimit, expiryMinutes, emotionThreshold,
                        Responses.NewGenerator(csv, modelLoaded), true, Some(stopWords), logOpened, priorLog);
    LoadedTableNeverApologises(r.value, message, 0, c, csv);
  }
}
