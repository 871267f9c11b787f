/** `ResponseGenerator` of `chatbot/response_generator.py`: the
    emotion-to-responses table, canned-response choice, question test, the
    search-result policy and top-two emotion selection. The CSV reader, the
    web search and the emotion model are collaborators whose answers are
    parameters. */
module Responses {
  import opened Outcomes
  import opened Text
  import opened Emotions

  const DefaultResponse: string := "I'm here to listen."
  const NoSnippet: string := "No relevant snippet found."
  const NoInformation: string := "I couldn't find any relevant information online."
  const SearchErrorReply: string := "I'm sorry, I encountered an error while searching. Please try again later."
  const ListeningReply: string := "I'm here to listen. Can you tell me more?"

  // ---------------------------------------------------------------------------
  // The response table: an insertion-ordered dict from emotion to responses.

  datatype Entry = Entry(emotion: string, responses: seq<string>)
  type Table = seq<Entry>

  /** The keys of a table, in insertion order. */
  function Keys(t: Table): (ks: seq<string>)
    ensures |ks| == |t|
  {
    if t == [] then [] else [t[0].emotion] + Keys(t[1..])
  }

  /** `table.get(key)`: the list stored under exactly `key`, if any. */
  function Lookup(t: Table, key: string): (r: Option<seq<string>>)
    ensures r.None? <==> key !in Keys(t)
  {
    if t == [] then None
    else if t[0].emotion == key then Some(t[0].responses)
    else Lookup(t[1..], key)
  }

  /** A found list is the list of some entry of the table. */
  lemma {:induction false} LookupFindsEntry(t: Table, key: string)
    requires key in Keys(t)
    ensures exists i :: 0 <= i < |t| && t[i] == Entry(key, Lookup(t, key).value)
  {
    if t[0].emotion != key {
      LookupFindsEntry(t[1..], key);
      var i :| 0 <= i < |t[1..]| && t[1..][i] == Entry(key, Lookup(t[1..], key).value);
      assert t[i + 1] == t[1..][i];
    } else {
      assert t[0] == Entry(key, Lookup(t, key).value);
    }
  }

  /** `table.setdefault(key, []).append(value)`. */
  function SetDefaultAppend(t: Table, key: string, value: string): (r: Table)
    ensures |r| == if key in Keys(t) then |t| else |t| + 1
  {
    if t == [] then [Entry(key, [value])]
    else if t[0].emotion == key then [Entry(key, t[0].responses + [value])] + t[1..]
    else [t[0]] + SetDefaultAppend(t[1..], key, value)
  }

  /** `setdefault().append()` extends the list under its key and no other. */
  lemma {:induction false} SetDefaultAppendLookup(t: Table, key: string, value: string, k: string)
    ensures Lookup(SetDefaultAppend(t, key, value), k) ==
      if k == key then Some(ListOr(Lookup(t, key)) + [value]) else Lookup(t, k)
  {
    var r := SetDefaultAppend(t, key, value);
    if t == [] {
      assert r == [Entry(key, [value])] && r[1..] == [];
      assert ListOr(Lookup(t, key)) + [value] == [value];
    } else if t[0].emotion == key {
      assert r[1..] == t[1..];
    } else {
      assert r[1..] == SetDefaultAppend(t[1..], key, value);
      SetDefaultAppendLookup(t[1..], key, value, k);
    }
  }

  /** `setdefault().append()` adds a new key at the end, and only a new one. */
  lemma {:induction false} SetDefaultAppendKeys(t: Table, key: string, value: string)
    ensures Keys(SetDefaultAppend(t, key, value)) == if key in Keys(t) then Keys(t) else Keys(t) + [key]
  {
    if t != [] && t[0].emotion != key {
      SetDefaultAppendKeys(t[1..], key, value);
    }
  }

  /** The list an optional lookup found, or the empty list. */
  function ListOr(o: Option<seq<string>>): seq<string> {
    match o
    case Some(l) => l
    case None => []
  }

  // ---------------------------------------------------------------------------
  // Loading the table from CSV rows.

  /** One CSV row: the `emotion` and `response` cells, as pandas read them. */
  datatype Row = Row(emotion: Value, response: Value)

  /** What reading the CSV produced: a failure (missing file, bad format,
      missing column) or its rows. */
  datatype CsvOutcome = Unreadable | Rows(rows: seq<Row>)

  /** Rows whose cells are all strings; any other cell makes `.strip()` raise. */
  predicate Textual(rows: seq<Row>) {
    forall i :: 0 <= i < |rows| ==> rows[i].emotion.Str? && rows[i].response.Str?
  }

  /** The key a row is filed under: its emotion stripped and lowered. */
  function KeyOf(row: Row): string
    requires row.emotion.Str?
  {
    Normalized(row.emotion.s)
  }

  /** The response a row contributes: stripped. */
  function ValueOf(row: Row): string
    requires row.response.Str?
  {
    Strip(row.response.s)
  }

  /** The (key, response) pair of every row, in row order. */
  function Pairs(rows: seq<Row>): (ps: seq<(string, string)>)
    requires Textual(rows)
    ensures |ps| == |rows|
    ensures forall i :: 0 <= i < |rows| ==> ps[i] == (KeyOf(rows[i]), ValueOf(rows[i]))
  {
    seq(|rows|, i requires 0 <= i < |rows| => (KeyOf(rows[i]), ValueOf(rows[i])))
  }

  /** The table the load loop builds, one `setdefault().append()` per pair. */
  function Group(ps: seq<(string, string)>): Table {
    if ps == [] then []
    else
      var last := ps[|ps| - 1];
      SetDefaultAppend(Group(ps[..|ps| - 1]), last.0, last.1)
  }

  /** Reference definition: the responses filed under `key`, in row order. */
  function Column(ps: seq<(string, string)>, key: string): seq<string> {
    if ps == [] then []
    else
      var last := ps[|ps| - 1];
      Column(ps[..|ps| - 1], key) + (if last.0 == key then [last.1] else [])
  }

  /** Reference definition: the keys with repeats dropped, each kept at its
      first occurrence. */
  function FirstOccurrences(ks: seq<string>): seq<string> {
    if ks == [] then []
    else
      var prefix := FirstOccurrences(ks[..|ks| - 1]);
      if ks[|ks| - 1] in ks[..|ks| - 1] then prefix else prefix + [ks[|ks| - 1]]
  }

  /** The key of every pair, in order. */
  function PairKeys(ps: seq<(string, string)>): (ks: seq<string>)
    ensures |ks| == |ps|
    ensures forall i :: 0 <= i < |ps| ==> ks[i] == ps[i].0
  {
    seq(|ps|, i requires 0 <= i < |ps| => ps[i].0)
  }

  /** `ResponseGenerator.load_responses`: the grouped table, or the empty
      table when reading failed or any cell was not a string. */
  function LoadResponses(csv: CsvOutcome): (t: Table)
    ensures csv.Unreadable? ==> t == []
    ensures csv.Rows? && !Textual(csv.rows) ==> t == []
    ensures csv.Rows? && Textual(csv.rows) ==> t == Group(Pairs(csv.rows))
  {
    match csv
    case Unreadable => []
    case Rows(rows) => if Textual(rows) then Group(Pairs(rows)) else []
  }

  /** Every grouped list is exactly the column of its key: the responses of
      the pairs with that key, in order; a key no pair has is absent. */
  lemma {:induction false} GroupedColumns(ps: seq<(string, string)>, key: string)
    ensures Lookup(Group(ps), key) == if Column(ps, key) == [] then None else Some(Column(ps, key))
  {
    if ps != [] {
      var prefix := ps[..|ps| - 1];
      var last := ps[|ps| - 1];
      assert Group(ps) == SetDefaultAppend(Group(prefix), last.0, last.1);
      assert Column(ps, key) == Column(prefix, key) + (if last.0 == key then [last.1] else []);
      GroupedColumns(prefix, key);
      SetDefaultAppendLookup(Group(prefix), last.0, last.1, key);
      if last.0 == key {
        assert ListOr(Lookup(Group(prefix), key)) == Column(prefix, key);
        assert Column(ps, key) == Column(prefix, key) + [last.1];
      } else {
        assert Column(ps, key) == Column(prefix, key);
      }
    }
  }

  /** The grouped keys are the pair keys in order of first appearance. */
  lemma {:induction false} GroupedKeys(ps: seq<(string, string)>)
    ensures Keys(Group(ps)) == FirstOccurrences(PairKeys(ps))
  {
    if ps != [] {
      var prefix := ps[..|ps| - 1];
      var last := ps[|ps| - 1];
      GroupedKeys(prefix);
      assert PairKeys(ps)[..|ps| - 1] == PairKeys(prefix);
      FirstOccurrencesMembers(PairKeys(prefix));
      SetDefaultAppendKeys(Group(prefix), last.0, last.1);
    }
  }

  /** Dropping repeats keeps exactly the same members. */
  lemma {:induction false} FirstOccurrencesMembers(ks: seq<string>)
    ensures forall k :: k in FirstOccurrences(ks) <==> k in ks
  {
    if ks != [] {
      var prefix := ks[..|ks| - 1];
      FirstOccurrencesMembers(prefix);
      assert ks == prefix + [ks[|ks| - 1]];
    }
  }

  /** Dropping repeats leaves no repeats. */
  lemma {:induction false} FirstOccurrencesDistinct(ks: seq<string>)
    ensures forall i, j :: 0 <= i < j < |FirstOccurrences(ks)| ==> FirstOccurrences(ks)[i] != FirstOccurrences(ks)[j]
  {
    if ks != [] {
      var prefix := ks[..|ks| - 1];
      FirstOccurrencesDistinct(prefix);
      FirstOccurrencesMembers(prefix);
    }
  }

  /** A column is non-empty exactly when some pair has its key. */
  lemma {:induction false} ColumnNonEmptyIff(ps: seq<(string, string)>, key: string)
    ensures Column(ps, key) != [] <==> key in PairKeys(ps)
  {
    if ps != [] {
      var prefix := ps[..|ps| - 1];
      ColumnNonEmptyIff(prefix, key);
      assert PairKeys(ps) == PairKeys(prefix) + [ps[|ps| - 1].0];
    }
  }

  /** What `load_responses` promises of the rows it accepts: under each key
      it keeps the stripped responses of exactly the rows whose stripped,
      lowered emotion is that key, in row order, and never an empty list;
      keys come in order of first appearance. */
  lemma LoadedTable(rows: seq<Row>, key: string)
    requires Textual(rows)
    ensures var t := LoadResponses(Rows(rows));
      && Keys(t) == FirstOccurrences(PairKeys(Pairs(rows)))
      && (Lookup(t, key).Some? <==> exists i :: 0 <= i < |rows| && KeyOf(rows[i]) == key)
      && (Lookup(t, key).Some? ==> Lookup(t, key).value == Column(Pairs(rows), key) != [])
  {
    var ps := Pairs(rows);
    GroupedKeys(ps);
    GroupedColumns(ps, key);
    ColumnNonEmptyIff(ps, key);
    RowKeyFiled(rows, key);
  }

  /** A key is among the pair keys exactly when some row is filed under it. */
  lemma RowKeyFiled(rows: seq<Row>, key: string)
    requires Textual(rows)
    ensures key in PairKeys(Pairs(rows)) <==> exists i :: 0 <= i < |rows| && KeyOf(rows[i]) == key
  {
    var ks := PairKeys(Pairs(rows));
    if key in ks {
      var i :| 0 <= i < |ks| && ks[i] == key;
      assert KeyOf(rows[i]) == key;
    }
    if exists i :: 0 <= i < |rows| && KeyOf(rows[i]) == key {
      var i :| 0 <= i < |rows| && KeyOf(rows[i]) == key;
      assert ks[i] == key;
    }
  }

  /** Every key of a loaded table is in normal form, no key occurs twice,
      and every list is non-empty. */
  lemma LoadedTableWellFormed(csv: CsvOutcome)
    ensures WellFormed(LoadResponses(csv))
  {
    var t := LoadResponses(csv);
    if csv.Rows? && Textual(csv.rows) {
      var ps := Pairs(csv.rows);
      GroupedKeys(ps);
      FirstOccurrencesDistinct(PairKeys(ps));
      FirstOccurrencesMembers(PairKeys(ps));
      forall i | 0 <= i < |t| ensures t[i].responses != [] && t[i].emotion == Normalized(t[i].emotion) {
        var key := t[i].emotion;
        KeysAt(t, i);
        GroupedColumns(ps, key);
        ColumnNonEmptyIff(ps, key);
        var j :| 0 <= j < |ps| && PairKeys(ps)[j] == key;
        NormalizedKey(csv.rows[j].emotion.s);
        LookupFirst(t, i);
      }
    }
  }

  /** The normal form of a table key. */
  function Normalized(s: string): string {
    Lower(Strip(s))
  }

  /** A table as `load_responses` can build it: normalized keys, no empty list. */
  predicate WellFormed(t: Table) {
    && (forall i :: 0 <= i < |t| ==> t[i].responses != [] && t[i].emotion == Normalized(t[i].emotion))
    && Distinct(Keys(t))
  }

  predicate Distinct(ks: seq<string>) {
    forall i, j :: 0 <= i < j < |ks| ==> ks[i] != ks[j]
  }

  /** The i-th key is the emotion of the i-th entry. */
  lemma {:induction false} KeysAt(t: Table, i: int)
    requires 0 <= i < |t|
    ensures Keys(t)[i] == t[i].emotion
  {
    if i > 0 {
      KeysAt(t[1..], i - 1);
    }
  }

  /** With distinct keys, looking up an entry's key finds that entry. */
  lemma {:induction false} LookupFirst(t: Table, i: int)
    requires 0 <= i < |t| && Distinct(Keys(t))
    ensures Lookup(t, t[i].emotion) == Some(t[i].responses)
  {
    if i > 0 {
      KeysAt(t, 0);
      KeysAt(t, i);
      assert Keys(t[1..]) == Keys(t)[1..];
      LookupFirst(t[1..], i - 1);
    }
  }

  /** Normalizing a normalized key changes nothing. */
  lemma NormalizedKey(s: string)
    ensures Normalized(Normalized(s)) == Normalized(s)
  {
    var st := Strip(s);
    var l := Lower(st);
    if l != [] {
      LowerKeepsSpaces(st, 0);
      LowerKeepsSpaces(st, |st| - 1);
    }
    StripOfTrimmed(l);
    LowerIsLower(st);
  }

  // ---------------------------------------------------------------------------
  // Canned responses.

  /** `random.choice(xs)` where the random index is `pick % |xs|`: an
      IndexError on the empty list, some element otherwise. */
  function Choose(xs: seq<string>, pick: nat): (r: Result<string>)
    ensures xs == [] <==> r.Failure?
    ensures r.Failure? ==> r.error == IndexError
    ensures r.Success? ==> r.value in xs
  {
    if xs == [] then Failure(IndexError) else Success(xs[pick % |xs|])
  }

  /** Every element of a non-empty list is some pick's choice. */
  lemma EveryElementChoosable(xs: seq<string>, i: nat)
    requires i < |xs|
    ensures Choose(xs, i) == Success(xs[i])
  {
  }

  /** `responses.get(emotion, [default])`: the list a canned reply is drawn from. */
  function Candidates(t: Table, emotion: string): seq<string> {
    match Lookup(t, emotion)
    case Some(candidates) => candidates
    case None => [DefaultResponse]
  }

  /** `ResponseGenerator.get_csv_response`: a random element of the list
      stored under exactly `emotion` (no case folding), or the default reply
      when there is no such key. */
  function GetCsvResponse(t: Table, emotion: string, pick: nat): (r: Result<string>)
    ensures emotion !in Keys(t) ==> r == Success(DefaultResponse)
    ensures emotion in Keys(t) ==> r == Choose(Lookup(t, emotion).value, pick)
    ensures r.Success? && emotion in Keys(t) ==> r.value in Lookup(t, emotion).value
    ensures r.Failure? ==> Lookup(t, emotion) == Some([]) && r.error == IndexError
    ensures r.Success? ==> r.value in Candidates(t, emotion)
  {
    Choose(Candidates(t, emotion), pick)
  }

  /** On a loaded table a canned lookup never fails, and a label that is not
      already in normal form (upper case, surrounding blanks) is never found:
      it always gets the default reply. */
  lemma CannedLookupOnLoadedTable(csv: CsvOutcome, emotion: string, pick: nat)
    ensures GetCsvResponse(LoadResponses(csv), emotion, pick).Success?
    ensures Normalized(emotion) != emotion ==>
      GetCsvResponse(LoadResponses(csv), emotion, pick) == Success(DefaultResponse)
  {
    var t := LoadResponses(csv);
    LoadedTableWellFormed(csv);
    if emotion in Keys(t) {
      LookupFindsEntry(t, emotion);
    }
  }

  // ---------------------------------------------------------------------------
  // Questions and web search.

  /** `is_question`: the stripped text ends with a question mark. */
  predicate IsQuestion(text: string) {
    StrippedEndsWith(text, '?')
  }

  /** A text is a question exactly when it has a '?' followed by nothing but
      whitespace. */
  lemma QuestionIff(text: string)
    ensures IsQuestion(text) <==> exists i :: LastVisibleAt(text, '?', i)
  {
    StrippedEndsWithIff(text, '?');
  }

  /** The `answer_box` object of a search response. */
  datatype AnswerBox = AnswerBox(answer: Option<string>)
  /** One element of `organic_results`. */
  datatype OrganicResult = OrganicResult(snippet: Option<string>)
  /** The parts of the search provider's JSON the policy inspects. */
  datatype SearchData = SearchData(answerBox: Option<AnswerBox>, organicResults: Option<seq<OrganicResult>>)

  /** What the HTTP request produced: a transport failure, or a status and
      a body that parsed as JSON (`Some`) or did not (`None`). */
  datatype HttpOutcome = RequestFailed | Responded(status: int, body: Option<SearchData>)

  /** `raise_for_status` raises on 4xx client and 5xx server errors. */
  predicate StatusRaises(status: int) {
    400 <= status < 600
  }

  /** The provider answered and its body was readable. */
  predicate Answered(outcome: HttpOutcome) {
    outcome.Responded? && !StatusRaises(outcome.status) && outcome.body.Some?
  }

  /** `ResponseGenerator.search_online`: the answer-box answer, else the
      first organic snippet (or a fixed text when it has none), else a fixed
      "nothing found" text; every failure gives the fixed error text. */
  function SearchOnline(outcome: HttpOutcome): (r: string)
    ensures !Answered(outcome) ==> r == SearchErrorReply
    ensures Answered(outcome) ==>
      var data := outcome.body.value;
      if data.answerBox.Some? && data.answerBox.value.answer.Some? then r == data.answerBox.value.answer.value
      else if data.organicResults.Some? && |data.organicResults.value| > 0 then
        r == (match data.organicResults.value[0].snippet case Some(s) => s case None => NoSnippet)
      else r == NoInformation
  {
    match outcome
    case RequestFailed => SearchErrorReply
    case Responded(status, body) =>
      if StatusRaises(status) then SearchErrorReply
      else match body
        case None => SearchErrorReply
        case Some(data) =>
          match data.answerBox
          case Some(AnswerBox(Some(answer))) => answer
          case _ =>
            match data.organicResults
            case Some(results) =>
              if |results| > 0 then
                match results[0].snippet
                case Some(s) => s
                case None => NoSnippet
              else NoInformation
            case None => NoInformation
  }

  /** The search reply always comes from the provider's answer or snippet,
      or is one of the three fixed texts; and an answer box with an answer
      wins whatever organic results accompany it. */
  lemma SearchReplyOrigin(outcome: HttpOutcome, other: Option<seq<OrganicResult>>)
    ensures var r := SearchOnline(outcome);
      r in {SearchErrorReply, NoSnippet, NoInformation}
      || (Answered(outcome) && outcome.body.value.answerBox.Some? && outcome.body.value.answerBox.value.answer == Some(r))
      || (Answered(outcome) && outcome.body.value.organicResults.Some?
          && |outcome.body.value.organicResults.value| > 0
          && outcome.body.value.organicResults.value[0].snippet == Some(r))
    ensures Answered(outcome) && outcome.body.value.answerBox.Some? && outcome.body.value.answerBox.value.answer.Some? ==>
      SearchOnline(Responded(outcome.status, Some(outcome.body.value.(organicResults := other)))) == SearchOnline(outcome)
  {
  }

  // ---------------------------------------------------------------------------
  // Top-two emotions.

  /** What the multi-label emotion model returned for a text: raised, or one
      list of scored labels per input (the code reads the first). */
  datatype ScoresOutcome = ScoringRaised | Scored(perText: seq<seq<Prediction>>)

  /** Scores never increase along the sequence. */
  predicate NonIncreasing(s: seq<Prediction>) {
    forall i, j :: 0 <= i < j < |s| ==> s[i].score >= s[j].score
  }

  /** The predictions of `s` scoring exactly `v`, in their order in `s`. */
  function WithScore(s: seq<Prediction>, v: real): seq<Prediction> {
    if s == [] then [] else (if s[0].score == v then [s[0]] else []) + WithScore(s[1..], v)
  }

  /** Filtering a sequence with a known head. */
  lemma WithScoreCons(h: Prediction, t: seq<Prediction>)
    ensures forall v :: WithScore([h] + t, v) == (if h.score == v then [h] else []) + WithScore(t, v)
  {
    assert ([h] + t)[1..] == t;
  }

  /** Inserts `x` before the first element scoring no more than it, so that
      `x` stays ahead of equal-scoring elements that followed it: score by
      score, the result orders its elements as `[x] + s` does. */
  function InsertByScore(x: Prediction, s: seq<Prediction>): (r: seq<Prediction>)
    requires NonIncreasing(s)
    ensures NonIncreasing(r)
    ensures multiset(r) == multiset(s) + multiset{x}
    ensures |r| == |s| + 1
    ensures s == [] || x.score >= s[0].score ==> r[0] == x
    ensures s != [] && x.score < s[0].score ==> r[0] == s[0]
    ensures forall v :: WithScore(r, v) == WithScore([x] + s, v)
  {
    if s == [] || x.score >= s[0].score then
      ConsNonIncreasing(x, s);
      [x] + s
    else
      TailNonIncreasing(s);
      var rest := InsertByScore(x, s[1..]);
      KeepHead(x, s, rest);
      [s[0]] + rest
  }

  /** Putting back a head that outscores the inserted element: the facts
      about an insertion into the tail carry over to the whole. */
  lemma KeepHead(x: Prediction, s: seq<Prediction>, rest: seq<Prediction>)
    requires NonIncreasing(s) && s != [] && x.score < s[0].score
    requires NonIncreasing(rest) && rest != [] && s[0].score >= rest[0].score
    requires multiset(rest) == multiset(s[1..]) + multiset{x}
    requires forall v :: WithScore(rest, v) == WithScore([x] + s[1..], v)
    ensures NonIncreasing([s[0]] + rest)
    ensures multiset([s[0]] + rest) == multiset(s) + multiset{x}
    ensures forall v :: WithScore([s[0]] + rest, v) == WithScore([x] + s, v)
  {
    ConsNonIncreasing(s[0], rest);
    ConsMultiset(x, s, rest);
    PassHigherScore(x, s, rest);
  }

  /** Putting the head back restores the multiset. */
  lemma ConsMultiset(x: Prediction, s: seq<Prediction>, rest: seq<Prediction>)
    requires s != [] && multiset(rest) == multiset(s[1..]) + multiset{x}
    ensures multiset([s[0]] + rest) == multiset(s) + multiset{x}
  {
    assert s == [s[0]] + s[1..];
  }

  /** Passing a head that scores strictly more changes no score's order. */
  lemma PassHigherScore(x: Prediction, s: seq<Prediction>, rest: seq<Prediction>)
    requires s != [] && s[0].score > x.score
    requires forall v :: WithScore(rest, v) == WithScore([x] + s[1..], v)
    ensures forall v :: WithScore([s[0]] + rest, v) == WithScore([x] + s, v)
  {
    forall v ensures WithScore([s[0]] + rest, v) == WithScore([x] + s, v) {
      var hv := if s[0].score == v then [s[0]] else [];
      var xv := if x.score == v then [x] else [];
      calc {
        WithScore([s[0]] + rest, v);
        == { WithScoreConsAt(s[0], rest, v); }
        hv + WithScore([x] + s[1..], v);
        == { WithScoreConsAt(x, s[1..], v); }
        hv + (xv + WithScore(s[1..], v));
        == { SwapEmpty(hv, xv, WithScore(s[1..], v)); }
        xv + (hv + WithScore(s[1..], v));
        == xv + WithScore(s, v);
        == { WithScoreConsAt(x, s, v); }
        WithScore([x] + s, v);
      }
    }
  }

  /** Filtering a sequence with a known head, for one score. */
  lemma WithScoreConsAt(h: Prediction, t: seq<Prediction>, v: real)
    ensures WithScore([h] + t, v) == (if h.score == v then [h] else []) + WithScore(t, v)
  {
    assert ([h] + t)[1..] == t;
  }

  /** Two prefixes of which one is empty can be swapped. */
  lemma SwapEmpty(a: seq<Prediction>, b: seq<Prediction>, c: seq<Prediction>)
    requires a == [] || b == []
    ensures a + (b + c) == b + (a + c)
  {
    if a == [] {
      assert a + (b + c) == b + c == b + (a + c);
    } else {
      assert a + (b + c) == a + c == b + (a + c);
    }
  }

  /** `r` is `s` with `x` placed at index `k`, behind exactly the elements
      that score strictly more than `x`. */
  predicate PlacedAt(r: seq<Prediction>, s: seq<Prediction>, x: Prediction, k: int) {
    && 0 <= k <= |s|
    && r == s[..k] + [x] + s[k..]
    && (forall i :: 0 <= i < k ==> s[i].score > x.score)
    && (forall i :: k <= i < |s| ==> s[i].score <= x.score)
  }

  /** Where the insertion lands: `x` passes exactly the elements that score
      strictly more than it, so it goes ahead of every equal score. */
  lemma {:induction false} InsertByScoreSplits(x: Prediction, s: seq<Prediction>)
    requires NonIncreasing(s)
    ensures exists k :: PlacedAt(InsertByScore(x, s), s, x, k)
  {
    if s == [] || x.score >= s[0].score {
      assert PlacedAt(InsertByScore(x, s), s, x, 0);
    } else {
      TailNonIncreasing(s);
      var t := s[1..];
      var rest := InsertByScore(x, t);
      assert InsertByScore(x, s) == [s[0]] + rest;
      InsertByScoreSplits(x, t);
      var k :| PlacedAt(rest, t, x, k);
      PlacedBehindHead(s, x, rest, k);
    }
  }

  /** A placement in the tail, behind a higher head, is a placement in the whole. */
  lemma PlacedBehindHead(s: seq<Prediction>, x: Prediction, rest: seq<Prediction>, k: int)
    requires s != [] && s[0].score > x.score && PlacedAt(rest, s[1..], x, k)
    ensures PlacedAt([s[0]] + rest, s, x, k + 1)
  {
    var t := s[1..];
    assert s[..k + 1] == [s[0]] + t[..k];
    assert s[k + 1..] == t[k..];
    forall i | 1 <= i < |s| ensures s[i] == t[i - 1] {
    }
  }

  /** Dropping the head keeps a sequence descending. */
  lemma TailNonIncreasing(s: seq<Prediction>)
    requires NonIncreasing(s) && s != []
    ensures NonIncreasing(s[1..])
  {
    assert forall i :: 0 <= i < |s| - 1 ==> s[1..][i] == s[i + 1];
  }

  /** A head no lower than the next score keeps a descending sequence descending. */
  lemma ConsNonIncreasing(h: Prediction, s: seq<Prediction>)
    requires NonIncreasing(s) && (s == [] || h.score >= s[0].score)
    ensures NonIncreasing([h] + s)
  {
    var r := [h] + s;
    forall i, j | 0 <= i < j < |r| ensures r[i].score >= r[j].score {
      assert r[j] == s[j - 1];
      if i > 0 {
        assert r[i] == s[i - 1];
      }
    }
  }

  /** `sorted(predictions, key=score, reverse=True)`: a stable sort by
      descending score. */
  function SortByScore(s: seq<Prediction>): (r: seq<Prediction>)
    ensures NonIncreasing(r)
    ensures multiset(r) == multiset(s)
    ensures |r| == |s|
    ensures forall v :: WithScore(r, v) == WithScore(s, v)
  {
    if s == [] then []
    else
      assert s == [s[0]] + s[1..];
      var sorted := SortByScore(s[1..]);
      WithScoreCons(s[0], sorted);
      WithScoreCons(s[0], s[1..]);
      InsertByScore(s[0], sorted)
  }

  /** `s[i]` scores highest in `s`, and strictly higher than everything
      before it: the first of the best. */
  predicate FirstBest(s: seq<Prediction>, i: int) {
    && 0 <= i < |s|
    && (forall j :: 0 <= j < |s| ==> s[j].score <= s[i].score)
    && (forall j :: 0 <= j < i ==> s[j].score < s[i].score)
  }

  /** The sort is stable at the top: its head is the earliest of the
      highest-scoring predictions. */
  lemma {:induction false} SortHeadIsFirstBest(s: seq<Prediction>)
    requires s != []
    ensures exists i :: FirstBest(s, i) && SortByScore(s)[0] == s[i]
  {
    var tail := SortByScore(s[1..]);
    assert SortByScore(s) == InsertByScore(s[0], tail);
    if s[1..] == [] {
      assert FirstBest(s, 0);
    } else {
      SortHeadIsFirstBest(s[1..]);
      var k :| FirstBest(s[1..], k) && tail[0] == s[1..][k];
      if s[0].score >= tail[0].score {
        FirstBestExtendsHead(s, k);
      } else {
        FirstBestExtendsTail(s, k);
      }
    }
  }

  /** A head at least as good as the tail's best is the first best. */
  lemma FirstBestExtendsHead(s: seq<Prediction>, k: int)
    requires |s| > 1 && FirstBest(s[1..], k) && s[0].score >= s[1..][k].score
    ensures FirstBest(s, 0)
  {
    forall j | 1 <= j < |s| ensures s[j].score <= s[0].score {
      assert s[j] == s[1..][j - 1];
    }
  }

  /** Below a strictly better tail, the tail's first best stays first best. */
  lemma FirstBestExtendsTail(s: seq<Prediction>, k: int)
    requires |s| > 1 && FirstBest(s[1..], k) && s[0].score < s[1..][k].score
    ensures FirstBest(s, k + 1)
  {
    forall j | 1 <= j < |s| ensures s[j] == s[1..][j - 1] {
    }
  }

  /** `s` without its element at index `i`. */
  function Without(s: seq<Prediction>, i: int): (r: seq<Prediction>)
    requires 0 <= i < |s|
    ensures |r| == |s| - 1
  {
    s[..i] + s[i + 1..]
  }

  /** The sort takes out the first best and sorts what is left: a stable
      descending sort is selection of the first best, repeated. */
  lemma {:induction false} SortRemovesFirstBest(s: seq<Prediction>)
    requires s != []
    ensures exists i :: SelectsFirst(s, i)
  {
    var t := s[1..];
    if t == [] {
      assert SortByScore(s) == InsertByScore(s[0], []);
      assert SelectsFirst(s, 0);
    } else {
      SortRemovesFirstBest(t);
      var k :| SelectsFirst(t, k);
      if s[0].score >= t[k].score {
        SelectsHead(s, k);
      } else {
        SelectsFromTail(s, k);
      }
    }
  }

  /** `s[i]` is the first best and the sort of `s` is `s[i]` ahead of the
      sort of the rest. */
  predicate SelectsFirst(s: seq<Prediction>, i: int) {
    FirstBest(s, i) && SortByScore(s) == [s[i]] + SortByScore(Without(s, i))
  }

  /** A head at least as good as the tail's first best is selected first. */
  lemma SelectsHead(s: seq<Prediction>, k: int)
    requires |s| > 1 && SelectsFirst(s[1..], k) && s[0].score >= s[1..][k].score
    ensures SelectsFirst(s, 0)
  {
    SortUnfold(s);
    InsertAhead(s[0], SortByScore(s[1..]));
    FirstBestExtendsHead(s, k);
    assert Without(s, 0) == s[1..];
  }

  /** Below a strictly better tail, the tail's selection comes first, and the
      head is sorted into the rest. */
  lemma SelectsFromTail(s: seq<Prediction>, k: int)
    requires |s| > 1 && SelectsFirst(s[1..], k) && s[0].score < s[1..][k].score
    ensures SelectsFirst(s, k + 1)
  {
    var rest := Without(s[1..], k);
    var st := SortByScore(s[1..]);
    SortUnfold(s);
    InsertBehind(s[0], st);
    assert st[1..] == SortByScore(rest);
    FirstBestExtendsTail(s, k);
    WithoutBehindHead(s, k);
    SortUnfold([s[0]] + rest);
    assert ([s[0]] + rest)[1..] == rest;
  }

  /** One step of the sort. */
  lemma SortUnfold(s: seq<Prediction>)
    requires s != []
    ensures SortByScore(s) == InsertByScore(s[0], SortByScore(s[1..]))
  {
  }

  /** A head no lower than the first goes in front. */
  lemma InsertAhead(x: Prediction, s: seq<Prediction>)
    requires NonIncreasing(s) && (s == [] || x.score >= s[0].score)
    ensures InsertByScore(x, s) == [x] + s
  {
  }

  /** Below the first, insertion goes into the tail. */
  lemma InsertBehind(x: Prediction, s: seq<Prediction>)
    requires NonIncreasing(s) && s != [] && x.score < s[0].score
    ensures NonIncreasing(s[1..])
    ensures InsertByScore(x, s) == [s[0]] + InsertByScore(x, s[1..])
  {
    TailNonIncreasing(s);
  }

  /** Removing an element behind the head is removing it from the tail. */
  lemma WithoutBehindHead(s: seq<Prediction>, k: int)
    requires 0 <= k < |s| - 1
    ensures Without(s, k + 1) == [s[0]] + Without(s[1..], k)
  {
    assert s[..k + 1] == [s[0]] + s[1..][..k];
    assert s[k + 2..] == s[1..][k + 1..];
  }

  /** The first two of the sort: the first best, then the first best of the rest. */
  lemma SortLeadingPair(s: seq<Prediction>)
    requires |s| >= 2
    ensures exists i, j :: LeadingPair(s, i, j) && SortByScore(s)[..2] == [s[i], Without(s, i)[j]]
  {
    SortRemovesFirstBest(s);
    var i :| SelectsFirst(s, i);
    var rest := Without(s, i);
    SortHeadIsFirstBest(rest);
    var j :| FirstBest(rest, j) && SortByScore(rest)[0] == rest[j];
    FirstTwo(SortByScore(s), s[i], SortByScore(rest));
    assert LeadingPair(s, i, j);
  }

  /** The first two of a sequence with a known head. */
  lemma FirstTwo(a: seq<Prediction>, h: Prediction, t: seq<Prediction>)
    requires a == [h] + t && t != []
    ensures a[..2] == [h, t[0]]
  {
  }

  /** `s[i]` is the first best of `s`, and `j` indexes the first best once
      it is removed. */
  predicate LeadingPair(s: seq<Prediction>, i: int, j: int) {
    FirstBest(s, i) && FirstBest(Without(s, i), j)
  }

  /** The pair returned when the model is missing or fails. */
  const NeutralPair: Prediction := Prediction(Neutral, 0.0)

  /** `ResponseGenerator.detect_top_two_emotions`: the two best-scoring
      predictions in descending order (fewer if the model returned fewer),
      or two neutral pairs when there is no model or it failed. */
  function DetectTopTwoEmotions(hasModel: bool, outcome: ScoresOutcome): (r: seq<Prediction>)
    ensures |r| <= 2
    ensures NonIncreasing(r)
    ensures !hasModel || outcome.ScoringRaised? || (outcome.Scored? && outcome.perText == [])
      ==> r == [NeutralPair, NeutralPair]
    ensures hasModel && outcome.Scored? && outcome.perText != [] ==>
      var ps := outcome.perText[0];
      |r| == (if |ps| < 2 then |ps| else 2)
      && (forall i :: 0 <= i < |r| ==> r[i] in ps)
      && (forall i, j :: 0 <= i < |r| && 0 <= j < |ps| && ps[j] !in r ==> ps[j].score <= r[i].score)
      && (|ps| >= 2 ==> exists i, j :: LeadingPair(ps, i, j) && r == [ps[i], Without(ps, i)[j]])
  {
    if !hasModel then [NeutralPair, NeutralPair]
    else match outcome
      case ScoringRaised => [NeutralPair, NeutralPair]
      case Scored(perText) =>
        if perText == [] then [NeutralPair, NeutralPair]
        else
          var sorted := SortByScore(perText[0]);
          var top := if |sorted| < 2 then sorted else sorted[..2];
          TopOfSorted(perText[0], sorted, top);
          if |sorted| >= 2 then SortLeadingPair(perText[0]); top else top
  }

  /** The leading elements of a descending sort outrank everything left out. */
  lemma TopOfSorted(ps: seq<Prediction>, sorted: seq<Prediction>, top: seq<Prediction>)
    requires sorted == SortByScore(ps)
    requires top == if |sorted| < 2 then sorted else sorted[..2]
    ensures forall i :: 0 <= i < |top| ==> top[i] in ps
    ensures forall i, j :: 0 <= i < |top| && 0 <= j < |ps| && ps[j] !in top ==> ps[j].score <= top[i].score
  {
    SameMembers(ps, sorted);
    if |sorted| >= 2 {
      PrefixOutranks(sorted, top);
    }
  }

  /** In a descending sequence, the first two outrank the rest. */
  lemma PrefixOutranks(sorted: seq<Prediction>, top: seq<Prediction>)
    requires NonIncreasing(sorted) && |sorted| >= 2 && top == sorted[..2]
    ensures forall i, x :: 0 <= i < 2 && x in sorted && x !in top ==> x.score <= top[i].score
  {
    forall i, x | 0 <= i < 2 && x in sorted && x !in top ensures x.score <= top[i].score {
      var k :| 0 <= k < |sorted| && sorted[k] == x;
      assert top[0] == sorted[0] && top[1] == sorted[1];
      assert k >= 2;
    }
  }

  /** Sequences that are permutations of each other have the same members. */
  lemma SameMembers(a: seq<Prediction>, b: seq<Prediction>)
    requires multiset(a) == multiset(b)
    ensures forall x :: x in a <==> x in b
  {
    forall x ensures x in a <==> x in b {
      assert x in a <==> x in multiset(a);
    }
  }

  /** The selected emotion's head is the first-best prediction overall. */
  lemma TopTwoLeadIsFirstBest(outcome: ScoresOutcome)
    requires outcome.Scored? && outcome.perText != [] && outcome.perText[0] != []
    ensures exists i :: FirstBest(outcome.perText[0], i) && DetectTopTwoEmotions(true, outcome)[0] == outcome.perText[0][i]
  {
    SortHeadIsFirstBest(outcome.perText[0]);
  }

  // ---------------------------------------------------------------------------
  // The generator as a whole.

  /** A constructed `ResponseGenerator`: its table, and whether its emotion
      model loaded (a failure is logged and leaves the model `None`). */
  datatype Generator = Generator(table: Table, hasEmotionModel: bool)

  /** `ResponseGenerator.__init__`: never fails; the table is what the
      loader built from the CSV, and it is well formed. */
  function NewGenerator(csv: CsvOutcome, modelLoaded: bool): (g: Generator)
    ensures g.table == LoadResponses(csv)
    ensures WellFormed(g.table)
    ensures g.hasEmotionModel == modelLoaded
  {
    LoadedTableWellFormed(csv);
    Generator(LoadResponses(csv), modelLoaded)
  }

  /** The higher-confidence of two emotions; ties go to the first. */
  function SelectEmotion(first: Prediction, second: Prediction): (e: string)
    ensures e == first.name || e == second.name
    ensures first.score >= second.score ==> e == first.name
    ensures first.score < second.score ==> e == second.name
  {
    if first.score >= second.score then first.name else second.name
  }

  /** `ResponseGenerator.get_response`: questions go to search without any
      emotion detection; otherwise the canned reply for the more confident
      of the top two emotions, which, the pair being sorted, is always the
      first. */
  function GetResponse(g: Generator, message: string, search: string -> HttpOutcome,
                       scoring: string -> ScoresOutcome, pick: nat): (r: Result<string>)
    ensures IsQuestion(message) ==> r == Success(SearchOnline(search(message)))
    ensures !IsQuestion(message) ==>
      var top := DetectTopTwoEmotions(g.hasEmotionModel, scoring(message));
      if |top| < 2 then r == Success(ListeningReply)
      else r == GetCsvResponse(g.table, top[0].name, pick)
  {
    if IsQuestion(message) then Success(SearchOnline(search(message)))
    else
      var top := DetectTopTwoEmotions(g.hasEmotionModel, scoring(message));
      if |top| < 2 then Success(ListeningReply)
      else GetCsvResponse(g.table, SelectEmotion(top[0], top[1]), pick)
  }
}
