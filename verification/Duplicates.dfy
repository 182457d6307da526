/** The duplicate-answer check before an import, internal/content/duplicates.go, against what the
    import then writes. */
module Duplicates {
  import opened Wrappers
  import opened Grading
  import opened QuestionImport

  /** What makes two answers the same answer. */
  datatype AnswerKey = AnswerKey(topic: string, band: Band, answer: string)

  datatype Question = Question(id: int, topic: string, rating: int, prompt: string, answer: string, retired: bool)

  /** Imported questions by external id. */
  type Library = map<string, Question>

  datatype Incoming = Incoming(externalId: string, topic: string, rating: int, prompt: string, answer: string)

  /** `existing` is the question already holding the answer, if it is not in the payload itself. */
  datatype Duplicate = Duplicate(of: Incoming, existing: Option<int>)

  function KeyFor(lx: Lexicon, topic: string, band: Band, answer: string): AnswerKey {
    AnswerKey(topic, band, lx.normalize(answer))
  }

  /** Ratings in the library have a band. */
  predicate ValidLibrary(lib: Library) {
    forall e :: e in lib ==> BandForRating(lib[e].rating).Some?
  }

  function KeyOf(lx: Lexicon, q: Question): Option<AnswerKey> {
    match BandForRating(q.rating)
    case None => None
    case Some(band) => Some(KeyFor(lx, q.topic, band, q.answer))
  }

  function IncomingKey(lx: Lexicon, q: Incoming): Option<AnswerKey> {
    match BandForRating(q.rating)
    case None => None
    case Some(band) => Some(KeyFor(lx, q.topic, band, q.answer))
  }

  /** Two questions are the same answer when their topics, their bands and the normalized forms of
      their answers are. */
  predicate SameAnswer(lx: Lexicon, topic: string, rating: int, answer: string, topic': string, rating': int,
                       answer': string)
  {
    topic == topic' && BandForRating(rating) == BandForRating(rating') && lx.normalize(answer) == lx.normalize(answer')
  }

  // ----- The check -----

  datatype Row = Row(externalId: string, question: Question)

  predicate MentionsTopic(payload: seq<Incoming>, topic: string) {
    exists i :: 0 <= i < |payload| && payload[i].topic == topic
  }

  /** The questions of the payload's topics that are not retired, in any order. */
  ghost predicate IsQueried(lib: Library, payload: seq<Incoming>, rows: seq<Row>) {
    && (forall i :: 0 <= i < |rows| ==> rows[i].externalId in lib && rows[i].question == lib[rows[i].externalId])
    && (forall e :: e in lib && !lib[e].retired && MentionsTopic(payload, lib[e].topic) ==> Row(e, lib[e]) in rows)
    && (forall i :: 0 <= i < |rows| ==> !rows[i].question.retired && MentionsTopic(payload, rows[i].question.topic))
  }

  /** The last of the first `n` rows to hold the key. */
  function Holder(lx: Lexicon, rows: seq<Row>, n: nat, key: AnswerKey): Option<Row>
    requires n <= |rows|
  {
    if n == 0 then None
    else if KeyOf(lx, rows[n - 1].question) == Some(key) then Some(rows[n - 1])
    else Holder(lx, rows, n - 1, key)
  }

  /** An earlier question of the payload has the key. */
  predicate SeenBefore(lx: Lexicon, payload: seq<Incoming>, n: nat, key: AnswerKey)
    requires n <= |payload|
  {
    exists i :: 0 <= i < n && IncomingKey(lx, payload[i]) == Some(key)
  }

  /** What is reported of the `i`-th question, if anything. */
  function Finding(lx: Lexicon, rows: seq<Row>, payload: seq<Incoming>, i: nat): Option<Duplicate>
    requires i < |payload|
  {
    var q := payload[i];
    match IncomingKey(lx, q)
    case None => None
    case Some(key) =>
      if SeenBefore(lx, payload, i, key) then Some(Duplicate(q, None))
      else
        match Holder(lx, rows, |rows|, key)
        case None => None
        case Some(row) => if row.externalId != q.externalId then Some(Duplicate(q, Some(row.question.id))) else None
  }

  function Findings(lx: Lexicon, rows: seq<Row>, payload: seq<Incoming>, n: nat): seq<Duplicate>
    requires n <= |payload|
  {
    if n == 0 then []
    else
      var front := Findings(lx, rows, payload, n - 1);
      match Finding(lx, rows, payload, n - 1)
      case None => front
      case Some(d) => front + [d]
  }

  /** One map over the library's rows, later rows winning, and one over the payload. */
  method FindDuplicateAnswers(lx: Lexicon, rows: seq<Row>, payload: seq<Incoming>) returns (found: seq<Duplicate>)
    ensures found == Findings(lx, rows, payload, |payload|)
  {
    var taken: map<AnswerKey, Row> := map[];
    for i := 0 to |rows|
      invariant forall key :: key in taken <==> Holder(lx, rows, i, key).Some?
      invariant forall key :: key in taken ==> Holder(lx, rows, i, key) == Some(taken[key])
    {
      var key := KeyOf(lx, rows[i].question);
      if key.Some? {
        taken := taken[key.value := rows[i]];
      }
    }
    found := [];
    var seen: set<AnswerKey> := {};
    for i := 0 to |payload|
      invariant forall key :: key in seen <==> SeenBefore(lx, payload, i, key)
      invariant found == Findings(lx, rows, payload, i)
    {
      var band := BandForRating(payload[i].rating);
      if band.None? {
        continue;
      }
      var key := KeyFor(lx, payload[i].topic, band.value, payload[i].answer);
      if key in seen {
        found := found + [Duplicate(payload[i], None)];
        continue;
      }
      seen := seen + {key};
      if key in taken && taken[key].externalId != payload[i].externalId {
        found := found + [Duplicate(payload[i], Some(taken[key].question.id))];
      }
    }
  }

  // ----- The import -----

  /** An upsert keeps the row's id and revives a retired question. */
  function Upserted(lib: Library, ids: string -> int, q: Incoming): Library {
    var id := if q.externalId in lib then lib[q.externalId].id else ids(q.externalId);
    lib[q.externalId := Question(id, q.topic, q.rating, q.prompt, q.answer, false)]
  }

  /** The first `n` questions written one after another. */
  function Applied(lib: Library, ids: string -> int, payload: seq<Incoming>, n: nat): Library
    requires n <= |payload|
  {
    if n == 0 then lib else Upserted(Applied(lib, ids, payload, n - 1), ids, payload[n - 1])
  }

  /** What parsing a seed file guarantees of it. */
  predicate Parsed(payload: seq<Incoming>) {
    && (forall i :: 0 <= i < |payload| ==> BandForRating(payload[i].rating).Some?)
    && (forall i, j :: 0 <= i < j < |payload| ==> payload[i].externalId != payload[j].externalId)
  }

  /** No two questions in play share topic, band and answer. */
  ghost predicate UniqueAnswers(lx: Lexicon, lib: Library) {
    forall e, f :: e in lib && f in lib && e != f && !lib[e].retired && !lib[f].retired ==>
      !SameAnswer(lx, lib[e].topic, lib[e].rating, lib[e].answer, lib[f].topic, lib[f].rating, lib[f].answer)
  }

  // ----- What a clean report promises -----

  lemma {:induction false} NothingFound(lx: Lexicon, rows: seq<Row>, payload: seq<Incoming>, n: nat, i: nat)
    requires i < n <= |payload| && Findings(lx, rows, payload, n) == []
    ensures Finding(lx, rows, payload, i) == None
  {
    hide Finding;
    if i < n - 1 {
      NothingFound(lx, rows, payload, n - 1, i);
    }
  }

  lemma {:induction false} HolderHolds(lx: Lexicon, rows: seq<Row>, n: nat, key: AnswerKey)
    requires n <= |rows|
    ensures var h := Holder(lx, rows, n, key);
            if h.Some? then h.value in rows && KeyOf(lx, h.value.question) == Some(key)
            else forall i :: 0 <= i < n ==> KeyOf(lx, rows[i].question) != Some(key)
  {
    if n == 0 {
    } else {
      HolderHolds(lx, rows, n - 1, key);
    }
  }

  /** Another question in play holds the answer. */
  predicate HeldByOther(lx: Lexicon, lib: Library, q: Incoming, e: string) {
    && e in lib && e != q.externalId && !lib[e].retired
    && SameAnswer(lx, lib[e].topic, lib[e].rating, lib[e].answer, q.topic, q.rating, q.answer)
  }

  /** An earlier question of the payload has the answer. */
  predicate CameEarlier(lx: Lexicon, payload: seq<Incoming>, i: nat)
    requires i < |payload|
  {
    exists j :: 0 <= j < i && SameAnswer(lx, payload[j].topic, payload[j].rating, payload[j].answer,
                                         payload[i].topic, payload[i].rating, payload[i].answer)
  }

  /** A question is reported exactly when its answer came earlier in the payload or is held by
      another question in play, and the report names that question. */
  lemma FindingMeans(lx: Lexicon, lib: Library, rows: seq<Row>, payload: seq<Incoming>, i: nat)
    requires IsQueried(lib, payload, rows) && UniqueAnswers(lx, lib) && i < |payload|
             && BandForRating(payload[i].rating).Some?
    ensures var found, earlier := Finding(lx, rows, payload, i), CameEarlier(lx, payload, i);
            && (earlier ==> found == Some(Duplicate(payload[i], None)))
            && (!earlier ==> (found.Some? <==> exists e :: HeldByOther(lx, lib, payload[i], e)))
            && (!earlier ==>
                  forall e :: HeldByOther(lx, lib, payload[i], e) ==>
                    found == Some(Duplicate(payload[i], Some(lib[e].id))))
  {
    var key := IncomingKey(lx, payload[i]).value;
    HolderHolds(lx, rows, |rows|, key);
    var holder := Holder(lx, rows, |rows|, key);
    forall e | HeldByOther(lx, lib, payload[i], e)
      ensures holder == Some(Row(e, lib[e]))
    {
      assert MentionsTopic(payload, lib[e].topic) by {
        assert payload[i].topic == lib[e].topic;
      }
      assert Row(e, lib[e]) in rows;
    }
    if holder.Some? && holder.value.externalId != payload[i].externalId {
      assert HeldByOther(lx, lib, payload[i], holder.value.externalId);
    }
  }

  /** What the report says of one question, in terms of the library. */
  lemma CleanMeans(lx: Lexicon, lib: Library, rows: seq<Row>, payload: seq<Incoming>, i: nat, e: string)
    requires IsQueried(lib, payload, rows) && UniqueAnswers(lx, lib) && i < |payload|
    requires Finding(lx, rows, payload, i) == None && BandForRating(payload[i].rating).Some?
    requires e in lib && !lib[e].retired
             && SameAnswer(lx, lib[e].topic, lib[e].rating, lib[e].answer,
                           payload[i].topic, payload[i].rating, payload[i].answer)
    ensures e == payload[i].externalId
  {
    FindingMeans(lx, lib, rows, payload, i);
    assert e != payload[i].externalId ==> HeldByOther(lx, lib, payload[i], e);
  }

  lemma {:induction false} AppliedRows(lib: Library, ids: string -> int, payload: seq<Incoming>, n: nat, e: string)
    requires n <= |payload| && Parsed(payload)
    ensures var after := Applied(lib, ids, payload, n);
            && (forall i :: 0 <= i < n && payload[i].externalId == e ==>
                  var q := payload[i];
                  var id := if e in lib then lib[e].id else ids(e);
                  e in after && after[e] == Question(id, q.topic, q.rating, q.prompt, q.answer, false))
            && ((forall i :: 0 <= i < n ==> payload[i].externalId != e) ==>
                  (e in after <==> e in lib) && (e in lib ==> after[e] == lib[e]))
  {
    if n == 0 {
    } else {
      AppliedRows(lib, ids, payload, n - 1, e);
    }
  }

  lemma PairStaysUnique(lx: Lexicon, lib: Library, ids: string -> int, rows: seq<Row>, payload: seq<Incoming>,
                        e: string, f: string)
    requires UniqueAnswers(lx, lib) && IsQueried(lib, payload, rows) && Parsed(payload)
    requires Findings(lx, rows, payload, |payload|) == []
    requires var after := Applied(lib, ids, payload, |payload|);
             e in after && f in after && e != f && !after[e].retired && !after[f].retired
    ensures var after := Applied(lib, ids, payload, |payload|);
            !SameAnswer(lx, after[e].topic, after[e].rating, after[e].answer,
                        after[f].topic, after[f].rating, after[f].answer)
  {
    var n := |payload|;
    AppliedRows(lib, ids, payload, n, e);
    AppliedRows(lib, ids, payload, n, f);
    if i :| 0 <= i < n && payload[i].externalId == e {
      NothingFound(lx, rows, payload, n, i);
      if j :| 0 <= j < n && payload[j].externalId == f {
        NothingFound(lx, rows, payload, n, j);
        var key := IncomingKey(lx, if i < j then payload[j] else payload[i]).value;
        assert !SeenBefore(lx, payload, if i < j then j else i, key);
      } else if KeyOf(lx, lib[f]) == IncomingKey(lx, payload[i]) {
        CleanMeans(lx, lib, rows, payload, i, f);
      }
    } else if j :| 0 <= j < n && payload[j].externalId == f {
      NothingFound(lx, rows, payload, n, j);
      if KeyOf(lx, lib[e]) == IncomingKey(lx, payload[j]) {
        CleanMeans(lx, lib, rows, payload, j, e);
      }
    }
  }

  /** A payload reported clean leaves no two questions with one answer. */
  lemma CleanImportsKeepAnswersUnique(lx: Lexicon, lib: Library, ids: string -> int, rows: seq<Row>,
                                      payload: seq<Incoming>)
    requires UniqueAnswers(lx, lib) && IsQueried(lib, payload, rows) && Parsed(payload)
    requires Findings(lx, rows, payload, |payload|) == []
    ensures UniqueAnswers(lx, Applied(lib, ids, payload, |payload|))
  {
    var after := Applied(lib, ids, payload, |payload|);
    forall e, f | e in after && f in after && e != f && !after[e].retired && !after[f].retired
      ensures !SameAnswer(lx, after[e].topic, after[e].rating, after[e].answer,
                          after[f].topic, after[f].rating, after[f].answer)
    {
      PairStaysUnique(lx, lib, ids, rows, payload, e, f);
    }
  }

  lemma ReimportFindsNothing(lx: Lexicon, lib: Library, ids: string -> int, rows: seq<Row>, payload: seq<Incoming>,
                             rows': seq<Row>, i: nat)
    requires UniqueAnswers(lx, lib) && IsQueried(lib, payload, rows) && Parsed(payload)
    requires Findings(lx, rows, payload, |payload|) == [] && i < |payload|
    requires IsQueried(Applied(lib, ids, payload, |payload|), payload, rows')
    ensures Finding(lx, rows', payload, i) == None
  {
    var after := Applied(lib, ids, payload, |payload|);
    CleanImportsKeepAnswersUnique(lx, lib, ids, rows, payload);
    NothingFound(lx, rows, payload, |payload|, i);
    AppliedRows(lib, ids, payload, |payload|, payload[i].externalId);
    var key := IncomingKey(lx, payload[i]).value;
    HolderHolds(lx, rows', |rows'|, key);
    var h := Holder(lx, rows', |rows'|, key);
    if h.Some? {
      assert h.value.externalId in after && after[h.value.externalId] == h.value.question;
      assert KeyOf(lx, after[payload[i].externalId]) == Some(key);
    }
  }

  lemma {:induction false} AllClean(lx: Lexicon, rows: seq<Row>, payload: seq<Incoming>, n: nat)
    requires n <= |payload| && forall i :: 0 <= i < n ==> Finding(lx, rows, payload, i) == None
    ensures Findings(lx, rows, payload, n) == []
  {
    hide Finding;
    if n == 0 {
    } else {
      AllClean(lx, rows, payload, n - 1);
    }
  }

  /** Pasting the same payload again is clean again and changes nothing. */
  lemma ReimportIsCleanAndIdle(lx: Lexicon, lib: Library, ids: string -> int, rows: seq<Row>, payload: seq<Incoming>,
                               rows': seq<Row>)
    requires UniqueAnswers(lx, lib) && IsQueried(lib, payload, rows) && Parsed(payload)
    requires Findings(lx, rows, payload, |payload|) == []
    requires IsQueried(Applied(lib, ids, payload, |payload|), payload, rows')
    ensures Findings(lx, rows', payload, |payload|) == []
    ensures var after := Applied(lib, ids, payload, |payload|); Applied(after, ids, payload, |payload|) == after
  {
    forall i | 0 <= i < |payload|
      ensures Finding(lx, rows', payload, i) == None
    {
      ReimportFindsNothing(lx, lib, ids, rows, payload, rows', i);
    }
    AllClean(lx, rows', payload, |payload|);
    ImportIsIdempotent(lib, ids, payload);
  }

  lemma ImportIsIdempotent(lib: Library, ids: string -> int, payload: seq<Incoming>)
    requires Parsed(payload)
    ensures var after := Applied(lib, ids, payload, |payload|); Applied(after, ids, payload, |payload|) == after
  {
    var after := Applied(lib, ids, payload, |payload|);
    var again := Applied(after, ids, payload, |payload|);
    forall e
      ensures (e in again <==> e in after) && (e in after ==> again[e] == after[e])
    {
      AppliedRows(lib, ids, payload, |payload|, e);
      AppliedRows(after, ids, payload, |payload|, e);
    }
  }
}
