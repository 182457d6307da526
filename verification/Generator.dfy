/** The daily board generator, internal/puzzle/generator.go.

    The generator is specified as a function of the library, the schedule, the
    pins and the date's stream of random numbers, which makes it deterministic
    by construction.  The stream itself is arbitrary: every theorem holds for
    all of them. */
module Generator {
  import opened Wrappers

  type TopicId = int
  type QuestionId = int
  /** Day numbers. */
  type Date = int

  datatype Difficulty = Easy | Medium | Hard

  const DIFFICULTIES: seq<Difficulty> := [Easy, Medium, Hard]
  const TOPICS_PER_DAY: nat := 3

  datatype Question = Question(topic: TopicId, difficulty: Difficulty, answer: string, active: bool,
                               aliases: nat, distractors: nat)

  datatype Topic = Topic(id: TopicId, active: bool, weight: nat)

  /** Questions with their ids in ascending order, topics in id order, and the normalization answers are compared by. */
  datatype Library = Library(questions: map<QuestionId, Question>, ids: seq<QuestionId>, topics: seq<Topic>,
                             key: string -> string)

  /** One cell of a board. */
  datatype Entry = Entry(topic: TopicId, position: int, difficulty: Difficulty, question: QuestionId)

  type Calendar = map<Date, seq<Entry>>

  datatype Config = Config(cooldownDays: int, answerCooldownDays: int)

  /** Everything one call of the generator reads. */
  datatype Env = Env(cfg: Config, lib: Library, boards: Calendar, date: Date, rng: nat -> nat)

  ghost predicate ValidLibrary(lib: Library) {
    && (forall q :: q in lib.ids <==> q in lib.questions)
    && (forall i :: 0 <= i < |lib.topics| ==> lib.topics[i].weight >= 1)
    && (forall i, j :: 0 <= i < j < |lib.topics| ==> lib.topics[i].id != lib.topics[j].id)
  }

  function Abs(x: int): nat {
    if x < 0 then -x else x
  }

  function AnswerKey(lib: Library, q: QuestionId): string {
    if q in lib.questions then lib.key(lib.questions[q].answer) else ""
  }

  // ----- Queries -----

  /** The question is on some other board within the cooldown. */
  predicate UsedNear(env: Env, q: QuestionId) {
    exists d :: d in env.boards && d != env.date && Abs(d - env.date) < env.cfg.cooldownDays
      && exists i :: 0 <= i < |env.boards[d]| && env.boards[d][i].question == q
  }

  predicate Eligible(env: Env, topic: TopicId, d: Difficulty, q: QuestionId) {
    && q in env.lib.questions
    && (var qn := env.lib.questions[q];
        qn.topic == topic && qn.difficulty == d && qn.active && qn.aliases > 0 && qn.distractors >= 3)
    && !UsedNear(env, q)
  }

  /** The eligible questions among the first `n` ids, in id order. */
  function EligibleQuestions(env: Env, topic: TopicId, d: Difficulty, n: nat): seq<QuestionId>
    requires n <= |env.lib.ids|
  {
    if n == 0 then []
    else
      var front, q := EligibleQuestions(env, topic, d, n - 1), env.lib.ids[n - 1];
      if Eligible(env, topic, d, q) then front + [q] else front
  }

  /** The answers on other boards within the answer cooldown, or None when the rule is off. */
  function AnswersUsedNear(env: Env): Option<set<string>> {
    if env.cfg.answerCooldownDays <= 0 then None
    else
      Some(set d, i | d in env.boards && 0 <= i < |env.boards[d]| && d != env.date
           && Abs(d - env.date) < env.cfg.answerCooldownDays ::
             AnswerKey(env.lib, env.boards[d][i].question))
  }

  /** The first `n` candidates without those whose answer is spent. */
  function WithFreshAnswers(lib: Library, candidates: seq<QuestionId>, spent: set<string>, n: nat): seq<QuestionId>
    requires n <= |candidates|
  {
    if n == 0 then []
    else
      var front, q := WithFreshAnswers(lib, candidates, spent, n - 1), candidates[n - 1];
      if AnswerKey(lib, q) in spent then front else front + [q]
  }

  // ----- Filling a topic -----

  datatype Reason = NoEligibleQuestion | AnswerRepeat

  datatype StarvedTopic = StarvedTopic(topic: TopicId, difficulty: Difficulty, reason: Reason)

  datatype FillResult =
    | Filled(entries: seq<Entry>, next: nat)
    | Starved(starved: StarvedTopic, next: nat)

  /** Questions at difficulties `k` and up.  `taken` holds the answers of the easier ones. */
  function FillFrom(env: Env, topic: TopicId, position: int, spent: Option<set<string>>, taken: set<string>, k: nat,
                    pos: nat): FillResult
    requires k <= |DIFFICULTIES|
    decreases |DIFFICULTIES| - k, topic
  {
    if k == |DIFFICULTIES| then Filled([], pos)
    else
      var d := DIFFICULTIES[k];
      var all := EligibleQuestions(env, topic, d, |env.lib.ids|);
      if all == [] then Starved(StarvedTopic(topic, d, NoEligibleQuestion), pos)
      else
        var candidates := if spent.None? then all else WithFreshAnswers(env.lib, all, spent.value + taken, |all|);
        if candidates == [] then Starved(StarvedTopic(topic, d, AnswerRepeat), pos)
        else
          var chosen := candidates[env.rng(pos) % |candidates|];
          match FillFrom(env, topic, position, spent, taken + {AnswerKey(env.lib, chosen)}, k + 1, pos + 1)
          case Filled(entries, next) => Filled([Entry(topic, position, d, chosen)] + entries, next)
          case Starved(s, next) => Starved(s, next)
  }

  function FillTopic(env: Env, topic: TopicId, position: int, spent: Option<set<string>>, pos: nat): FillResult {
    FillFrom(env, topic, position, spent, {}, 0, pos)
  }

  function Keys(lib: Library, entries: seq<Entry>): set<string> {
    set i | 0 <= i < |entries| :: AnswerKey(lib, entries[i].question)
  }

  function Spend(lib: Library, spent: Option<set<string>>, entries: seq<Entry>): Option<set<string>> {
    if spent.None? then None else Some(spent.value + Keys(lib, entries))
  }

  // ----- Weighted order -----

  /** The weights of the topics from `i` on. */
  function Total(topics: seq<Topic>, i: nat): nat
    requires i <= |topics|
    decreases |topics| - i
  {
    if i == |topics| then 0 else topics[i].weight + Total(topics, i + 1)
  }

  /** The topic a draw falls on, among those from `i` on. */
  function Chosen(topics: seq<Topic>, i: nat, draw: nat): (c: nat)
    requires i <= |topics| && draw < Total(topics, i)
    ensures i <= c < |topics|
    decreases |topics| - i
  {
    if draw < topics[i].weight then i else Chosen(topics, i + 1, draw - topics[i].weight)
  }

  predicate Weighted(topics: seq<Topic>) {
    forall i :: 0 <= i < |topics| ==> topics[i].weight >= 1
  }

  lemma TotalPositive(topics: seq<Topic>)
    requires Weighted(topics) && topics != []
    ensures Total(topics, 0) > 0
  {
  }

  /** Sampling without replacement, each draw proportional to the weights that remain. */
  function WeightedOrder(topics: seq<Topic>, rng: nat -> nat, pos: nat): seq<Topic>
    requires Weighted(topics)
    decreases |topics|
  {
    if topics == [] then []
    else
      TotalPositive(topics);
      var c := Chosen(topics, 0, rng(pos) % Total(topics, 0));
      [topics[c]] + WeightedOrder(topics[..c] + topics[c + 1..], rng, pos + 1)
  }

  // ----- The board -----

  /** The pinned positions below `n`, in ascending order. */
  function SortedPositions(pins: map<int, TopicId>, n: nat): (r: seq<int>)
    ensures forall p :: p in r ==> p in pins && 0 <= p < n
  {
    if n == 0 then [] else SortedPositions(pins, n - 1) + (if n - 1 in pins then [n - 1] else [])
  }

  /** The positions below `n` that are not pinned. */
  function FreePositions(pins: map<int, TopicId>, n: nat): (r: seq<int>)
    ensures forall p :: p in r ==> p !in pins && 0 <= p < n
  {
    if n == 0 then [] else FreePositions(pins, n - 1) + (if n - 1 in pins then [] else [n - 1])
  }

  predicate PinnedTopic(pins: map<int, TopicId>, id: TopicId) {
    exists p :: p in pins && pins[p] == id
  }

  /** The active topics among the first `n` that are not pinned. */
  function Unpinned(topics: seq<Topic>, pins: map<int, TopicId>, n: nat): (r: seq<Topic>)
    requires n <= |topics|
    ensures Weighted(topics) ==> Weighted(r)
  {
    if n == 0 then []
    else
      var front, t := Unpinned(topics, pins, n - 1), topics[n - 1];
      if t.active && !PinnedTopic(pins, t.id) then front + [t] else front
  }

  datatype PinsResult =
    | PinsDone(entries: seq<Entry>, spent: Option<set<string>>, next: nat)
    | PinStarved(position: int, starved: StarvedTopic)

  /** The pinned positions from the `i`-th on, after `done` has been filled. */
  function FillPins(env: Env, pins: map<int, TopicId>, positions: seq<int>, i: nat, done: seq<Entry>,
                    spent: Option<set<string>>, pos: nat): PinsResult
    requires i <= |positions| && forall k :: 0 <= k < |positions| ==> positions[k] in pins
    decreases |positions| - i
  {
    if i == |positions| then PinsDone(done, spent, pos)
    else
      var p := positions[i];
      match FillTopic(env, pins[p], p, spent, pos)
      case Starved(s, _) => PinStarved(p, s)
      case Filled(entries, next) => FillPins(env, pins, positions, i + 1, done + entries,
                                             Spend(env.lib, spent, entries), next)
  }

  datatype FreeResult = FreeResult(entries: seq<Entry>, starved: seq<StarvedTopic>, filled: nat,
                                   spent: Option<set<string>>)

  /** The free positions from the `j`-th on, out of the topics from the `i`-th on. */
  function FillFree(env: Env, order: seq<Topic>, i: nat, free: seq<int>, j: nat,
                    done: seq<Entry>, starved: seq<StarvedTopic>, spent: Option<set<string>>, pos: nat): FreeResult
    requires i <= |order| && j <= |free|
    decreases |order| - i
  {
    if i == |order| || j == |free| then FreeResult(done, starved, j, spent)
    else
      match FillTopic(env, order[i].id, free[j], spent, pos)
      case Starved(s, next) => FillFree(env, order, i + 1, free, j, done, starved + [s], spent, next)
      case Filled(entries, next) =>
        FillFree(env, order, i + 1, free, j + 1, done + entries, starved, Spend(env.lib, spent, entries), next)
  }

  datatype Result =
    | Existing(board: seq<Entry>)
    | Made(board: seq<Entry>)
    | PinnedTopicStarved(position: int, starved: StarvedTopic)
    | InsufficientContent(accepted: nat, starvedTopics: seq<StarvedTopic>)

  function Generate(env: Env, pins: map<int, TopicId>): Result
    requires ValidLibrary(env.lib)
  {
    if env.date in env.boards then Existing(env.boards[env.date])
    else GenerateOn(env, pins, SortedPositions(pins, TOPICS_PER_DAY), FreePositions(pins, TOPICS_PER_DAY))
  }

  /** The unpinned active topics in the order they are tried. */
  function CandidateOrder(env: Env, pins: map<int, TopicId>, pos: nat): seq<Topic>
    requires ValidLibrary(env.lib)
  {
    WeightedOrder(Unpinned(env.lib.topics, pins, |env.lib.topics|), env.rng, pos)
  }

  function LaySlots(env: Env, order: seq<Topic>, free: seq<int>, done: seq<Entry>, spent: Option<set<string>>,
                    pos: nat): FreeResult {
    FillFree(env, order, 0, free, 0, done, [], spent, pos)
  }

  function Outcome(pinned: nat, r: FreeResult): Result {
    if pinned + r.filled < TOPICS_PER_DAY then InsufficientContent(pinned + r.filled, r.starved) else Made(r.entries)
  }

  /** Pinned positions first, then the free ones out of the unpinned active topics. */
  function GenerateOn(env: Env, pins: map<int, TopicId>, positions: seq<int>, free: seq<int>): Result
    requires ValidLibrary(env.lib) && forall k :: 0 <= k < |positions| ==> positions[k] in pins
  {
    match FillPins(env, pins, positions, 0, [], AnswersUsedNear(env), 0)
    case PinStarved(p, s) => PinnedTopicStarved(p, s)
    case PinsDone(entries, spent, next) =>
      var order := CandidateOrder(env, pins, next);
      Outcome(|positions|, LaySlots(env, order, free, entries, spent, next + |order|))
  }

  // ----- What the queries list -----

  lemma {:induction false} EligibleListed(env: Env, topic: TopicId, d: Difficulty, n: nat)
    requires n <= |env.lib.ids|
    ensures forall q :: q in EligibleQuestions(env, topic, d, n) ==> Eligible(env, topic, d, q)
    ensures forall i :: 0 <= i < n && Eligible(env, topic, d, env.lib.ids[i]) ==>
              env.lib.ids[i] in EligibleQuestions(env, topic, d, n)
  {
    if n == 0 {
    } else {
      EligibleListed(env, topic, d, n - 1);
    }
  }

  /** The list query returns exactly the eligible questions. */
  lemma EligibleExactly(env: Env, topic: TopicId, d: Difficulty)
    requires ValidLibrary(env.lib)
    ensures forall q :: q in EligibleQuestions(env, topic, d, |env.lib.ids|) <==> Eligible(env, topic, d, q)
  {
    EligibleListed(env, topic, d, |env.lib.ids|);
    forall q | Eligible(env, topic, d, q)
      ensures q in EligibleQuestions(env, topic, d, |env.lib.ids|)
    {
      assert q in env.lib.ids;
    }
  }

  lemma {:induction false} FreshListed(lib: Library, candidates: seq<QuestionId>, spent: set<string>, n: nat)
    requires n <= |candidates|
    ensures forall q :: q in WithFreshAnswers(lib, candidates, spent, n) ==>
              q in candidates && AnswerKey(lib, q) !in spent
    ensures forall i :: 0 <= i < n && AnswerKey(lib, candidates[i]) !in spent ==>
              candidates[i] in WithFreshAnswers(lib, candidates, spent, n)
  {
    if n == 0 {
    } else {
      FreshListed(lib, candidates, spent, n - 1);
    }
  }

  // ----- Filling a topic is sound, and starving it is justified -----

  /** Eligible questions of one topic, one to a difficulty from the `k`-th up. */
  predicate IsRow(env: Env, entries: seq<Entry>, topic: TopicId, position: int, k: nat) {
    && k + |entries| <= |DIFFICULTIES|
    && forall i :: 0 <= i < |entries| ==>
         && entries[i].topic == topic && entries[i].position == position && entries[i].difficulty == DIFFICULTIES[k + i]
         && Eligible(env, topic, DIFFICULTIES[k + i], entries[i].question)
  }

  /** A question of every difficulty from the `k`-th up. */
  predicate IsPick(env: Env, entries: seq<Entry>, topic: TopicId, position: int, k: nat) {
    IsRow(env, entries, topic, position, k) && k + |entries| == |DIFFICULTIES|
  }

  predicate DistinctAnswers(lib: Library, entries: seq<Entry>) {
    forall i, j :: 0 <= i < j < |entries| ==> AnswerKey(lib, entries[i].question) != AnswerKey(lib, entries[j].question)
  }

  ghost predicate HasEligible(env: Env, topic: TopicId, d: Difficulty) {
    exists q :: Eligible(env, topic, d, q)
  }

  /** Every eligible question repeats an answer in the set. */
  ghost predicate OnlyRepeats(env: Env, topic: TopicId, d: Difficulty, answers: set<string>) {
    HasEligible(env, topic, d) && forall q :: Eligible(env, topic, d, q) ==> AnswerKey(env.lib, q) in answers
  }

  /** The topic's own picks at the difficulties from the `k`-th up to the one it starved at, which
      repeat nothing that was spent and nothing of one another. */
  ghost predicate IsOwnRow(env: Env, own: seq<Entry>, s: StarvedTopic, position: int, k: nat,
                           spent: Option<set<string>>) {
    && IsRow(env, own, s.topic, position, k)
    && k + |own| < |DIFFICULTIES| && s.difficulty == DIFFICULTIES[k + |own|]
    && (spent.Some? ==> DistinctAnswers(env.lib, own) && Keys(env.lib, own) !! spent.value)
  }

  /** The reason given is the true one: nothing is eligible, or the rule is on and all that is
      repeats an answer spent before the topic was tried or taken by its own easier picks. */
  ghost predicate Justified(env: Env, s: StarvedTopic, spent: Option<set<string>>, own: seq<Entry>) {
    match s.reason
    case NoEligibleQuestion => !HasEligible(env, s.topic, s.difficulty)
    case AnswerRepeat => spent.Some? && OnlyRepeats(env, s.topic, s.difficulty, spent.value + Keys(env.lib, own))
  }

  lemma {:induction false} FillIsSound(env: Env, topic: TopicId, position: int, spent: Option<set<string>>,
                                       taken: set<string>, k: nat, pos: nat)
    requires ValidLibrary(env.lib) && k <= |DIFFICULTIES|
    ensures var r := FillFrom(env, topic, position, spent, taken, k, pos);
            r.Filled? ==>
              && IsPick(env, r.entries, topic, position, k)
              && (spent.Some? ==>
                    DistinctAnswers(env.lib, r.entries) && Keys(env.lib, r.entries) !! spent.value + taken)
    decreases |DIFFICULTIES| - k, topic
  {
    NothingToPick(env, topic, position);
    hide Eligible, AnswerKey, DistinctAnswers, Keys, ValidLibrary, EligibleQuestions, WithFreshAnswers, IsPick;
    var r := FillFrom(env, topic, position, spent, taken, k, pos);
    if k < |DIFFICULTIES| && r.Filled? {
      var d := DIFFICULTIES[k];
      var all := EligibleQuestions(env, topic, d, |env.lib.ids|);
      var candidates := if spent.None? then all else WithFreshAnswers(env.lib, all, spent.value + taken, |all|);
      var chosen := candidates[env.rng(pos) % |candidates|];
      EligibleExactly(env, topic, d);
      if spent.Some? {
        FreshListed(env.lib, all, spent.value + taken, |all|);
      }
      var taken' := taken + {AnswerKey(env.lib, chosen)};
      FillIsSound(env, topic, position, spent, taken', k + 1, pos + 1);
      var rest := FillFrom(env, topic, position, spent, taken', k + 1, pos + 1).entries;
      assert chosen in all;
      PrependPick(env, topic, position, k, chosen, rest);
      if spent.Some? {
        PrependFresh(env.lib, Entry(topic, position, d, chosen), rest, spent.value, taken);
      }
    }
  }

  lemma NothingToPick(env: Env, topic: TopicId, position: int)
    ensures IsPick(env, [], topic, position, |DIFFICULTIES|)
    ensures DistinctAnswers(env.lib, []) && Keys(env.lib, []) == {}
  {
  }

  lemma PrependPick(env: Env, topic: TopicId, position: int, k: nat, q: QuestionId, rest: seq<Entry>)
    requires k < |DIFFICULTIES| && Eligible(env, topic, DIFFICULTIES[k], q)
    requires IsPick(env, rest, topic, position, k + 1)
    ensures IsPick(env, [Entry(topic, position, DIFFICULTIES[k], q)] + rest, topic, position, k)
  {
    hide Eligible;
    var all := [Entry(topic, position, DIFFICULTIES[k], q)] + rest;
    assert forall i :: 0 <= i < |rest| ==> all[i + 1] == rest[i];
  }

  lemma PrependFresh(lib: Library, e: Entry, rest: seq<Entry>, spent: set<string>, taken: set<string>)
    requires AnswerKey(lib, e.question) !in spent + taken
    requires DistinctAnswers(lib, rest) && Keys(lib, rest) !! spent + (taken + {AnswerKey(lib, e.question)})
    ensures DistinctAnswers(lib, [e] + rest) && Keys(lib, [e] + rest) !! spent + taken
  {
    KeysAppend(lib, [e], rest);
    forall i | 0 <= i < |rest|
      ensures AnswerKey(lib, rest[i].question) in Keys(lib, rest)
    {
    }
    assert [e][0] == e;
  }

  lemma KeysAppend(lib: Library, a: seq<Entry>, b: seq<Entry>)
    ensures Keys(lib, a + b) == Keys(lib, a) + Keys(lib, b)
  {
    forall key | key in Keys(lib, a) + Keys(lib, b)
      ensures key in Keys(lib, a + b)
    {
      if i :| 0 <= i < |a| && AnswerKey(lib, a[i].question) == key {
        assert (a + b)[i] == a[i];
      } else {
        var i :| 0 <= i < |b| && AnswerKey(lib, b[i].question) == key;
        assert (a + b)[|a| + i] == b[i];
      }
    }
  }

  function WithTaken(spent: Option<set<string>>, taken: set<string>): Option<set<string>> {
    if spent.None? then None else Some(spent.value + taken)
  }

  /** A topic that starves either has nothing to pick at this difficulty, or picks and starves above. */
  lemma StarvesHereOrAbove(env: Env, topic: TopicId, position: int, spent: Option<set<string>>, taken: set<string>,
                           k: nat, pos: nat)
    returns (here: bool, e: Entry)
    requires ValidLibrary(env.lib) && k <= |DIFFICULTIES|
             && FillFrom(env, topic, position, spent, taken, k, pos).Starved?
    ensures k < |DIFFICULTIES|
    ensures var r := FillFrom(env, topic, position, spent, taken, k, pos);
            if here then
              && r.starved.topic == topic && r.starved.difficulty == DIFFICULTIES[k] && r.next == pos
              && Justified(env, r.starved, WithTaken(spent, taken), [])
            else
              && IsRow(env, [e], topic, position, k)
              && (spent.Some? ==> AnswerKey(env.lib, e.question) !in spent.value + taken)
              && r == FillFrom(env, topic, position, spent, taken + {AnswerKey(env.lib, e.question)}, k + 1, pos + 1)
  {
    var d := DIFFICULTIES[k];
    var all := EligibleQuestions(env, topic, d, |env.lib.ids|);
    EligibleExactly(env, topic, d);
    here, e := true, Entry(topic, position, d, 0);
    if all != [] {
      assert all[0] in all;
      var candidates := if spent.None? then all else WithFreshAnswers(env.lib, all, spent.value + taken, |all|);
      if spent.Some? {
        FreshListed(env.lib, all, spent.value + taken, |all|);
      }
      if candidates != [] {
        var chosen := candidates[env.rng(pos) % |candidates|];
        assert chosen in all;
        here, e := false, Entry(topic, position, d, chosen);
      }
    }
  }

  lemma {:induction false} StarvesForAReason(env: Env, topic: TopicId, position: int, spent: Option<set<string>>,
                                             taken: set<string>, k: nat, pos: nat)
    returns (own: seq<Entry>)
    requires ValidLibrary(env.lib) && k <= |DIFFICULTIES|
             && FillFrom(env, topic, position, spent, taken, k, pos).Starved?
    ensures var s := FillFrom(env, topic, position, spent, taken, k, pos).starved;
            && s.topic == topic && IsOwnRow(env, own, s, position, k, WithTaken(spent, taken))
            && Justified(env, s, WithTaken(spent, taken), own)
    ensures FillFrom(env, topic, position, spent, taken, k, pos)
            == FillFrom(env, topic, position, spent, taken + Keys(env.lib, own), k + |own|, pos + |own|)
    ensures FillFrom(env, topic, position, spent, taken, k, pos).next == pos + |own|
    decreases |DIFFICULTIES| - k, topic
  {
    hide FillFrom, ValidLibrary, IsOwnRow, Justified, Keys, IsRow, AnswerKey;
    var here, e := StarvesHereOrAbove(env, topic, position, spent, taken, k, pos);
    var s := FillFrom(env, topic, position, spent, taken, k, pos).starved;
    if here {
      own := [];
      NoOwnRow(env, s, position, k, spent, taken);
    } else {
      var rest := StarvesForAReason(env, topic, position, spent, taken + {AnswerKey(env.lib, e.question)}, k + 1,
                                    pos + 1);
      own := [e] + rest;
      TakenGrows(env.lib, e, rest, taken);
      OwnRowGrows(env, e, rest, s, position, k, spent, taken);
    }
  }

  lemma NoOwnRow(env: Env, s: StarvedTopic, position: int, k: nat, spent: Option<set<string>>, taken: set<string>)
    requires k < |DIFFICULTIES| && s.difficulty == DIFFICULTIES[k]
    ensures IsOwnRow(env, [], s, position, k, WithTaken(spent, taken))
    ensures taken + Keys(env.lib, []) == taken
  {
  }

  lemma TakenGrows(lib: Library, e: Entry, rest: seq<Entry>, taken: set<string>)
    ensures taken + {AnswerKey(lib, e.question)} + Keys(lib, rest) == taken + Keys(lib, [e] + rest)
  {
    hide Keys, AnswerKey;
    KeysAppend(lib, [e], rest);
    OneKey(lib, e);
  }

  lemma OwnRowGrows(env: Env, e: Entry, rest: seq<Entry>, s: StarvedTopic, position: int, k: nat,
                    spent: Option<set<string>>, taken: set<string>)
    requires IsRow(env, [e], s.topic, position, k)
             && IsOwnRow(env, rest, s, position, k + 1, WithTaken(spent, taken + {AnswerKey(env.lib, e.question)}))
    requires Justified(env, s, WithTaken(spent, taken + {AnswerKey(env.lib, e.question)}), rest)
    requires spent.Some? ==> AnswerKey(env.lib, e.question) !in spent.value + taken
    ensures IsOwnRow(env, [e] + rest, s, position, k, WithTaken(spent, taken))
    ensures Justified(env, s, WithTaken(spent, taken), [e] + rest)
  {
    hide Eligible, AnswerKey, HasEligible;
    KeysAppend(env.lib, [e], rest);
    OneKey(env.lib, e);
    assert ([e] + rest)[0] == [e][0] && forall i :: 0 <= i < |rest| ==> ([e] + rest)[i + 1] == rest[i];
    if spent.Some? {
      PrependFresh(env.lib, e, rest, spent.value, taken);
      var key := AnswerKey(env.lib, e.question);
      assert spent.value + (taken + {key}) + Keys(env.lib, rest) == spent.value + taken + Keys(env.lib, [e] + rest);
    }
  }

  lemma OneKey(lib: Library, e: Entry)
    ensures Keys(lib, [e]) == {AnswerKey(lib, e.question)}
  {
    assert [e][0] == e;
  }

  /** A topic starves for the reason it gives: what it has run into is exactly what was spent when
      it was tried, and the answers of its own picks, after which nothing was left at the next
      difficulty. */
  lemma StarvingIsJustified(env: Env, topic: TopicId, position: int, spent: Option<set<string>>, pos: nat)
    returns (own: seq<Entry>)
    requires ValidLibrary(env.lib) && FillTopic(env, topic, position, spent, pos).Starved?
    ensures var s := FillTopic(env, topic, position, spent, pos).starved;
            s.topic == topic && IsOwnRow(env, own, s, position, 0, spent) && Justified(env, s, spent, own)
    ensures FillTopic(env, topic, position, spent, pos)
            == FillFrom(env, topic, position, spent, Keys(env.lib, own), |own|, pos + |own|)
    ensures FillTopic(env, topic, position, spent, pos).next == pos + |own|
  {
    hide FillFrom, IsOwnRow, Justified, Keys;
    own := StarvesForAReason(env, topic, position, spent, {}, 0, pos);
    assert {} + Keys(env.lib, own) == Keys(env.lib, own);
    assert WithTaken(spent, {}) == spent by {
      if spent.Some? {
        assert spent.value + {} == spent.value;
      }
    }
  }

  ghost predicate CanFillFrom(env: Env, topic: TopicId, k: nat) {
    forall m :: k <= m < |DIFFICULTIES| ==> HasEligible(env, topic, DIFFICULTIES[m])
  }

  ghost predicate CanFill(env: Env, topic: TopicId) {
    CanFillFrom(env, topic, 0)
  }

  /** With the answer rule off, whether a topic fills does not depend on chance. */
  lemma {:induction false} FillsIffItCan(env: Env, topic: TopicId, position: int, taken: set<string>, k: nat, pos: nat)
    requires ValidLibrary(env.lib) && k <= |DIFFICULTIES|
    ensures FillFrom(env, topic, position, None, taken, k, pos).Filled? <==> CanFillFrom(env, topic, k)
    decreases |DIFFICULTIES| - k, topic
  {
    if k == |DIFFICULTIES| {
    } else {
      var d := DIFFICULTIES[k];
      var all := EligibleQuestions(env, topic, d, |env.lib.ids|);
      EligibleExactly(env, topic, d);
      if all == [] {
        assert !HasEligible(env, topic, DIFFICULTIES[k]);
      } else {
        assert all[0] in all;
        var chosen := all[env.rng(pos) % |all|];
        FillsIffItCan(env, topic, position, taken + {AnswerKey(env.lib, chosen)}, k + 1, pos + 1);
        assert Eligible(env, topic, d, all[0]);
      }
    }
  }

  // ----- Weighted order -----

  lemma RemoveOne(topics: seq<Topic>, c: nat)
    requires c < |topics|
    ensures multiset(topics) == multiset{topics[c]} + multiset(topics[..c] + topics[c + 1..])
  {
    assert topics == topics[..c] + [topics[c]] + topics[c + 1..];
  }

  lemma {:induction false} OrderIsPermutation(topics: seq<Topic>, rng: nat -> nat, pos: nat)
    requires Weighted(topics)
    ensures multiset(WeightedOrder(topics, rng, pos)) == multiset(topics)
    ensures |WeightedOrder(topics, rng, pos)| == |topics|
    decreases |topics|
  {
    if topics == [] {
    } else {
      TotalPositive(topics);
      var c := Chosen(topics, 0, rng(pos) % Total(topics, 0));
      OrderIsPermutation(topics[..c] + topics[c + 1..], rng, pos + 1);
      RemoveOne(topics, c);
    }
  }

  lemma {:induction false} ChosenIffInside(topics: seq<Topic>, i: nat, draw: nat, c: nat)
    requires i <= c < |topics| && draw < Total(topics, i)
    ensures Total(topics, c) <= Total(topics, i) && Total(topics, c) == topics[c].weight + Total(topics, c + 1)
    ensures Chosen(topics, i, draw) == c <==>
              Total(topics, i) - Total(topics, c) <= draw < Total(topics, i) - Total(topics, c + 1)
    decreases c - i
  {
    if i == c {
    } else {
      if draw >= topics[i].weight {
        ChosenIffInside(topics, i + 1, draw - topics[i].weight, c);
      } else {
        TotalShrinks(topics, i + 1, c);
      }
    }
  }

  lemma {:induction false} TotalShrinks(topics: seq<Topic>, i: nat, c: nat)
    requires i <= c <= |topics|
    ensures Total(topics, c) <= Total(topics, i)
    decreases c - i
  {
    if i == c {
    } else {
      TotalShrinks(topics, i + 1, c);
    }
  }

  function Range(lo: int, n: nat): set<int> {
    if n == 0 then {} else Range(lo, n - 1) + {lo + n - 1}
  }

  lemma {:induction false} RangeHolds(lo: int, n: nat)
    ensures forall x :: x in Range(lo, n) <==> lo <= x < lo + n
    ensures |Range(lo, n)| == n
  {
    if n == 0 {
    } else {
      RangeHolds(lo, n - 1);
    }
  }

  /** The draws that fall on topic `c`. */
  function DrawsFor(topics: seq<Topic>, c: nat): set<int> {
    set draw | 0 <= draw < Total(topics, 0) && Chosen(topics, 0, draw) == c
  }

  /** Of the possible draws, exactly as many as its weight fall on each topic. */
  lemma DrawsAreProportional(topics: seq<Topic>, c: nat)
    requires c < |topics|
    ensures |DrawsFor(topics, c)| == topics[c].weight
  {
    TotalShrinks(topics, 0, c);
    TotalShrinks(topics, c, c + 1);
    var lo, w := Total(topics, 0) - Total(topics, c), topics[c].weight;
    forall draw
      ensures draw in DrawsFor(topics, c) <==> lo <= draw < lo + w
    {
      if 0 <= draw < Total(topics, 0) {
        ChosenIffInside(topics, 0, draw, c);
      }
    }
    RangeHolds(lo, w);
    assert DrawsFor(topics, c) == Range(lo, w);
  }

  // ----- What each draw decides -----

  /** The weights of the first `c` topics. */
  function Before(topics: seq<Topic>, c: nat): nat
    requires c <= |topics|
  {
    if c == 0 then 0 else Before(topics, c - 1) + topics[c - 1].weight
  }

  lemma {:induction false} BeforeAndAfter(topics: seq<Topic>, c: nat)
    requires c <= |topics|
    ensures Before(topics, c) + Total(topics, c) == Total(topics, 0)
  {
    if c == 0 {
    } else {
      BeforeAndAfter(topics, c - 1);
    }
  }

  /** Those of the first `n` topics that have no place yet, in their own order. */
  function NotPlaced(topics: seq<Topic>, placed: seq<Topic>, n: nat): seq<Topic>
    requires n <= |topics|
  {
    if n == 0 then []
    else
      var front, t := NotPlaced(topics, placed, n - 1), topics[n - 1];
      if t in placed then front else front + [t]
  }

  predicate AllDiffer(topics: seq<Topic>) {
    forall i, j :: 0 <= i < j < |topics| ==> topics[i] != topics[j]
  }

  lemma {:induction false} NothingPlaced(topics: seq<Topic>, n: nat)
    requires n <= |topics|
    ensures NotPlaced(topics, [], n) == topics[..n]
  {
    if n == 0 {
    } else {
      NothingPlaced(topics, n - 1);
      assert topics[..n] == topics[..n - 1] + [topics[n - 1]];
    }
  }

  lemma {:induction false} OnePlaced(topics: seq<Topic>, c: nat, placed: seq<Topic>, n: nat)
    requires AllDiffer(topics) && c < |topics| && n <= |topics|
    ensures var rest := topics[..c] + topics[c + 1..];
            NotPlaced(topics, [topics[c]] + placed, n) == NotPlaced(rest, placed, if n <= c then n else n - 1)
  {
    var rest := topics[..c] + topics[c + 1..];
    if n == 0 {
    } else {
      OnePlaced(topics, c, placed, n - 1);
      assert n - 1 < c ==> rest[n - 1] == topics[n - 1];
      assert n - 1 > c ==> rest[n - 2] == topics[n - 1];
    }
  }

  /** A draw lies in the share of the `c`-th topic when the topics stand side by side, each as wide as its weight. */
  predicate InShare(left: seq<Topic>, c: nat, draw: int) {
    c < |left| && Before(left, c) <= draw < Before(left, c) + left[c].weight
  }

  lemma FirstPlaceIsDrawn(topics: seq<Topic>, rng: nat -> nat, pos: nat)
    returns (c: nat)
    requires Weighted(topics) && topics != []
    ensures c < |topics| && Before(topics, |topics|) > 0 && InShare(topics, c, rng(pos) % Before(topics, |topics|))
    ensures WeightedOrder(topics, rng, pos)
            == [topics[c]] + WeightedOrder(topics[..c] + topics[c + 1..], rng, pos + 1)
  {
    TotalPositive(topics);
    c := Chosen(topics, 0, rng(pos) % Total(topics, 0));
    BeforeAndAfter(topics, |topics|);
    BeforeAndAfter(topics, c);
    ChosenIffInside(topics, 0, rng(pos) % Total(topics, 0), c);
  }

  lemma OthersDiffer(topics: seq<Topic>, c: nat)
    requires AllDiffer(topics) && c < |topics|
    ensures AllDiffer(topics[..c] + topics[c + 1..])
  {
  }

  /** The topic in place `k` is the one whose share of the weights, among the topics that have no place
      before it, holds that place's draw. */
  lemma {:induction false} PlacesAreDrawn(topics: seq<Topic>, rng: nat -> nat, pos: nat, k: nat)
    returns (left: seq<Topic>, c: nat)
    requires Weighted(topics) && AllDiffer(topics) && k < |topics|
    ensures |WeightedOrder(topics, rng, pos)| == |topics|
    ensures left == NotPlaced(topics, WeightedOrder(topics, rng, pos)[..k], |topics|)
    ensures c < |left| && WeightedOrder(topics, rng, pos)[k] == left[c]
    ensures Before(left, |left|) > 0 && InShare(left, c, rng(pos + k) % Before(left, |left|))
    decreases k
  {
    hide WeightedOrder, NotPlaced, Before, InShare, AllDiffer;
    OrderIsPermutation(topics, rng, pos);
    var first := FirstPlaceIsDrawn(topics, rng, pos);
    var order, rest := WeightedOrder(topics, rng, pos), topics[..first] + topics[first + 1..];
    var others := WeightedOrder(rest, rng, pos + 1);
    if k == 0 {
      left, c := topics, first;
      NothingPlaced(topics, |topics|);
      assert order[..0] == [] && topics[..|topics|] == topics;
    } else {
      OthersDiffer(topics, first);
      left, c := PlacesAreDrawn(rest, rng, pos + 1, k - 1);
      assert order[..k] == [topics[first]] + others[..k - 1];
      OnePlaced(topics, first, others[..k - 1], |topics|);
    }
  }

  /** Place `k` of an order went to the topic whose share held the place's draw. */
  predicate IsDrawn(topics: seq<Topic>, order: seq<Topic>, rng: nat -> nat, pos: nat, k: nat)
    requires k < |order|
  {
    var left := NotPlaced(topics, order[..k], |topics|);
    var total := Before(left, |left|);
    total > 0 && exists c: nat :: c < |left| && left[c] == order[k] && InShare(left, c, rng(pos + k) % total)
  }

  lemma EveryPlaceIsDrawn(topics: seq<Topic>, rng: nat -> nat, pos: nat)
    requires Weighted(topics)
    ensures var order := WeightedOrder(topics, rng, pos);
            |order| == |topics|
              && (AllDiffer(topics) ==> forall k :: 0 <= k < |order| ==> IsDrawn(topics, order, rng, pos, k))
  {
    hide WeightedOrder, NotPlaced, InShare, AllDiffer, Before;
    OrderIsPermutation(topics, rng, pos);
    if AllDiffer(topics) {
      forall k | 0 <= k < |topics|
        ensures IsDrawn(topics, WeightedOrder(topics, rng, pos), rng, pos, k)
      {
        var left, c := PlacesAreDrawn(topics, rng, pos, k);
      }
    }
  }

  /** The draws below `n` that lie in the share of the `c`-th topic. */
  function SharedDraws(left: seq<Topic>, c: nat, n: nat): set<int> {
    set draw | 0 <= draw < n && InShare(left, c, draw)
  }

  lemma {:induction false} BeforeGrows(topics: seq<Topic>, c: nat, d: nat)
    requires c <= d <= |topics|
    ensures Before(topics, c) <= Before(topics, d)
    decreases d - c
  {
    if c == d {
    } else {
      BeforeGrows(topics, c, d - 1);
    }
  }

  /** Of the possible draws for a place, each topic left holds exactly its weight in number, and no
      draw lies in the shares of two. */
  lemma SharesAreProportional(left: seq<Topic>, c: nat)
    requires c < |left|
    ensures |SharedDraws(left, c, Before(left, |left|))| == left[c].weight
    ensures forall other: nat, draw :: InShare(left, c, draw) && InShare(left, other, draw) ==> other == c
  {
    BeforeGrows(left, c + 1, |left|);
    var lo, w := Before(left, c), left[c].weight;
    RangeHolds(lo, w);
    assert SharedDraws(left, c, Before(left, |left|)) == Range(lo, w);
    forall other: nat, draw | InShare(left, c, draw) && InShare(left, other, draw)
      ensures other == c
    {
      if other < c {
        BeforeGrows(left, other + 1, c);
      } else if c < other {
        BeforeGrows(left, c + 1, other);
      }
    }
  }

  /** A question the topic can take, given what is spent and what it has taken itself. */
  predicate Usable(env: Env, topic: TopicId, d: Difficulty, spent: Option<set<string>>, taken: set<string>,
                   q: QuestionId) {
    Eligible(env, topic, d, q) && (spent.Some? ==> AnswerKey(env.lib, q) !in spent.value + taken)
  }

  /** The usable ones among the first `n` questions, by id. */
  function Usables(env: Env, topic: TopicId, d: Difficulty, spent: Option<set<string>>, taken: set<string>,
                   n: nat): seq<QuestionId>
    requires n <= |env.lib.ids|
  {
    if n == 0 then []
    else
      var front, q := Usables(env, topic, d, spent, taken, n - 1), env.lib.ids[n - 1];
      if Usable(env, topic, d, spent, taken, q) then front + [q] else front
  }

  lemma {:induction false} FreshPrefix(lib: Library, front: seq<QuestionId>, q: QuestionId, spent: set<string>, n: nat)
    requires n <= |front|
    ensures WithFreshAnswers(lib, front + [q], spent, n) == WithFreshAnswers(lib, front, spent, n)
  {
    if n == 0 {
    } else {
      FreshPrefix(lib, front, q, spent, n - 1);
    }
  }

  lemma {:induction false} CandidatesAreUsable(env: Env, topic: TopicId, d: Difficulty, spent: Option<set<string>>,
                                               taken: set<string>, n: nat)
    requires n <= |env.lib.ids|
    ensures var all := EligibleQuestions(env, topic, d, n);
            Usables(env, topic, d, spent, taken, n)
            == if spent.None? then all else WithFreshAnswers(env.lib, all, spent.value + taken, |all|)
  {
    if n == 0 {
    } else {
      hide Eligible, AnswerKey;
      CandidatesAreUsable(env, topic, d, spent, taken, n - 1);
      if spent.Some? {
        FreshPrefix(env.lib, EligibleQuestions(env, topic, d, n - 1), env.lib.ids[n - 1], spent.value + taken,
                    |EligibleQuestions(env, topic, d, n - 1)|);
      }
    }
  }

  /** Each question of a filled topic is the one its own draw points at, among those still usable, by id. */
  lemma {:induction false} PicksAreDrawn(env: Env, topic: TopicId, position: int, spent: Option<set<string>>,
                                         taken: set<string>, k: nat, pos: nat, m: nat)
    requires k <= |DIFFICULTIES| && FillFrom(env, topic, position, spent, taken, k, pos).Filled?
    requires m < |DIFFICULTIES| - k
    ensures var r := FillFrom(env, topic, position, spent, taken, k, pos);
            && |r.entries| == |DIFFICULTIES| - k && r.next == pos + |DIFFICULTIES| - k
            && var usable := Usables(env, topic, DIFFICULTIES[k + m], spent, taken + Keys(env.lib, r.entries[..m]),
                                     |env.lib.ids|);
               usable != [] && r.entries[m].question == usable[env.rng(pos + m) % |usable|]
    decreases m, topic
  {
    FilledLength(env, topic, position, spent, taken, k, pos);
    var d := DIFFICULTIES[k];
    CandidatesAreUsable(env, topic, d, spent, taken, |env.lib.ids|);
    var r := FillFrom(env, topic, position, spent, taken, k, pos);
    if m == 0 {
      assert taken + Keys(env.lib, r.entries[..0]) == taken;
    } else {
      var e := r.entries[0];
      var taken' := taken + {AnswerKey(env.lib, e.question)};
      hide Eligible, AnswerKey, Usables, EligibleQuestions, WithFreshAnswers;
      PicksAreDrawn(env, topic, position, spent, taken', k + 1, pos + 1, m - 1);
      var rest := FillFrom(env, topic, position, spent, taken', k + 1, pos + 1).entries;
      assert r.entries == [e] + rest && r.entries[..m] == [e] + rest[..m - 1];
      TakenGrows(env.lib, e, rest[..m - 1], taken);
    }
  }

  lemma {:induction false} FilledLength(env: Env, topic: TopicId, position: int, spent: Option<set<string>>,
                                        taken: set<string>, k: nat, pos: nat)
    requires k <= |DIFFICULTIES|
    ensures var r := FillFrom(env, topic, position, spent, taken, k, pos);
            r.Filled? ==> |r.entries| == |DIFFICULTIES| - k && r.next == pos + |DIFFICULTIES| - k
    decreases |DIFFICULTIES| - k, topic
  {
    if k == |DIFFICULTIES| {
    } else {
      var all := EligibleQuestions(env, topic, DIFFICULTIES[k], |env.lib.ids|);
      var candidates := if spent.None? then all else WithFreshAnswers(env.lib, all, spent.value + taken, |all|);
      if candidates != [] {
        FilledLength(env, topic, position, spent,
                     taken + {AnswerKey(env.lib, candidates[env.rng(pos) % |candidates|])}, k + 1, pos + 1);
      }
    }
  }

  // ----- What the queries mean -----

  /** Eligible: of the topic and difficulty, active, with an alias and three wrong options, and on no
      other board but those the cooldown away. */
  lemma EligibleMeans(env: Env, topic: TopicId, d: Difficulty, q: QuestionId)
    ensures Eligible(env, topic, d, q) <==>
              && q in env.lib.questions
              && (exists answer, aliases, distractors ::
                    env.lib.questions[q] == Question(topic, d, answer, true, aliases, distractors) && aliases >= 1
                      && distractors >= 3)
              && (forall e, i ::
                    e in env.boards && 0 <= i < |env.boards[e]| && env.boards[e][i].question == q && e != env.date ==>
                    e <= env.date - env.cfg.cooldownDays || e >= env.date + env.cfg.cooldownDays)
  {
    if q in env.lib.questions {
      var qn := env.lib.questions[q];
      assert qn == Question(qn.topic, qn.difficulty, qn.answer, qn.active, qn.aliases, qn.distractors);
    }
  }

  /** The nearby answers are those on other boards strictly within the answer cooldown, when it is on. */
  lemma NearbyAnswersMean(env: Env, key: string)
    ensures AnswersUsedNear(env).Some? <==> env.cfg.answerCooldownDays >= 1
    ensures AnswersUsedNear(env).Some? ==>
              (key in AnswersUsedNear(env).value <==>
               exists e, i :: e in env.boards && 0 <= i < |env.boards[e]| && AnswerKey(env.lib,
                       env.boards[e][i].question) == key
                 && e != env.date && env.date - env.cfg.answerCooldownDays < e < env.date + env.cfg.answerCooldownDays)
  {
    if AnswersUsedNear(env).Some? && key in AnswersUsedNear(env).value {
      var e, i :| e in env.boards && 0 <= i < |env.boards[e]| && e != env.date
        && Abs(e - env.date) < env.cfg.answerCooldownDays
                  && AnswerKey(env.lib, env.boards[e][i].question) == key;
      assert AnswerKey(env.lib, env.boards[e][i].question) == key;
    }
  }
}
