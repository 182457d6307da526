/** The generator as it runs: loops over shrinking lists, one random stream, and tables
    updated in place inside a transaction. */
module GeneratorStore {
  import opened Wrappers
  import opened Generator
  import opened Boards
  import opened Schedule

  /** A seeded source of random numbers. */
  class Rng {
    const stream: nat -> nat
    var next: nat

    constructor (stream: nat -> nat)
      ensures this.stream == stream && next == 0
    {
      this.stream := stream;
      next := 0;
    }

    method IntN(n: nat) returns (x: nat)
      requires n > 0
      modifies this
      ensures x == stream(old(next)) % n && next == old(next) + 1
    {
      x := stream(next) % n;
      next := next + 1;
    }
  }

  // ----- Weighted sampling -----

  /** The topic a draw falls on: weights are taken off the draw until it goes below zero, which
      it always does before the topics run out. */
  method Draw(remaining: seq<Topic>, rng: Rng) returns (chosen: nat)
    requires Weighted(remaining) && remaining != []
    modifies rng
    ensures Total(remaining, 0) > 0 && rng.next == old(rng.next) + 1
    ensures chosen == Chosen(remaining, 0, rng.stream(old(rng.next)) % Total(remaining, 0)) < |remaining|
  {
    var total := 0;
    for k := 0 to |remaining|
      invariant total + Total(remaining, k) == Total(remaining, 0)
    {
      total := total + remaining[k].weight;
    }
    TotalPositive(remaining);
    var draw: int := rng.IntN(total);
    ghost var drawn: nat := draw;
    chosen := 0;
    var i := 0;
    ghost var broke := false;
    while i < |remaining|
      invariant 0 <= i <= |remaining| && !broke && 0 <= draw < Total(remaining, i)
      invariant Chosen(remaining, i, draw) == Chosen(remaining, 0, drawn)
    {
      draw := draw - remaining[i].weight;
      if draw < 0 {
        chosen, broke := i, true;
        break;
      }
      i := i + 1;
    }
    assert broke;
  }

  lemma OneTaken(ordered: seq<Topic>, remaining: seq<Topic>, rng: nat -> nat, pos: nat, c: nat)
    requires Weighted(remaining) && remaining != [] && Total(remaining, 0) > 0 && c < |remaining|
    requires c == Chosen(remaining, 0, rng(pos) % Total(remaining, 0))
    ensures Weighted(remaining[..c] + remaining[c + 1..])
    ensures ordered + WeightedOrder(remaining, rng, pos)
            == ordered + [remaining[c]] + WeightedOrder(remaining[..c] + remaining[c + 1..], rng, pos + 1)
  {
    TakenFirst(remaining, rng, pos, c);
    hide WeightedOrder, Chosen, Total;
    var rest := WeightedOrder(remaining[..c] + remaining[c + 1..], rng, pos + 1);
    assert ordered + ([remaining[c]] + rest) == ordered + [remaining[c]] + rest;
  }

  lemma TakenFirst(remaining: seq<Topic>, rng: nat -> nat, pos: nat, c: nat)
    requires Weighted(remaining) && remaining != [] && Total(remaining, 0) > 0 && c < |remaining|
    requires c == Chosen(remaining, 0, rng(pos) % Total(remaining, 0))
    ensures Weighted(remaining[..c] + remaining[c + 1..])
    ensures WeightedOrder(remaining, rng, pos)
            == [remaining[c]] + WeightedOrder(remaining[..c] + remaining[c + 1..], rng, pos + 1)
  {
    hide Chosen, Total;
  }

  lemma NoneTaken(topics: seq<Topic>, rng: nat -> nat, pos: nat)
    requires Weighted(topics)
    ensures [] + WeightedOrder(topics, rng, pos) == WeightedOrder(topics, rng, pos)
    ensures forall p :: WeightedOrder([], rng, p) == []
  {
  }

  method WeightedTopicOrder(topics: seq<Topic>, rng: Rng) returns (ordered: seq<Topic>)
    requires Weighted(topics)
    modifies rng
    ensures ordered == WeightedOrder(topics, rng.stream, old(rng.next)) && rng.next == old(rng.next) + |topics|
    ensures |ordered| == |topics|
    ensures AllDiffer(topics) ==>
              forall k :: 0 <= k < |ordered| ==> IsDrawn(topics, ordered, rng.stream, old(rng.next), k)
  {
    EveryPlaceIsDrawn(topics, rng.stream, rng.next);
    NoneTaken(topics, rng.stream, rng.next);
    hide WeightedOrder, IsDrawn, AllDiffer, Chosen, Total;
    var remaining := topics;
    ordered := [];
    while |remaining| > 0
      invariant Weighted(remaining) && rng.next + |remaining| == old(rng.next) + |topics|
      invariant ordered + WeightedOrder(remaining, rng.stream, rng.next)
                == WeightedOrder(topics, rng.stream, old(rng.next))
      decreases |remaining|
    {
      ghost var pos := rng.next;
      var chosen := Draw(remaining, rng);
      OneTaken(ordered, remaining, rng.stream, pos, chosen);
      ordered := ordered + [remaining[chosen]];
      remaining := remaining[..chosen] + remaining[chosen + 1..];
    }
  }

  // ----- Filling a topic -----

  method FreshAnswers(lib: Library, candidates: seq<QuestionId>, spent: set<string>, takenSoFar: set<string>)
    returns (kept: seq<QuestionId>)
    ensures kept == WithFreshAnswers(lib, candidates, spent + takenSoFar, |candidates|)
  {
    kept := [];
    for i := 0 to |candidates|
      invariant kept == WithFreshAnswers(lib, candidates, spent + takenSoFar, i)
    {
      var key := AnswerKey(lib, candidates[i]);
      if key in spent || key in takenSoFar {
        continue;
      }
      kept := kept + [candidates[i]];
    }
  }

  /** What filling comes to, once the questions before it are put in front. */
  ghost function After(before: seq<Entry>, r: FillResult): FillResult {
    match r
    case Filled(entries, next) => Filled(before + entries, next)
    case Starved(s, next) => r
  }

  lemma AfterAfter(before: seq<Entry>, e: Entry, r: FillResult)
    ensures After(before, After([e], r)) == After(before + [e], r)
  {
    if r.Filled? {
      assert before + ([e] + r.entries) == before + [e] + r.entries;
    }
  }

  /** Easiest first; a topic that starves halfway returns nothing of what it had picked. */
  method FillTopicFrom(env: Env, topic: TopicId, position: int, rng: Rng, spent: Option<set<string>>)
    returns (entries: seq<Entry>, missing: Option<StarvedTopic>)
    requires env.rng == rng.stream
    modifies rng
    ensures FillTopic(env, topic, position, spent, old(rng.next))
            == (match missing case None => Filled(entries, rng.next) case Some(s) => Starved(s, rng.next))
  {
    entries := [];
    var answers: set<string> := {};
    for k := 0 to |DIFFICULTIES|
      invariant After(entries, FillFrom(env, topic, position, spent, answers, k, rng.next))
                == FillTopic(env, topic, position, spent, old(rng.next))
    {
      var difficulty := DIFFICULTIES[k];
      var candidates := EligibleQuestions(env, topic, difficulty, |env.lib.ids|);
      if |candidates| == 0 {
        return [], Some(StarvedTopic(topic, difficulty, NoEligibleQuestion));
      }
      if spent.Some? {
        candidates := FreshAnswers(env.lib, candidates, spent.value, answers);
        if |candidates| == 0 {
          return [], Some(StarvedTopic(topic, difficulty, AnswerRepeat));
        }
      }
      var at := rng.IntN(|candidates|);
      var e := Entry(topic, position, difficulty, candidates[at]);
      ghost var rest := FillFrom(env, topic, position, spent, answers + {AnswerKey(env.lib, candidates[at])}, k + 1,
                                 rng.next);
      assert FillFrom(env, topic, position, spent, answers, k, rng.next - 1) == After([e], rest);
      AfterAfter(entries, e, rest);
      answers := answers + {AnswerKey(env.lib, candidates[at])};
      entries := entries + [e];
    }
    missing := None;
    assert entries + [] == entries;
  }

  /** One slot of an operator's request; no topic leaves the position automatic. */
  datatype SlotRequest = SlotRequest(position: int, topic: Option<TopicId>)

  /** The pins the first `n` slots ask for. */
  function Wanted(requests: seq<SlotRequest>, n: nat): map<int, TopicId>
    requires n <= |requests|
  {
    if n == 0 then map[]
    else
      var front, s := Wanted(requests, n - 1), requests[n - 1];
      if s.topic.Some? then front[s.position := s.topic.value] else front
  }

  /** The last of the slots to name a topic for the position is this one, and this is the topic it names. */
  ghost predicate LastWord(requests: seq<SlotRequest>, i: nat, p: int, topic: TopicId) {
    && i < |requests| && requests[i] == SlotRequest(p, Some(topic))
    && forall m :: i < m < |requests| && requests[m].position == p ==> requests[m].topic.None?
  }

  /** A position is pinned to the last topic named for it, and not at all when none is. */
  lemma {:induction false} LastWordWins(requests: seq<SlotRequest>, n: nat, p: int, topic: TopicId)
    requires n <= |requests|
    ensures p in Wanted(requests, n) && Wanted(requests, n)[p] == topic
            <==> exists i :: LastWord(requests[..n], i, p, topic)
  {
    if n == 0 {
    } else {
      LastWordWins(requests, n - 1, p, topic);
      var last, front, all := requests[n - 1], requests[..n - 1], requests[..n];
      assert all == front + [last];
      if last.position == p && last.topic.Some? {
        assert LastWord(all, n - 1, p, last.topic.value);
        assert forall i: nat :: i < n - 1 ==> !LastWord(all, i, p, topic);
      } else {
        assert forall i: nat :: LastWord(all, i, p, topic) <==> LastWord(front, i, p, topic);
      }
    }
  }

  /** The rows for the first `n` of the positions. */
  function Picked(slots: map<int, TopicId>, positions: seq<int>, n: nat): map<int, TopicId>
    requires n <= |positions| && forall p :: p in positions ==> p in slots
  {
    if n == 0 then map[] else Picked(slots, positions, n - 1)[positions[n - 1] := slots[positions[n - 1]]]
  }

  lemma {:induction false} PickedRows(slots: map<int, TopicId>, positions: seq<int>, n: nat)
    requires n <= |positions| && forall p :: p in positions ==> p in slots
    ensures forall p :: p in Picked(slots, positions, n) <==> p in positions[..n]
    ensures forall p :: p in Picked(slots, positions, n) ==> p in slots && Picked(slots, positions, n)[p] == slots[p]
  {
    if n == 0 {
    } else {
      PickedRows(slots, positions, n - 1);
      assert positions[..n] == positions[..n - 1] + [positions[n - 1]];
    }
  }

  lemma AllPicked(slots: map<int, TopicId>, positions: seq<int>)
    requires forall p :: p in positions <==> p in slots
    ensures Picked(slots, positions, |positions|) == slots
  {
    PickedRows(slots, positions, |positions|);
    assert positions[..|positions|] == positions;
    var r := Picked(slots, positions, |positions|);
    assert forall p :: p in slots ==> p in positions;
    assert forall p :: p in positions ==> p in r;
    assert forall p :: p in r ==> p in positions;
    assert r.Keys == slots.Keys;
    assert forall p :: p in r ==> r[p] == slots[p];
  }

  // ----- The tables -----

  class Store {
    const cfg: Config
    var lib: Library
    var boards: Calendar
    var pins: map<Date, map<int, TopicId>>
    var played: set<Date>
    var today: Date

    function Current(): World
      reads this
    {
      World(lib, boards, pins, played, today)
    }

    constructor (cfg: Config, lib: Library, today: Date)
      ensures this.cfg == cfg && Current() == World(lib, map[], map[], {}, today)
    {
      this.cfg, this.lib, this.boards, this.pins, this.played, this.today := cfg, lib, map[], map[], {}, today;
    }

    /** The board's row and then its cells, one at a time. */
    method Insert(date: Date, entries: seq<Entry>)
      requires date !in boards
      modifies this`boards
      ensures boards == old(boards)[date := entries]
    {
      boards := boards[date := []];
      for i := 0 to |entries|
        invariant boards == old(boards)[date := entries[..i]]
      {
        boards := boards[date := boards[date] + [entries[i]]];
        assert entries[..i + 1] == entries[..i] + [entries[i]];
      }
      assert entries[..|entries|] == entries;
    }

    /** Pinned positions in ascending order; the first that starves ends the attempt. */
    method FillPinned(env: Env, slots: map<int, TopicId>, rng: Rng) returns (r: PinsResult)
      requires env.rng == rng.stream
      modifies rng
      ensures r == FillPins(env, slots, SortedPositions(slots, TOPICS_PER_DAY), 0, [], AnswersUsedNear(env),
                            old(rng.next))
      ensures r.PinsDone? ==> r.next == rng.next
    {
      var positions := SortedPositions(slots, TOPICS_PER_DAY);
      var entries: seq<Entry>, spent := [], AnswersUsedNear(env);
      for i := 0 to |positions|
        invariant FillPins(env, slots, positions, i, entries, spent, rng.next)
                  == FillPins(env, slots, positions, 0, [], AnswersUsedNear(env), old(rng.next))
      {
        var picked, missing := FillTopicFrom(env, slots[positions[i]], positions[i], rng, spent);
        if missing.Some? {
          return PinStarved(positions[i], missing.value);
        }
        entries := entries + picked;
        spent := Spend(env.lib, spent, picked);
      }
      r := PinsDone(entries, spent, rng.next);
    }

    /** The remaining positions out of the topics in the order drawn; a topic that starves is
        recorded and passed over, and its picks cost nothing. */
    method FillRemaining(env: Env, order: seq<Topic>, positions: seq<int>, rng: Rng, before: seq<Entry>,
                         spentBefore: Option<set<string>>)
      returns (r: FreeResult)
      requires env.rng == rng.stream
      modifies rng
      ensures r == LaySlots(env, order, positions, before, spentBefore, old(rng.next))
    {
      hide FillTopic, Spend;
      var free, entries, spent := positions, before, spentBefore;
      var starved: seq<StarvedTopic> := [];
      var i := 0;
      ghost var j := 0;
      while i < |order|
        invariant 0 <= i <= |order| && 0 <= j <= |positions| && free == positions[j..]
        invariant FillFree(env, order, i, positions, j, entries, starved, spent, rng.next)
                  == FillFree(env, order, 0, positions, 0, before, [], spentBefore, old(rng.next))
      {
        if |free| == 0 {
          break;
        }
        var picked, missing := FillTopicFrom(env, order[i].id, free[0], rng, spent);
        i := i + 1;
        if missing.Some? {
          starved := starved + [missing.value];
          continue;
        }
        entries := entries + picked;
        spent := Spend(env.lib, spent, picked);
        free := free[1..];
        j := j + 1;
      }
      r := FreeResult(entries, starved, |positions| - |free|, spent);
    }

    /** Builds and stores the board for a date, unless it has one. */
    method GenerateFor(date: Date, stream: nat -> nat) returns (r: Result)
      requires ValidLibrary(lib)
      modifies this`boards
      ensures r == old(Generate(EnvOf(cfg, Current(), date, stream), PinsFor(Current(), date)))
      ensures Current() == old(Generated(cfg, Current(), date, stream))
    {
      hide LaySlots, FillPins, WeightedOrder, AnswersUsedNear, SortedPositions, FreePositions;
      if date in boards {
        return Existing(boards[date]);
      }
      var slots := if date in pins then pins[date] else map[];
      var env := Env(cfg, lib, boards, date, stream);
      var rng := new Rng(stream);
      var pinned := FillPinned(env, slots, rng);
      if pinned.PinStarved? {
        return PinnedTopicStarved(pinned.position, pinned.starved);
      }
      var free := FreePositions(slots, TOPICS_PER_DAY);
      var order := WeightedTopicOrder(Unpinned(lib.topics, slots, |lib.topics|), rng);
      SameLength(env, slots, pinned.next);
      var rest := FillRemaining(env, order, free, rng, pinned.entries, pinned.spent);
      r := Outcome(|SortedPositions(slots, TOPICS_PER_DAY)|, rest);
      if r.Made? {
        Insert(date, r.board);
      }
    }

    lemma SameLength(env: Env, slots: map<int, TopicId>, pos: nat)
      requires ValidLibrary(env.lib)
      ensures |CandidateOrder(env, slots, pos)| == |Unpinned(env.lib.topics, slots, |env.lib.topics|)|
    {
      OrderIsPermutation(Unpinned(env.lib.topics, slots, |env.lib.topics|), env.rng, pos);
    }

    /** Clears the date's pins and writes the wanted ones, left to right. */
    method SetPins(date: Date, slots: map<int, TopicId>)
      requires forall p :: p in slots ==> 0 <= p < TOPICS_PER_DAY
      modifies this`pins
      ensures pins == old(pins)[date := slots]
    {
      var positions := SortedPositions(slots, TOPICS_PER_DAY);
      PositionsListed(slots, TOPICS_PER_DAY);
      pins := pins[date := map[]];
      for i := 0 to |positions|
        invariant date in pins && pins == old(pins)[date := pins[date]]
        invariant pins[date] == Picked(slots, positions, i)
      {
        var p := positions[i];
        pins := pins[date := pins[date][p := slots[p]]];
      }
      AllPicked(slots, positions);
    }

    /** Replaces a future, unplayed date's board, honouring its pins. */
    method RebuildBoard(date: Date, stream: nat -> nat) returns (r: Rebuild)
      requires ValidLibrary(lib)
      modifies this`boards
      ensures r == old(if !(today < date) then DateNotFuture
                       else if date in played then DateHasRuns
                       else
                         var g := Generate(EnvOf(cfg, Current().(boards := boards - {date}), date, stream),
                                           PinsFor(Current(), date));
                         if g.Made? then Rebuilt(g.board) else Unfilled(g))
      ensures r.Rebuilt? ==> boards == (old(boards) - {date})[date := r.board]
    {
      if !(today < date) {
        return DateNotFuture;
      }
      if date in played {
        return DateHasRuns;
      }
      hide Generate;
      boards := boards - {date};
      var g := GenerateFor(date, stream);
      r := if g.Made? then Rebuilt(g.board) else Unfilled(g);
    }

    /** Pins and board change together: a failure rolls both back. */
    method RebuildWithPins(date: Date, wanted: map<int, TopicId>, stream: nat -> nat) returns (r: Rebuild)
      requires ValidLibrary(lib)
      requires forall p :: p in wanted ==> 0 <= p < TOPICS_PER_DAY
      requires forall p, q :: p in wanted && q in wanted && p != q ==> wanted[p] != wanted[q]
      modifies this`boards, this`pins
      ensures r == old(TryRebuild(cfg, Current(), date, wanted, stream))
      ensures Current() == old(RebuiltWorld(cfg, Current(), date, wanted, stream))
    {
      hide Generate;
      var boardsBefore, pinsBefore := boards, pins;
      for p := 0 to TOPICS_PER_DAY
        invariant forall q :: 0 <= q < p && q in wanted ==> KnownTopic(lib, wanted[q])
      {
        if p in wanted && !KnownTopic(lib, wanted[p]) {
          return UnknownTopic;
        }
      }
      SetPins(date, wanted);
      r := RebuildBoard(date, stream);
      if !r.Rebuilt? {
        boards, pins := boardsBefore, pinsBefore;
      }
    }

    /** The operator's request: positions are checked one by one, the last word on a position
        counts, and no topic may take two. */
    method AdminSetTopics(date: Date, requests: seq<SlotRequest>, stream: nat -> nat) returns (r: Rebuild)
      requires ValidLibrary(lib)
      modifies this`boards, this`pins
      ensures if forall i :: 0 <= i < |requests| ==> 0 <= requests[i].position <= 2 then
                && r == old(TryRebuild(cfg, Current(), date, Wanted(requests, |requests|), stream))
                && Current() == old(RebuiltWorld(cfg, Current(), date, Wanted(requests, |requests|), stream))
              else r == BadPosition && Current() == old(Current())
    {
      hide Generate;
      var wanted: map<int, TopicId> := map[];
      for i := 0 to |requests|
        invariant forall k :: 0 <= k < i ==> 0 <= requests[k].position <= 2
        invariant wanted == Wanted(requests, i) && forall p :: p in wanted ==> 0 <= p <= 2
      {
        if requests[i].position < 0 || requests[i].position > 2 {
          return BadPosition;
        }
        if requests[i].topic.None? {
          continue;
        }
        wanted := wanted[requests[i].position := requests[i].topic.value];
      }
      var seen: set<TopicId> := {};
      for p := 0 to TOPICS_PER_DAY
        invariant forall id :: id in seen <==> exists q :: 0 <= q < p && q in wanted && wanted[q] == id
        invariant forall q, q' :: 0 <= q < q' < p && q in wanted && q' in wanted ==> wanted[q] != wanted[q']
      {
        if p in wanted {
          if wanted[p] in seen {
            return DuplicateTopic;
          }
          seen := seen + {wanted[p]};
        }
      }
      r := RebuildWithPins(date, wanted, stream);
    }
  }
}
