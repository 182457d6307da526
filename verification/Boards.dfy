/** What the generator promises about a board, and about a failure to make one. */
module Boards {
  import opened Wrappers
  import opened Generator

  /** A topic in a column of the board. */
  datatype Slot = Slot(position: int, topic: TopicId)

  predicate Cell(e: Entry, slot: Slot, j: nat)
    requires j < |DIFFICULTIES|
  {
    e.position == slot.position && e.topic == slot.topic && e.difficulty == DIFFICULTIES[j]
  }

  /** Three cells to a slot, easiest first. */
  ghost predicate Shaped(entries: seq<Entry>, slots: seq<Slot>) {
    && |entries| == 3 * |slots|
    && forall i :: 0 <= i < |entries| ==> Cell(entries[i], slots[i / 3], i % 3)
  }

  predicate AllEligible(env: Env, entries: seq<Entry>) {
    forall i :: 0 <= i < |entries| ==> Eligible(env, entries[i].topic, entries[i].difficulty, entries[i].question)
  }

  /** The spent set is the nearby answers and those of the board so far, which are all different. */
  predicate AnswersOk(env: Env, entries: seq<Entry>, spent: Option<set<string>>) {
    match AnswersUsedNear(env)
    case None => spent.None?
    case Some(near) =>
      spent == Some(near + Keys(env.lib, entries)) && DistinctAnswers(env.lib, entries)
        && Keys(env.lib, entries) !! near
  }

  ghost predicate PartOk(env: Env, entries: seq<Entry>, slots: seq<Slot>, spent: Option<set<string>>) {
    Shaped(entries, slots) && AllEligible(env, entries) && AnswersOk(env, entries, spent)
  }

  lemma AddShape(env: Env, done: seq<Entry>, slots: seq<Slot>, pick: seq<Entry>, slot: Slot)
    requires Shaped(done, slots) && AllEligible(env, done) && IsPick(env, pick, slot.topic, slot.position, 0)
    ensures Shaped(done + pick, slots + [slot]) && AllEligible(env, done + pick)
  {
    var entries, all := done + pick, slots + [slot];
    forall i | 0 <= i < |entries|
      ensures Cell(entries[i], all[i / 3], i % 3)
    {
      if i >= |done| {
        assert entries[i] == pick[i - |done|];
        assert i / 3 == |slots| && i % 3 == i - |done|;
      }
    }
  }

  lemma AddAnswers(env: Env, done: seq<Entry>, spent: Option<set<string>>, pick: seq<Entry>)
    requires AnswersOk(env, done, spent)
    requires spent.Some? ==> DistinctAnswers(env.lib, pick) && Keys(env.lib, pick) !! spent.value
    ensures AnswersOk(env, done + pick, Spend(env.lib, spent, pick))
  {
    KeysAppend(env.lib, done, pick);
    if spent.Some? {
      forall i, j | 0 <= i < |done| && 0 <= j < |pick|
        ensures AnswerKey(env.lib, done[i].question) != AnswerKey(env.lib, pick[j].question)
      {
        assert AnswerKey(env.lib, done[i].question) in Keys(env.lib, done);
        assert AnswerKey(env.lib, pick[j].question) in Keys(env.lib, pick);
      }
      assert Spend(env.lib, spent, pick).value == AnswersUsedNear(env).value + Keys(env.lib, done + pick);
    }
  }

  lemma AddPick(env: Env, done: seq<Entry>, slots: seq<Slot>, spent: Option<set<string>>, topic: TopicId,
                position: int, pos: nat)
    requires ValidLibrary(env.lib) && PartOk(env, done, slots, spent)
    requires FillTopic(env, topic, position, spent, pos).Filled?
    ensures var pick := FillTopic(env, topic, position, spent, pos).entries;
            PartOk(env, done + pick, slots + [Slot(position, topic)], Spend(env.lib, spent, pick))
  {
    var pick := FillTopic(env, topic, position, spent, pos).entries;
    FillIsSound(env, topic, position, spent, {}, 0, pos);
    AddShape(env, done, slots, pick, Slot(position, topic));
    if spent.Some? {
      assert spent.value + {} == spent.value;
    }
    AddAnswers(env, done, spent, pick);
  }

  // ----- The pinned positions -----

  function PinSlots(pins: map<int, TopicId>, positions: seq<int>, n: nat): seq<Slot>
    requires n <= |positions| && forall k :: 0 <= k < |positions| ==> positions[k] in pins
  {
    if n == 0 then [] else PinSlots(pins, positions, n - 1) + [Slot(positions[n - 1], pins[positions[n - 1]])]
  }

  lemma {:induction false} PinsAreLaid(env: Env, pins: map<int, TopicId>, positions: seq<int>, i: nat,
                                       done: seq<Entry>, spent: Option<set<string>>, pos: nat)
    requires ValidLibrary(env.lib)
    requires i <= |positions| && forall k :: 0 <= k < |positions| ==> positions[k] in pins
    requires PartOk(env, done, PinSlots(pins, positions, i), spent)
    ensures var r := FillPins(env, pins, positions, i, done, spent, pos);
            r.PinsDone? ==> PartOk(env, r.entries, PinSlots(pins, positions, |positions|), r.spent)
    decreases |positions| - i
  {
    if i == |positions| {
    } else {
      var p := positions[i];
      var f := FillTopic(env, pins[p], p, spent, pos);
      if f.Filled? {
        AddPick(env, done, PinSlots(pins, positions, i), spent, pins[p], p, pos);
        PinsAreLaid(env, pins, positions, i + 1, done + f.entries, Spend(env.lib, spent, f.entries), f.next);
      }
    }
  }

  // ----- The free positions -----

  function FreeSlots(free: seq<int>, j: nat, accepted: seq<Topic>, n: nat): seq<Slot>
    requires n <= |accepted| && j + n <= |free|
  {
    if n == 0 then [] else FreeSlots(free, j, accepted, n - 1) + [Slot(free[j + n - 1], accepted[n - 1].id)]
  }

  lemma {:induction false} FreeSlotsPrepend(free: seq<int>, j: nat, t: Topic, accepted: seq<Topic>, n: nat)
    requires n <= |accepted| && j + 1 + n <= |free|
    ensures FreeSlots(free, j, [t] + accepted, n + 1) == [Slot(free[j], t.id)] + FreeSlots(free, j + 1, accepted, n)
  {
    if n == 0 {
    } else {
      FreeSlotsPrepend(free, j, t, accepted, n - 1);
      assert ([t] + accepted)[n] == accepted[n - 1];
    }
  }

  lemma SlotsPrepend(slots: seq<Slot>, free: seq<int>, j: nat, t: Topic, rest: seq<Topic>)
    requires j + 1 + |rest| <= |free|
    ensures var accepted := [t] + rest;
            slots + FreeSlots(free, j, accepted, |accepted|) == slots + [Slot(free[j], t.id)]
              + FreeSlots(free, j + 1, rest, |rest|)
  {
    FreeSlotsPrepend(free, j, t, rest, |rest|);
  }

  /** The ids of the topics from the `i`-th on. */
  function IdsFrom(order: seq<Topic>, i: nat): multiset<TopicId>
    requires i <= |order|
    decreases |order| - i
  {
    if i == |order| then multiset{} else multiset{order[i].id} + IdsFrom(order, i + 1)
  }

  function StarvedIds(starved: seq<StarvedTopic>): multiset<TopicId> {
    if starved == [] then multiset{} else StarvedIds(starved[..|starved| - 1]) + multiset{starved[|starved| - 1].topic}
  }

  lemma StarvedIdsAppend(starved: seq<StarvedTopic>, s: StarvedTopic)
    ensures StarvedIds(starved + [s]) == StarvedIds(starved) + multiset{s.topic}
  {
    assert (starved + [s])[..|starved|] == starved;
  }

  /** Which topics of the order fill the free positions. */
  function Accepted(env: Env, order: seq<Topic>, i: nat, free: seq<int>, j: nat, spent: Option<set<string>>,
                    pos: nat): seq<Topic>
    requires i <= |order| && j <= |free|
    decreases |order| - i
  {
    if i == |order| || j == |free| then []
    else
      match FillTopic(env, order[i].id, free[j], spent, pos)
      case Starved(_, next) => Accepted(env, order, i + 1, free, j, spent, next)
      case Filled(entries, next) =>
        [order[i]] + Accepted(env, order, i + 1, free, j + 1, Spend(env.lib, spent, entries), next)
  }

  lemma {:induction false} FreeAreLaid(env: Env, order: seq<Topic>, i: nat, free: seq<int>, j: nat,
                                       done: seq<Entry>, slots: seq<Slot>, starved: seq<StarvedTopic>,
                                       spent: Option<set<string>>, pos: nat)
    requires ValidLibrary(env.lib) && i <= |order| && j <= |free|
    requires PartOk(env, done, slots, spent)
    ensures var r, accepted := FillFree(env, order, i, free, j, done, starved, spent, pos),
            Accepted(env, order, i, free, j, spent, pos);
            && r.filled == j + |accepted| <= |free|
            && PartOk(env, r.entries, slots + FreeSlots(free, j, accepted, |accepted|), r.spent)
    decreases |order| - i
  {
    if i == |order| || j == |free| {
      assert slots + [] == slots;
    } else {
      var f := FillTopic(env, order[i].id, free[j], spent, pos);
      if f.Starved? {
        FreeAreLaid(env, order, i + 1, free, j, done, slots, starved + [f.starved], spent, f.next);
      } else {
        var slot, spent' := Slot(free[j], order[i].id), Spend(env.lib, spent, f.entries);
        AddPick(env, done, slots, spent, order[i].id, free[j], pos);
        FreeAreLaid(env, order, i + 1, free, j + 1, done + f.entries, slots + [slot], starved, spent', f.next);
        var rest := Accepted(env, order, i + 1, free, j + 1, spent', f.next);
        SlotsPrepend(slots, free, j, order[i], rest);
      }
    }
  }

  /** What the loop has accepted and starved, from here on, is what the order held. */
  ghost predicate Balanced(r: FreeResult, accepted: seq<Topic>, starved: seq<StarvedTopic>, order: seq<Topic>, i: nat)
    requires i <= |order|
  {
    forall id :: StarvedIds(r.starved)[id] + IdsFrom(accepted, 0)[id] == StarvedIds(starved)[id] + IdsFrom(order, i)[id]
  }

  lemma BalanceStarved(r: FreeResult, accepted: seq<Topic>, starved: seq<StarvedTopic>, s: StarvedTopic,
                       order: seq<Topic>, i: nat)
    requires i < |order| && s.topic == order[i].id
    requires Balanced(r, accepted, starved + [s], order, i + 1)
    ensures Balanced(r, accepted, starved, order, i)
  {
    StarvedIdsAppend(starved, s);
  }

  lemma BalanceAccepted(r: FreeResult, rest: seq<Topic>, starved: seq<StarvedTopic>, order: seq<Topic>, i: nat)
    requires i < |order|
    requires Balanced(r, rest, starved, order, i + 1)
    ensures Balanced(r, [order[i]] + rest, starved, order, i)
  {
    IdsPrepend(order[i], rest, 0);
  }

  /** Every topic tried is accepted or starved, never both and never twice; when positions
      are left over, every topic was tried. */
  lemma {:induction false} FreeAreAccounted(env: Env, order: seq<Topic>, i: nat, free: seq<int>, j: nat,
                                            done: seq<Entry>, starved: seq<StarvedTopic>, spent: Option<set<string>>,
                                            pos: nat)
    requires i <= |order| && j <= |free|
    ensures var r, accepted := FillFree(env, order, i, free, j, done, starved, spent, pos),
            Accepted(env, order, i, free, j, spent, pos);
            r.filled < |free| ==> Balanced(r, accepted, starved, order, i)
    decreases |order| - i
  {
    hide FillTopic, Balanced, Spend;
    var r := FillFree(env, order, i, free, j, done, starved, spent, pos);
    if i == |order| || j == |free| {
      BalanceDone(r, starved, order);
    } else {
      var f := FillTopic(env, order[i].id, free[j], spent, pos);
      if f.Starved? {
        StarvedTopicNames(env, order[i].id, free[j], spent, pos);
        FreeAreAccounted(env, order, i + 1, free, j, done, starved + [f.starved], spent, f.next);
        var rest := Accepted(env, order, i + 1, free, j, spent, f.next);
        if r.filled < |free| {
          BalanceStarved(r, rest, starved, f.starved, order, i);
        }
      } else {
        var spent' := Spend(env.lib, spent, f.entries);
        FreeAreAccounted(env, order, i + 1, free, j + 1, done + f.entries, starved, spent', f.next);
        var rest := Accepted(env, order, i + 1, free, j + 1, spent', f.next);
        if r.filled < |free| {
          BalanceAccepted(r, rest, starved, order, i);
        }
      }
    }
  }

  lemma BalanceDone(r: FreeResult, starved: seq<StarvedTopic>, order: seq<Topic>)
    ensures r.starved == starved ==> Balanced(r, [], starved, order, |order|)
  {
  }

  lemma {:induction false} StarvingNames(env: Env, topic: TopicId, position: int, spent: Option<set<string>>,
                                         taken: set<string>, k: nat, pos: nat)
    requires k <= |DIFFICULTIES|
    ensures var r := FillFrom(env, topic, position, spent, taken, k, pos); r.Starved? ==> r.starved.topic == topic
    decreases |DIFFICULTIES| - k, topic
  {
    if k == |DIFFICULTIES| {
    } else {
      var all := EligibleQuestions(env, topic, DIFFICULTIES[k], |env.lib.ids|);
      var candidates := if spent.None? then all else WithFreshAnswers(env.lib, all, spent.value + taken, |all|);
      if candidates != [] {
        StarvingNames(env, topic, position, spent,
                      taken + {AnswerKey(env.lib, candidates[env.rng(pos) % |candidates|])}, k + 1, pos + 1);
      }
    }
  }

  lemma StarvedTopicNames(env: Env, topic: TopicId, position: int, spent: Option<set<string>>, pos: nat)
    ensures var r := FillTopic(env, topic, position, spent, pos); r.Starved? ==> r.starved.topic == topic
  {
    StarvingNames(env, topic, position, spent, {}, 0, pos);
  }

  lemma {:induction false} IdsPrepend(t: Topic, order: seq<Topic>, i: nat)
    requires i <= |order|
    ensures IdsFrom([t] + order, i + 1) == IdsFrom(order, i)
    decreases |order| - i
  {
    if i == |order| {
    } else {
      assert ([t] + order)[i + 1] == order[i];
      IdsPrepend(t, order, i + 1);
    }
  }

  /** The reason of the `i`-th starved topic is true of the first `n` columns, the ones the board
      had when the topic was tried: `pinned` columns were there before the loop, so it is the topic
      of the order that comes after `i` starved and `n - pinned` accepted ones. */
  ghost predicate TrueWhenTried(env: Env, order: seq<Topic>, pinned: nat, starved: seq<StarvedTopic>, i: nat,
                                board: seq<Entry>, n: nat)
    requires i < |starved|
  {
    && pinned <= n && 3 * n <= |board|
    && i + n - pinned < |order| && order[i + n - pinned].id == starved[i].topic
    && TrueReason(env, starved[i], board[..3 * n])
  }

  /** The reason is true of a board so far: all that is eligible repeats an answer used nearby, on the
      board, or by the topic's own easier picks. */
  ghost predicate TrueReason(env: Env, s: StarvedTopic, board: seq<Entry>) {
    exists own, position, pos :: RanOut(env, s, position, Spend(env.lib, AnswersUsedNear(env), board), pos, own)
  }

  /** Tried with these answers spent, the topic picked `own` and then starved, for the reason it gives. */
  ghost predicate RanOut(env: Env, s: StarvedTopic, position: int, spent: Option<set<string>>, pos: nat,
                         own: seq<Entry>) {
    && IsOwnRow(env, own, s, position, 0, spent) && Justified(env, s, spent, own)
    && FillTopic(env, s.topic, position, spent, pos) == Starved(s, pos + |own|)
  }

  /** An easy question has no easier picks to excuse it: an answer it repeats was spent nearby or on the board. */
  lemma EasyRepeatsAreSpent(env: Env, s: StarvedTopic, board: seq<Entry>, q: QuestionId)
    requires TrueReason(env, s, board) && s.reason == AnswerRepeat && s.difficulty == Easy
    requires Eligible(env, s.topic, Easy, q)
    ensures AnswersUsedNear(env).Some?
    ensures AnswerKey(env.lib, q) in AnswersUsedNear(env).value + Keys(env.lib, board)
  {
    var spent := Spend(env.lib, AnswersUsedNear(env), board);
    var own, position, pos :| RanOut(env, s, position, spent, pos, own);
    assert own == [];
    hide AnswerKey, AnswersUsedNear, Eligible;
    assert AnswerKey(env.lib, q) in spent.value + Keys(env.lib, own);
  }

  ghost predicate AllTrue(env: Env, order: seq<Topic>, pinned: nat, starved: seq<StarvedTopic>, board: seq<Entry>) {
    forall i :: 0 <= i < |starved| ==> WasTrue(env, order, pinned, starved, i, board)
  }

  ghost predicate WasTrue(env: Env, order: seq<Topic>, pinned: nat, starved: seq<StarvedTopic>, i: nat,
                          board: seq<Entry>)
    requires i < |starved|
  {
    exists n :: TrueWhenTried(env, order, pinned, starved, i, board, n)
  }

  lemma {:induction false} FreeAreJustified(env: Env, order: seq<Topic>, i: nat, free: seq<int>, j: nat, pinned: nat,
                                            done: seq<Entry>, slots: seq<Slot>, starved: seq<StarvedTopic>,
                                            spent: Option<set<string>>, pos: nat)
    requires ValidLibrary(env.lib) && i <= |order| && j <= |free|
    requires PartOk(env, done, slots, spent) && |slots| == pinned + j && i == |starved| + j
    requires AllTrue(env, order, pinned, starved, done)
    ensures var r := FillFree(env, order, i, free, j, done, starved, spent, pos);
            AllTrue(env, order, pinned, r.starved, r.entries)
    decreases |order| - i
  {
    if i < |order| && j < |free| {
      hide PartOk, AllTrue, FillTopic, ValidLibrary;
      var f := FillTopic(env, order[i].id, free[j], spent, pos);
      if f.Starved? {
        OneMoreTrue(env, order, i, free[j], pinned, done, slots, starved, spent, pos);
        FreeAreJustified(env, order, i + 1, free, j, pinned, done, slots, starved + [f.starved], spent, f.next);
      } else {
        AddPick(env, done, slots, spent, order[i].id, free[j], pos);
        StillTrue(env, order, pinned, starved, done, f.entries);
        FreeAreJustified(env, order, i + 1, free, j + 1, pinned, done + f.entries,
                         slots + [Slot(free[j], order[i].id)], starved,
                         Spend(env.lib, spent, f.entries), f.next);
      }
    }
  }

  /** Later picks take nothing from what was true of the board before them. */
  lemma StillTrue(env: Env, order: seq<Topic>, pinned: nat, starved: seq<StarvedTopic>, done: seq<Entry>,
                  more: seq<Entry>)
    requires AllTrue(env, order, pinned, starved, done)
    ensures AllTrue(env, order, pinned, starved, done + more)
  {
    hide TrueReason;
    forall i | 0 <= i < |starved|
      ensures WasTrue(env, order, pinned, starved, i, done + more)
    {
      assert WasTrue(env, order, pinned, starved, i, done);
      var n :| TrueWhenTried(env, order, pinned, starved, i, done, n);
      assert (done + more)[..3 * n] == done[..3 * n];
      assert TrueWhenTried(env, order, pinned, starved, i, done + more, n);
    }
  }

  lemma OneMoreTrue(env: Env, order: seq<Topic>, i: nat, position: int, pinned: nat, done: seq<Entry>, slots: seq<Slot>,
                    starved: seq<StarvedTopic>, spent: Option<set<string>>, pos: nat)
    requires ValidLibrary(env.lib) && PartOk(env, done, slots, spent) && i < |order|
    requires pinned <= |slots| && i == |starved| + |slots| - pinned
    requires AllTrue(env, order, pinned, starved, done)
    requires FillTopic(env, order[i].id, position, spent, pos).Starved?
    ensures AllTrue(env, order, pinned, starved + [FillTopic(env, order[i].id, position, spent, pos).starved], done)
  {
    var s := FillTopic(env, order[i].id, position, spent, pos).starved;
    var n := |slots|;
    StarvedIsTrue(env, order[i].id, position, done, slots, spent, pos);
    hide TrueReason, FillTopic, AllEligible, AnswersOk, ValidLibrary;
    var all := starved + [s];
    assert done[..3 * n] == done;
    forall k | 0 <= k < |all|
      ensures WasTrue(env, order, pinned, all, k, done)
    {
      if k < |starved| {
        assert WasTrue(env, order, pinned, starved, k, done);
        var m :| TrueWhenTried(env, order, pinned, starved, k, done, m);
        assert TrueWhenTried(env, order, pinned, all, k, done, m);
      } else {
        assert TrueWhenTried(env, order, pinned, all, k, done, n);
      }
    }
  }

  lemma StarvedIsTrue(env: Env, topic: TopicId, position: int, done: seq<Entry>, slots: seq<Slot>,
                      spent: Option<set<string>>, pos: nat)
    requires ValidLibrary(env.lib) && PartOk(env, done, slots, spent)
    requires FillTopic(env, topic, position, spent, pos).Starved?
    ensures FillTopic(env, topic, position, spent, pos).starved.topic == topic && |done| == 3 * |slots|
    ensures TrueReason(env, FillTopic(env, topic, position, spent, pos).starved, done)
  {
    SpentIsSpend(env, done, spent);
    hide AnswersOk, AllEligible, Spend, IsOwnRow, Justified, FillTopic;
    var own := StarvingIsJustified(env, topic, position, spent, pos);
    assert RanOut(env, FillTopic(env, topic, position, spent, pos).starved, position, spent, pos, own);
  }

  // ----- A board that was made -----

  predicate DistinctIds(topics: seq<Topic>) {
    forall i, j :: 0 <= i < j < |topics| ==> topics[i].id != topics[j].id
  }

  lemma DistinctFront(topics: seq<Topic>, n: nat)
    requires 0 < n <= |topics| && DistinctIds(topics)
    ensures forall t :: t in topics[..n - 1] ==> t.id != topics[n - 1].id
  {
  }

  lemma DistinctAppend(front: seq<Topic>, t: Topic)
    requires DistinctIds(front) && forall u :: u in front ==> u.id != t.id
    ensures DistinctIds(front + [t])
  {
    forall i, j | 0 <= i < j < |front + [t]|
      ensures (front + [t])[i].id != (front + [t])[j].id
    {
      assert front[i] in front;
    }
  }

  lemma {:induction false} UnpinnedListed(topics: seq<Topic>, pins: map<int, TopicId>, n: nat)
    requires n <= |topics| && DistinctIds(topics)
    ensures var r := Unpinned(topics, pins, n);
            && DistinctIds(r)
            && forall t :: t in r <==> t in topics[..n] && t.active && !PinnedTopic(pins, t.id)
  {
    if n == 0 {
    } else {
      hide PinnedTopic, DistinctIds;
      DistinctFront(topics, n);
      UnpinnedListed(topics, pins, n - 1);
      var front, t := Unpinned(topics, pins, n - 1), topics[n - 1];
      assert topics[..n] == topics[..n - 1] + [t];
      DistinctAppend(front, t);
    }
  }

  lemma RestDiffers(topics: seq<Topic>, c: nat)
    requires DistinctIds(topics) && c < |topics|
    ensures var rest := topics[..c] + topics[c + 1..];
            && DistinctIds(rest)
            && (forall t :: t in rest ==> t.id != topics[c].id)
            && (forall t :: t in topics <==> t == topics[c] || t in rest)
  {
    assert topics == topics[..c] + [topics[c]] + topics[c + 1..];
  }

  lemma DistinctPrepend(t: Topic, rest: seq<Topic>)
    requires DistinctIds(rest) && forall u :: u in rest ==> u.id != t.id
    ensures DistinctIds([t] + rest)
    ensures forall u :: u in [t] + rest <==> u == t || u in rest
  {
    forall i, j | 0 <= i < j < |[t] + rest|
      ensures ([t] + rest)[i].id != ([t] + rest)[j].id
    {
      assert rest[j - 1] in rest;
    }
  }

  lemma {:induction false} OrderIsDistinct(topics: seq<Topic>, rng: nat -> nat, pos: nat)
    requires Weighted(topics) && DistinctIds(topics)
    ensures DistinctIds(WeightedOrder(topics, rng, pos))
    ensures forall t :: t in WeightedOrder(topics, rng, pos) <==> t in topics
    decreases |topics|
  {
    if topics == [] {
    } else {
      TotalPositive(topics);
      var c := Chosen(topics, 0, rng(pos) % Total(topics, 0));
      RestDiffers(topics, c);
      OrderIsDistinct(topics[..c] + topics[c + 1..], rng, pos + 1);
      DistinctPrepend(topics[c], WeightedOrder(topics[..c] + topics[c + 1..], rng, pos + 1));
    }
  }

  lemma TailDiffers(order: seq<Topic>, i: nat)
    requires DistinctIds(order) && i < |order|
    ensures order[i..] == [order[i]] + order[i + 1..]
    ensures forall t :: t in order[i + 1..] ==> t.id != order[i].id
  {
  }

  lemma {:induction false} AcceptedComeFromOrder(env: Env, order: seq<Topic>, i: nat, free: seq<int>, j: nat,
                                                 spent: Option<set<string>>, pos: nat)
    requires i <= |order| && j <= |free| && DistinctIds(order)
    ensures DistinctIds(Accepted(env, order, i, free, j, spent, pos))
    ensures forall t :: t in Accepted(env, order, i, free, j, spent, pos) ==> t in order[i..]
    decreases |order| - i
  {
    if i < |order| && j < |free| {
      TailDiffers(order, i);
      var f := FillTopic(env, order[i].id, free[j], spent, pos);
      if f.Starved? {
        AcceptedComeFromOrder(env, order, i + 1, free, j, spent, f.next);
      } else {
        var spent' := Spend(env.lib, spent, f.entries);
        AcceptedComeFromOrder(env, order, i + 1, free, j + 1, spent', f.next);
        DistinctPrepend(order[i], Accepted(env, order, i + 1, free, j + 1, spent', f.next));
      }
    }
  }

  predicate ValidPins(pins: map<int, TopicId>) {
    && (forall p :: p in pins ==> 0 <= p < TOPICS_PER_DAY)
    && (forall p, q :: p in pins && q in pins && p != q ==> pins[p] != pins[q])
  }

  /** Three columns at positions 0, 1 and 2 with three different topics. */
  predicate ThreeColumns(slots: seq<Slot>) {
    && |slots| == 3
    && (forall m :: 0 <= m < 3 ==> 0 <= slots[m].position < 3)
    && (forall m, n :: 0 <= m < n < 3 ==> slots[m].position != slots[n].position && slots[m].topic != slots[n].topic)
  }

  /** A pinned position shows its pin; any other shows an active topic that is pinned nowhere. */
  predicate HonoursPins(lib: Library, pins: map<int, TopicId>, slots: seq<Slot>) {
    forall m :: 0 <= m < |slots| ==>
      if slots[m].position in pins then slots[m].topic == pins[slots[m].position]
      else !PinnedTopic(pins, slots[m].topic) && exists t :: t in lib.topics && t.id == slots[m].topic && t.active
  }

  lemma {:induction false} PinSlotsAt(pins: map<int, TopicId>, positions: seq<int>, n: nat)
    requires n <= |positions| && forall k :: 0 <= k < |positions| ==> positions[k] in pins
    ensures |PinSlots(pins, positions, n)| == n
    ensures forall m :: 0 <= m < n ==> PinSlots(pins, positions, n)[m] == Slot(positions[m], pins[positions[m]])
  {
    if n == 0 {
    } else {
      PinSlotsAt(pins, positions, n - 1);
    }
  }

  lemma {:induction false} FreeSlotsAt(free: seq<int>, j: nat, accepted: seq<Topic>, n: nat)
    requires n <= |accepted| && j + n <= |free|
    ensures |FreeSlots(free, j, accepted, n)| == n
    ensures forall m :: 0 <= m < n ==> FreeSlots(free, j, accepted, n)[m] == Slot(free[j + m], accepted[m].id)
  {
    if n == 0 {
    } else {
      FreeSlotsAt(free, j, accepted, n - 1);
      var front, last := FreeSlots(free, j, accepted, n - 1), Slot(free[j + n - 1], accepted[n - 1].id);
      assert FreeSlots(free, j, accepted, n) == front + [last];
      hide FreeSlots;
      assert forall m :: 0 <= m < n ==> (front + [last])[m] == if m < n - 1 then front[m] else last;
    }
  }

  predicate Ascending(s: seq<int>) {
    forall i, j :: 0 <= i < j < |s| ==> s[i] < s[j]
  }

  lemma {:induction false} PositionsSplit(pins: map<int, TopicId>, n: nat)
    ensures |SortedPositions(pins, n)| + |FreePositions(pins, n)| == n
    ensures Ascending(SortedPositions(pins, n)) && Ascending(FreePositions(pins, n))
  {
    if n == 0 {
    } else {
      PositionsSplit(pins, n - 1);
      if n - 1 in pins {
        AscendingAppend(SortedPositions(pins, n - 1), n - 1);
        assert FreePositions(pins, n) == FreePositions(pins, n - 1);
      } else {
        AscendingAppend(FreePositions(pins, n - 1), n - 1);
        assert SortedPositions(pins, n) == SortedPositions(pins, n - 1);
      }
    }
  }

  lemma AscendingAppend(s: seq<int>, x: int)
    requires Ascending(s) && forall p :: p in s ==> p < x
    ensures Ascending(s + [x])
  {
    forall i, j | 0 <= i < j < |s + [x]|
      ensures (s + [x])[i] < (s + [x])[j]
    {
      assert s[i] in s;
    }
  }

  /** The pinned columns and then the free ones. */
  function Columns(pins: map<int, TopicId>, positions: seq<int>, free: seq<int>, accepted: seq<Topic>): seq<Slot>
    requires forall k :: 0 <= k < |positions| ==> positions[k] in pins
    requires |accepted| <= |free|
  {
    PinSlots(pins, positions, |positions|) + FreeSlots(free, 0, accepted, |accepted|)
  }

  lemma ColumnAt(pins: map<int, TopicId>, positions: seq<int>, free: seq<int>, accepted: seq<Topic>, m: nat)
    requires forall k :: 0 <= k < |positions| ==> positions[k] in pins
    requires |accepted| <= |free| && m < |positions| + |accepted|
    ensures var slots := Columns(pins, positions, free, accepted);
            && |slots| == |positions| + |accepted|
            && slots[m] == if m < |positions| then Slot(positions[m], pins[positions[m]])
                           else Slot(free[m - |positions|], accepted[m - |positions|].id)
  {
    PinSlotsAt(pins, positions, |positions|);
    FreeSlotsAt(free, 0, accepted, |accepted|);
  }

  lemma ColumnsDiffer(pins: map<int, TopicId>, positions: seq<int>, free: seq<int>, accepted: seq<Topic>, m: nat,
                      n: nat)
    requires ValidPins(pins) && Ascending(positions) && Ascending(free) && DistinctIds(accepted) && |accepted| == |free|
    requires (forall k :: 0 <= k < |positions| ==> positions[k] in pins) && forall p :: p in free ==> p !in pins
    requires forall t :: t in accepted ==> !PinnedTopic(pins, t.id)
    requires m < n < |positions| + |accepted|
    ensures var slots := Columns(pins, positions, free, accepted);
            && |slots| == |positions| + |accepted|
            && slots[m].position != slots[n].position && slots[m].topic != slots[n].topic
  {
    ColumnAt(pins, positions, free, accepted, m);
    ColumnAt(pins, positions, free, accepted, n);
    if n >= |positions| {
      assert free[n - |positions|] in free && accepted[n - |positions|] in accepted;
    }
  }

  lemma SlotsAreColumns(lib: Library, pins: map<int, TopicId>, positions: seq<int>, free: seq<int>,
                        accepted: seq<Topic>)
    requires ValidPins(pins) && Ascending(positions) && Ascending(free) && DistinctIds(accepted) && |accepted| == |free|
    requires |positions| + |free| == 3
    requires forall k :: 0 <= k < |positions| ==> positions[k] in pins
    requires forall p :: p in free ==> p !in pins && 0 <= p < 3
    requires forall t :: t in accepted ==> t in lib.topics && t.active && !PinnedTopic(pins, t.id)
    ensures ThreeColumns(Columns(pins, positions, free, accepted))
    ensures HonoursPins(lib, pins, Columns(pins, positions, free, accepted))
  {
    var slots := Columns(pins, positions, free, accepted);
    forall m, n | 0 <= m < n < 3
      ensures |slots| == 3 && slots[m].position != slots[n].position && slots[m].topic != slots[n].topic
    {
      ColumnsDiffer(pins, positions, free, accepted, m, n);
    }
    ColumnsDiffer(pins, positions, free, accepted, 0, 1);
    forall m | 0 <= m < 3
      ensures 0 <= slots[m].position < 3
      ensures if slots[m].position in pins then slots[m].topic == pins[slots[m].position]
              else
                && !PinnedTopic(pins, slots[m].topic)
                && exists t :: t in lib.topics && t.id == slots[m].topic && t.active
    {
      ColumnAt(pins, positions, free, accepted, m);
      if m >= |positions| {
        assert free[m - |positions|] in free && accepted[m - |positions|] in accepted;
      }
    }
  }

  /** What is known of a freshly made board, with the answers it has spent. */
  ghost predicate SoundBoard(env: Env, pins: map<int, TopicId>, board: seq<Entry>, slots: seq<Slot>) {
    && Shaped(board, slots) && ThreeColumns(slots) && HonoursPins(env.lib, pins, slots)
    && AllEligible(env, board)
    && AnswersOk(env, board, Spend(env.lib, AnswersUsedNear(env), board))
  }

  /** The topics accepted for free positions are unpinned, active and all different. */
  lemma AcceptedAreCandidates(env: Env, pins: map<int, TopicId>, order: seq<Topic>, free: seq<int>,
                              spent: Option<set<string>>, pos: nat, pos': nat)
    requires ValidLibrary(env.lib) && order == CandidateOrder(env, pins, pos)
    ensures var accepted := Accepted(env, order, 0, free, 0, spent, pos');
            && DistinctIds(accepted)
            && forall t :: t in accepted ==> t in env.lib.topics && t.active && !PinnedTopic(pins, t.id)
  {
    var candidates := Unpinned(env.lib.topics, pins, |env.lib.topics|);
    UnpinnedListed(env.lib.topics, pins, |env.lib.topics|);
    assert env.lib.topics[..|env.lib.topics|] == env.lib.topics;
    OrderIsDistinct(candidates, env.rng, pos);
    AcceptedComeFromOrder(env, order, 0, free, 0, spent, pos');
    var accepted := Accepted(env, order, 0, free, 0, spent, pos');
    forall t | t in accepted
      ensures t in candidates
    {
      assert t in order[0..] && order[0..] == order;
    }
  }

  lemma PinLoopLays(env: Env, pins: map<int, TopicId>, positions: seq<int>, p: PinsResult)
    requires ValidLibrary(env.lib) && forall k :: 0 <= k < |positions| ==> positions[k] in pins
    requires p == FillPins(env, pins, positions, 0, [], AnswersUsedNear(env), 0) && p.PinsDone?
    ensures PartOk(env, p.entries, PinSlots(pins, positions, |positions|), p.spent)
  {
    hide Shaped, AllEligible, AnswersOk;
    EmptyPart(env);
    PinsAreLaid(env, pins, positions, 0, [], AnswersUsedNear(env), 0);
  }

  lemma FreeLoopLays(env: Env, done: seq<Entry>, slots: seq<Slot>, free: seq<int>, order: seq<Topic>,
                     spent: Option<set<string>>, pos: nat)
    requires ValidLibrary(env.lib) && PartOk(env, done, slots, spent)
    ensures var r, accepted := LaySlots(env, order, free, done, spent, pos),
            Accepted(env, order, 0, free, 0, spent, pos);
            r.filled == |accepted| <= |free|
              && PartOk(env, r.entries, slots + FreeSlots(free, 0, accepted, |accepted|), r.spent)
  {
    FreeAreLaid(env, order, 0, free, 0, done, slots, [], spent, pos);
  }

  lemma ColumnsAreSound(env: Env, pins: map<int, TopicId>, positions: seq<int>, free: seq<int>, accepted: seq<Topic>,
                        board: seq<Entry>, spent: Option<set<string>>)
    requires ValidPins(pins) && Ascending(positions) && Ascending(free) && DistinctIds(accepted) && |accepted| == |free|
    requires |positions| + |free| == 3
    requires forall k :: 0 <= k < |positions| ==> positions[k] in pins
    requires forall p :: p in free ==> p !in pins && 0 <= p < 3
    requires forall t :: t in accepted ==> t in env.lib.topics && t.active && !PinnedTopic(pins, t.id)
    requires PartOk(env, board, Columns(pins, positions, free, accepted), spent)
    ensures SoundBoard(env, pins, board, Columns(pins, positions, free, accepted))
  {
    SlotsAreColumns(env.lib, pins, positions, free, accepted);
    SpentIsSpend(env, board, spent);
  }

  /** The two loops behind an outcome. */
  lemma Unfold(env: Env, pins: map<int, TopicId>, positions: seq<int>, free: seq<int>)
    returns (p: PinsResult, order: seq<Topic>)
    requires ValidLibrary(env.lib) && forall k :: 0 <= k < |positions| ==> positions[k] in pins
    requires !GenerateOn(env, pins, positions, free).PinnedTopicStarved?
    ensures p == FillPins(env, pins, positions, 0, [], AnswersUsedNear(env), 0) && p.PinsDone?
    ensures order == CandidateOrder(env, pins, p.next)
    ensures GenerateOn(env, pins, positions, free)
            == Outcome(|positions|, LaySlots(env, order, free, p.entries, p.spent, p.next + |order|))
  {
    p := FillPins(env, pins, positions, 0, [], AnswersUsedNear(env), 0);
    order := CandidateOrder(env, pins, p.next);
  }

  /** Whatever the random stream, a board that is made is a sound one. */
  lemma MadeBoardsAreSound(env: Env, pins: map<int, TopicId>) returns (slots: seq<Slot>)
    requires ValidLibrary(env.lib) && ValidPins(pins) && Generate(env, pins).Made?
    ensures SoundBoard(env, pins, Generate(env, pins).board, slots)
  {
    var positions, free := SortedPositions(pins, TOPICS_PER_DAY), FreePositions(pins, TOPICS_PER_DAY);
    PositionsSplit(pins, TOPICS_PER_DAY);
    var p, order := Unfold(env, pins, positions, free);
    slots := LoopsAreSound(env, pins, positions, free, order, p);
  }

  /** Both loops keep the shape, the eligibility and the answer rule. */
  lemma LoopsLay(env: Env, pins: map<int, TopicId>, positions: seq<int>, free: seq<int>, order: seq<Topic>,
                 p: PinsResult, accepted: seq<Topic>)
    requires ValidLibrary(env.lib) && forall k :: 0 <= k < |positions| ==> positions[k] in pins
    requires p == FillPins(env, pins, positions, 0, [], AnswersUsedNear(env), 0) && p.PinsDone?
    requires accepted == Accepted(env, order, 0, free, 0, p.spent, p.next + |order|)
    ensures var r := LaySlots(env, order, free, p.entries, p.spent, p.next + |order|);
            r.filled == |accepted| <= |free|
              && PartOk(env, r.entries, Columns(pins, positions, free, accepted), r.spent)
  {
    hide PartOk, Accepted, FillFree, FillPins, PinSlots, FreeSlots;
    PinLoopLays(env, pins, positions, p);
    FreeLoopLays(env, p.entries, PinSlots(pins, positions, |positions|), free, order, p.spent, p.next + |order|);
  }

  lemma LoopsAreSound(env: Env, pins: map<int, TopicId>, positions: seq<int>, free: seq<int>, order: seq<Topic>,
                      p: PinsResult) returns (slots: seq<Slot>)
    requires ValidLibrary(env.lib) && ValidPins(pins) && Ascending(positions) && Ascending(free)
             && |positions| + |free| == 3
    requires forall k :: 0 <= k < |positions| ==> positions[k] in pins
    requires forall p :: p in free ==> p !in pins && 0 <= p < 3
    requires p == FillPins(env, pins, positions, 0, [], AnswersUsedNear(env), 0) && p.PinsDone?
    requires order == CandidateOrder(env, pins, p.next)
    requires LaySlots(env, order, free, p.entries, p.spent, p.next + |order|).filled >= |free|
    ensures SoundBoard(env, pins, LaySlots(env, order, free, p.entries, p.spent, p.next + |order|).entries, slots)
  {
    hide PartOk, SoundBoard, Accepted, FillFree, FillPins, Columns, CandidateOrder;
    var accepted := Accepted(env, order, 0, free, 0, p.spent, p.next + |order|);
    AcceptedAreCandidates(env, pins, order, free, p.spent, p.next, p.next + |order|);
    LoopsLay(env, pins, positions, free, order, p, accepted);
    var r := LaySlots(env, order, free, p.entries, p.spent, p.next + |order|);
    ColumnsAreSound(env, pins, positions, free, accepted, r.entries, r.spent);
    slots := Columns(pins, positions, free, accepted);
  }

  /** What has been spent is what was used nearby and what the board has. */
  lemma SpentIsSpend(env: Env, board: seq<Entry>, spent: Option<set<string>>)
    requires AnswersOk(env, board, spent)
    ensures spent == Spend(env.lib, AnswersUsedNear(env), board)
  {
  }

  lemma EmptyPart(env: Env)
    ensures PartOk(env, [], [], AnswersUsedNear(env))
  {
    assert Keys(env.lib, []) == {};
    if AnswersUsedNear(env).Some? {
      assert AnswersUsedNear(env).value + {} == AnswersUsedNear(env).value;
    }
  }

  // ----- A board of nine cells -----

  /** Every position and difficulty is there exactly once. */
  lemma EveryCellOnce(board: seq<Entry>, slots: seq<Slot>, position: int, d: Difficulty) returns (at: nat)
    requires Shaped(board, slots) && ThreeColumns(slots) && 0 <= position < 3
    ensures |board| == 9 && at < 9
    ensures forall i :: 0 <= i < 9 ==> (board[i].position == position && board[i].difficulty == d <==> i == at)
  {
    var m: nat := if slots[0].position == position then 0 else if slots[1].position == position then 1 else 2;
    var j: nat := match d case Easy => 0 case Medium => 1 case Hard => 2;
    at := 3 * m + j;
    forall i | 0 <= i < 9
      ensures board[i].position == position && board[i].difficulty == d <==> i == at
    {
      assert Cell(board[i], slots[i / 3], i % 3);
      assert i == 3 * (i / 3) + i % 3;
    }
  }

  /** Nine different questions: two cells differ in topic or in difficulty, and a question has one of each. */
  lemma QuestionsDiffer(env: Env, board: seq<Entry>, slots: seq<Slot>)
    requires Shaped(board, slots) && ThreeColumns(slots) && AllEligible(env, board)
    ensures forall i, j :: 0 <= i < j < |board| ==> board[i].question != board[j].question
  {
    forall i, j | 0 <= i < j < |board|
      ensures board[i].question != board[j].question
    {
      assert Cell(board[i], slots[i / 3], i % 3) && Cell(board[j], slots[j / 3], j % 3);
      assert i == 3 * (i / 3) + i % 3 && j == 3 * (j / 3) + j % 3;
    }
  }

  // ----- When no board can be made -----

  /** The topics the generator may choose from. */
  predicate Choosable(lib: Library, pins: map<int, TopicId>, t: Topic) {
    t in lib.topics && t.active && !PinnedTopic(pins, t.id)
  }

  ghost predicate IsChoosableId(lib: Library, pins: map<int, TopicId>, id: TopicId) {
    exists t :: Choosable(lib, pins, t) && t.id == id
  }

  lemma OrderIsChoosable(env: Env, pins: map<int, TopicId>, pos: nat)
    requires ValidLibrary(env.lib)
    ensures DistinctIds(CandidateOrder(env, pins, pos))
    ensures forall t :: t in CandidateOrder(env, pins, pos) <==> Choosable(env.lib, pins, t)
  {
    UnpinnedListed(env.lib.topics, pins, |env.lib.topics|);
    assert env.lib.topics[..|env.lib.topics|] == env.lib.topics;
    OrderIsDistinct(Unpinned(env.lib.topics, pins, |env.lib.topics|), env.rng, pos);
  }

  lemma {:induction false} IdsOnce(order: seq<Topic>, i: nat, id: TopicId)
    requires i <= |order| && DistinctIds(order)
    ensures IdsFrom(order, i)[id] == if exists k :: i <= k < |order| && order[k].id == id then 1 else 0
    decreases |order| - i
  {
    if i == |order| {
    } else {
      IdsOnce(order, i + 1, id);
    }
  }

  lemma EachIdOnce(env: Env, pins: map<int, TopicId>, order: seq<Topic>, id: TopicId)
    requires DistinctIds(order) && forall t :: t in order <==> Choosable(env.lib, pins, t)
    ensures IdsFrom(order, 0)[id] == if IsChoosableId(env.lib, pins, id) then 1 else 0
  {
    IdsOnce(order, 0, id);
    if t :| Choosable(env.lib, pins, t) && t.id == id {
      assert t in order;
    }
  }

  /** Each choosable topic exactly once, accepted or starved, and no other. */
  ghost predicate AccountsForAll(env: Env, pins: map<int, TopicId>, starved: seq<StarvedTopic>, accepted: seq<Topic>) {
    forall id :: StarvedIds(starved)[id] + IdsFrom(accepted, 0)[id] == if IsChoosableId(env.lib, pins, id) then 1 else 0
  }

  /** What the loops of a run that falls short come to: the pins that were filled, the order the
      topics were tried in, and where the last loop stopped. */
  ghost predicate IsShortage(env: Env, pins: map<int, TopicId>, p: PinsResult, order: seq<Topic>, r: FreeResult)
    requires ValidLibrary(env.lib)
  {
    && p == FillPins(env, pins, SortedPositions(pins, TOPICS_PER_DAY), 0, [], AnswersUsedNear(env), 0) && p.PinsDone?
    && order == CandidateOrder(env, pins, p.next)
    && r == LaySlots(env, order, FreePositions(pins, TOPICS_PER_DAY), p.entries, p.spent, p.next + |order|)
  }

  /** A shortage counts the pins and the accepted topics, accounts for every choosable topic once,
      gives reasons that were true when each topic was tried, and has spent the answers used nearby
      and those of the picks it kept, and no others. */
  lemma ShortageIsExplained(env: Env, pins: map<int, TopicId>)
    returns (p: PinsResult, order: seq<Topic>, r: FreeResult, accepted: seq<Topic>)
    requires ValidLibrary(env.lib) && ValidPins(pins) && Generate(env, pins).InsufficientContent?
    ensures IsShortage(env, pins, p, order, r)
    ensures Generate(env, pins) == InsufficientContent(|pins| + |accepted|, r.starved)
            && |pins| + |accepted| < TOPICS_PER_DAY
    ensures AccountsForAll(env, pins, r.starved, accepted)
    ensures AllTrue(env, order, |pins|, r.starved, r.entries)
    ensures r.spent == Spend(env.lib, AnswersUsedNear(env), r.entries)
    ensures |accepted| <= |FreePositions(pins, TOPICS_PER_DAY)|
    ensures PartOk(env, r.entries,
                   Columns(pins, SortedPositions(pins, TOPICS_PER_DAY), FreePositions(pins, TOPICS_PER_DAY),
                           accepted), r.spent)
  {
    hide PartOk, AccountsForAll, AllTrue, Columns, CandidateOrder, LaySlots, FillPins, Spend;
    var positions, free := SortedPositions(pins, TOPICS_PER_DAY), FreePositions(pins, TOPICS_PER_DAY);
    PositionsSplit(pins, TOPICS_PER_DAY);
    AllPinsCounted(pins);
    p, order := Unfold(env, pins, positions, free);
    r, accepted := LoopsExplain(env, pins, positions, free, order, p);
  }

  lemma LoopsExplain(env: Env, pins: map<int, TopicId>, positions: seq<int>, free: seq<int>, order: seq<Topic>,
                     p: PinsResult)
    returns (r: FreeResult, accepted: seq<Topic>)
    requires ValidLibrary(env.lib) && forall k :: 0 <= k < |positions| ==> positions[k] in pins
    requires p == FillPins(env, pins, positions, 0, [], AnswersUsedNear(env), 0) && p.PinsDone?
    requires order == CandidateOrder(env, pins, p.next)
    requires LaySlots(env, order, free, p.entries, p.spent, p.next + |order|).filled < |free|
    ensures r == LaySlots(env, order, free, p.entries, p.spent, p.next + |order|) && r.filled == |accepted| <= |free|
    ensures AccountsForAll(env, pins, r.starved, accepted)
    ensures AllTrue(env, order, |positions|, r.starved, r.entries)
    ensures r.spent == Spend(env.lib, AnswersUsedNear(env), r.entries)
    ensures PartOk(env, r.entries, Columns(pins, positions, free, accepted), r.spent)
  {
    hide PartOk, AccountsForAll, AllTrue, Accepted, FillFree, FillPins, Columns, CandidateOrder, PinSlots, Spend;
    var pos := p.next + |order|;
    r := LaySlots(env, order, free, p.entries, p.spent, pos);
    accepted := Accepted(env, order, 0, free, 0, p.spent, pos);
    LoopsLay(env, pins, positions, free, order, p, accepted);
    SpentOfPart(env, r.entries, Columns(pins, positions, free, accepted), r.spent);
    PinLoopLays(env, pins, positions, p);
    PinSlotsAt(pins, positions, |positions|);
    OrderIsChoosable(env, pins, p.next);
    LaySlotsExplains(env, pins, order, free, p.entries, PinSlots(pins, positions, |positions|), p.spent, pos);
  }

  lemma SpentOfPart(env: Env, board: seq<Entry>, slots: seq<Slot>, spent: Option<set<string>>)
    requires PartOk(env, board, slots, spent)
    ensures spent == Spend(env.lib, AnswersUsedNear(env), board)
  {
    hide Shaped, AllEligible, AnswersOk;
    SpentIsSpend(env, board, spent);
  }

  lemma LaySlotsExplains(env: Env, pins: map<int, TopicId>, order: seq<Topic>, free: seq<int>, done: seq<Entry>,
                         slots: seq<Slot>,
                         spent: Option<set<string>>, pos: nat)
    requires ValidLibrary(env.lib) && PartOk(env, done, slots, spent)
    requires DistinctIds(order) && forall t :: t in order <==> Choosable(env.lib, pins, t)
    requires LaySlots(env, order, free, done, spent, pos).filled < |free|
    ensures var r := LaySlots(env, order, free, done, spent, pos);
            && AccountsForAll(env, pins, r.starved, Accepted(env, order, 0, free, 0, spent, pos))
            && AllTrue(env, order, |slots|, r.starved, r.entries)
  {
    assert AllTrue(env, order, |slots|, [], done);
    hide PartOk, AllTrue, Accepted, FillFree, Choosable, AccountsForAll, Balanced, ValidLibrary, DistinctIds;
    FreeAreJustified(env, order, 0, free, 0, |slots|, done, slots, [], spent, pos);
    FreeAreAccounted(env, order, 0, free, 0, done, [], spent, pos);
    BalancedAccounts(env, pins, LaySlots(env, order, free, done, spent, pos),
                     Accepted(env, order, 0, free, 0, spent, pos), order);
  }

  lemma BalancedAccounts(env: Env, pins: map<int, TopicId>, r: FreeResult, accepted: seq<Topic>, order: seq<Topic>)
    requires DistinctIds(order) && forall t :: t in order <==> Choosable(env.lib, pins, t)
    requires Balanced(r, accepted, [], order, 0)
    ensures AccountsForAll(env, pins, r.starved, accepted)
  {
    hide Choosable, IsChoosableId, IdsFrom, DistinctIds;
    forall id
      ensures StarvedIds(r.starved)[id] + IdsFrom(accepted, 0)[id] == if IsChoosableId(env.lib, pins, id) then 1 else 0
    {
      EachIdOnce(env, pins, order, id);
      assert StarvedIds([])[id] == 0;
    }
  }

  // ----- When a pin cannot be kept -----

  lemma {:induction false} PinsStarveTruly(env: Env, pins: map<int, TopicId>, positions: seq<int>, i: nat,
                                           done: seq<Entry>,
                                           spent: Option<set<string>>, pos: nat) returns (n: nat, before: seq<Entry>)
    requires ValidLibrary(env.lib) && i <= |positions| && forall k :: 0 <= k < |positions| ==> positions[k] in pins
    requires PartOk(env, done, PinSlots(pins, positions, i), spent)
    requires FillPins(env, pins, positions, i, done, spent, pos).PinStarved?
    ensures var r := FillPins(env, pins, positions, i, done, spent, pos);
            && i <= n < |positions| && r.position == positions[n] && r.starved.topic == pins[positions[n]]
            && PartOk(env, before, PinSlots(pins, positions, n), Spend(env.lib, AnswersUsedNear(env), before))
            && TrueReason(env, r.starved, before)
    decreases |positions| - i
  {
    hide PartOk, FillTopic, TrueReason, ValidLibrary;
    var p := positions[i];
    var f := FillTopic(env, pins[p], p, spent, pos);
    if f.Filled? {
      AddPick(env, done, PinSlots(pins, positions, i), spent, pins[p], p, pos);
      n, before := PinsStarveTruly(env, pins, positions, i + 1, done + f.entries, Spend(env.lib, spent, f.entries),
                                   f.next);
    } else {
      n, before := i, done;
      SpentOfPart(env, done, PinSlots(pins, positions, i), spent);
      StarvedIsTrue(env, pins[p], p, done, PinSlots(pins, positions, i), spent, pos);
    }
  }

  /** A pin is starved only by the nearby days, the pins before it and its own easier picks: the
      columns its reason is true of are those of the pinned positions to its left. */
  lemma PinsStarveOnlyByPins(env: Env, pins: map<int, TopicId>) returns (n: nat, before: seq<Entry>)
    requires ValidLibrary(env.lib) && Generate(env, pins).PinnedTopicStarved?
    ensures var r, positions := Generate(env, pins), SortedPositions(pins, TOPICS_PER_DAY);
            && n < |positions| && r.position == positions[n] && r.starved.topic == pins[positions[n]]
            && PartOk(env, before, PinSlots(pins, positions, n), Spend(env.lib, AnswersUsedNear(env), before))
            && TrueReason(env, r.starved, before)
  {
    var positions, free := SortedPositions(pins, TOPICS_PER_DAY), FreePositions(pins, TOPICS_PER_DAY);
    EmptyPart(env);
    UnfoldStarved(env, pins, positions, free);
    hide PartOk, TrueReason, FillPins;
    n, before := PinsStarveTruly(env, pins, positions, 0, [], AnswersUsedNear(env), 0);
  }

  // ----- When a board can be made, with the answer rule off -----

  /** The choosable topics that could fill a column. */
  ghost function Fillable(env: Env, pins: map<int, TopicId>): set<Topic> {
    set t | t in env.lib.topics && Choosable(env.lib, pins, t) && CanFill(env, t.id)
  }

  /** The fillable topics of the order from the `i`-th on. */
  ghost function FillableFrom(env: Env, order: seq<Topic>, i: nat): set<Topic>
    requires i <= |order|
    decreases |order| - i
  {
    if i == |order| then {} else FillableFrom(env, order, i + 1) + (if CanFill(env, order[i].id) then {order[i]}
            else {})
  }

  lemma {:induction false} FillableFromHolds(env: Env, order: seq<Topic>, i: nat)
    requires i <= |order|
    ensures forall t :: t in FillableFrom(env, order, i) <==> t in order[i..] && CanFill(env, t.id)
    decreases |order| - i
  {
    hide CanFill;
    if i == |order| {
    } else {
      FillableFromHolds(env, order, i + 1);
      assert order[i..] == [order[i]] + order[i + 1..];
    }
  }

  /** The free positions filled are as many as there are positions, or topics able to fill one. */
  lemma {:induction false} FillsWhatItCan(env: Env, order: seq<Topic>, i: nat, free: seq<int>, j: nat,
                                          done: seq<Entry>, starved: seq<StarvedTopic>, pos: nat)
    requires ValidLibrary(env.lib) && i <= |order| && j <= |free| && DistinctIds(order)
    ensures var r, n := FillFree(env, order, i, free, j, done, starved, None, pos), |FillableFrom(env, order, i)|;
            r.filled == if j + n <= |free| then j + n else |free|
    decreases |order| - i
  {
    hide CanFill;
    if i < |order| && j < |free| {
      FillableFromHolds(env, order, i + 1);
      TailDiffers(order, i);
      assert order[i] !in FillableFrom(env, order, i + 1);
      FillsIffCan(env, order[i].id, free[j], pos);
      var f := FillTopic(env, order[i].id, free[j], None, pos);
      if f.Starved? {
        FillsWhatItCan(env, order, i + 1, free, j, done, starved + [f.starved], f.next);
      } else {
        FillsWhatItCan(env, order, i + 1, free, j + 1, done + f.entries, starved, f.next);
      }
    }
  }

  lemma FillsIffCan(env: Env, topic: TopicId, position: int, pos: nat)
    requires ValidLibrary(env.lib)
    ensures FillTopic(env, topic, position, None, pos).Filled? <==> CanFill(env, topic)
  {
    FillsIffItCan(env, topic, position, {}, 0, pos);
  }

  lemma {:induction false} PinsFillIffTheyCan(env: Env, pins: map<int, TopicId>, positions: seq<int>, i: nat,
                                              done: seq<Entry>, pos: nat)
    requires ValidLibrary(env.lib) && i <= |positions| && forall k :: 0 <= k < |positions| ==> positions[k] in pins
    ensures var r := FillPins(env, pins, positions, i, done, None, pos);
            && (r.PinsDone? <==> forall k :: i <= k < |positions| ==> CanFill(env, pins[positions[k]]))
            && (r.PinsDone? ==> r.spent == None)
    decreases |positions| - i
  {
    hide CanFill;
    if i == |positions| {
    } else {
      var p := positions[i];
      FillsIffCan(env, pins[p], p, pos);
      var f := FillTopic(env, pins[p], p, None, pos);
      if f.Filled? {
        PinsFillIffTheyCan(env, pins, positions, i + 1, done + f.entries, f.next);
      }
    }
  }

  lemma {:induction false} PositionsListed(pins: map<int, TopicId>, n: nat)
    ensures forall p :: p in SortedPositions(pins, n) <==> p in pins && 0 <= p < n
    ensures forall p :: p in FreePositions(pins, n) <==> p !in pins && 0 <= p < n
  {
    if n == 0 {
    } else {
      PositionsListed(pins, n - 1);
    }
  }

  lemma LaysWhatItCan(env: Env, pins: map<int, TopicId>, order: seq<Topic>, free: seq<int>, done: seq<Entry>, at: nat,
                      pos: nat)
    requires ValidLibrary(env.lib) && order == CandidateOrder(env, pins, at)
    ensures var n := |Fillable(env, pins)|;
            LaySlots(env, order, free, done, None, pos).filled == if n <= |free| then n else |free|
  {
    hide CanFill, CandidateOrder, FillFree;
    OrderIsChoosable(env, pins, at);
    FillableFromHolds(env, order, 0);
    assert order[0..] == order;
    assert FillableFrom(env, order, 0) == Fillable(env, pins);
    FillsWhatItCan(env, order, 0, free, 0, done, [], pos);
  }

  lemma PinsFillIffAllCan(env: Env, pins: map<int, TopicId>, positions: seq<int>)
    requires ValidLibrary(env.lib) && env.cfg.answerCooldownDays <= 0
    requires forall k :: 0 <= k < |positions| ==> positions[k] in pins
    requires forall p :: p in pins ==> p in positions
    ensures var r := FillPins(env, pins, positions, 0, [], AnswersUsedNear(env), 0);
            && (r.PinsDone? <==> forall p :: p in pins ==> CanFill(env, pins[p]))
            && (r.PinsDone? ==> r.spent == None)
  {
    hide FillPins;
    PinsFillIffTheyCan(env, pins, positions, 0, [], 0);
    assert AnswersUsedNear(env) == None;
    if FillPins(env, pins, positions, 0, [], None, 0).PinsDone? {
      forall p | p in pins
        ensures CanFill(env, pins[p])
      {
        var k :| 0 <= k < |positions| && positions[k] == p;
      }
    } else {
      var k :| 0 <= k < |positions| && !CanFill(env, pins[positions[k]]);
      var p := positions[k];
      assert p in pins && !CanFill(env, pins[p]);
    }
  }

  lemma UnfoldStarved(env: Env, pins: map<int, TopicId>, positions: seq<int>, free: seq<int>)
    requires ValidLibrary(env.lib) && forall k :: 0 <= k < |positions| ==> positions[k] in pins
    ensures GenerateOn(env, pins, positions, free).PinnedTopicStarved?
            <==> FillPins(env, pins, positions, 0, [], AnswersUsedNear(env), 0).PinStarved?
  {
    hide FillPins, LaySlots, CandidateOrder;
  }

  lemma {:induction false} PinsCounted(pins: map<int, TopicId>, n: nat)
    ensures |SortedPositions(pins, n)| == |set p | p in pins && 0 <= p < n|
  {
    if n == 0 {
      assert (set p | p in pins && 0 <= p < n) == {};
    } else {
      PinsCounted(pins, n - 1);
      var before, now := set p | p in pins && 0 <= p < n - 1, set p | p in pins && 0 <= p < n;
      assert now == if n - 1 in pins then before + {n - 1} else before;
    }
  }

  lemma AllPinsCounted(pins: map<int, TopicId>)
    requires ValidPins(pins)
    ensures |SortedPositions(pins, TOPICS_PER_DAY)| == |pins|
  {
    PinsCounted(pins, TOPICS_PER_DAY);
    assert (set p | p in pins && 0 <= p < TOPICS_PER_DAY) == pins.Keys;
  }

  lemma MadeOnIffFillable(env: Env, pins: map<int, TopicId>, positions: seq<int>, free: seq<int>)
    requires ValidLibrary(env.lib) && env.cfg.answerCooldownDays <= 0 && |positions| + |free| == 3
    requires forall k :: 0 <= k < |positions| ==> positions[k] in pins
    requires forall p :: p in pins ==> p in positions
    ensures GenerateOn(env, pins, positions, free).Made? <==>
              && (forall p :: p in pins ==> CanFill(env, pins[p]))
              && |Fillable(env, pins)| + |positions| >= 3
  {
    hide CanFill, FillPins, CandidateOrder, LaySlots, GenerateOn, Fillable;
    PinsFillIffAllCan(env, pins, positions);
    UnfoldStarved(env, pins, positions, free);
    if !GenerateOn(env, pins, positions, free).PinnedTopicStarved? {
      var p, order := Unfold(env, pins, positions, free);
      LaysWhatItCan(env, pins, order, free, p.entries, p.next, p.next + |order|);
    }
  }

  /** With the answer rule off a board is made exactly when every pinned topic can fill its
      column and enough other topics can fill the rest, whatever the random stream. */
  lemma MadeIffFillable(env: Env, pins: map<int, TopicId>)
    requires ValidLibrary(env.lib) && ValidPins(pins) && env.cfg.answerCooldownDays <= 0 && env.date !in env.boards
    ensures Generate(env, pins).Made? <==>
              && (forall p :: p in pins ==> CanFill(env, pins[p]))
              && |Fillable(env, pins)| + |pins| >= TOPICS_PER_DAY
  {
    hide CanFill, GenerateOn, Fillable;
    var positions, free := SortedPositions(pins, TOPICS_PER_DAY), FreePositions(pins, TOPICS_PER_DAY);
    PositionsSplit(pins, TOPICS_PER_DAY);
    PositionsListed(pins, TOPICS_PER_DAY);
    AllPinsCounted(pins);
    MadeOnIffFillable(env, pins, positions, free);
  }

  // ----- The order decides -----

  /** The first `n` topics of the order, each of which was either accepted or starved, both in that order. */
  ghost predicate Sifted(order: seq<Topic>, n: nat, accepted: seq<Topic>, starved: seq<StarvedTopic>)
    requires n <= |order|
  {
    if n == 0 then accepted == [] && starved == []
    else
      || (&& accepted != [] && accepted[|accepted| - 1] == order[n - 1]
          && Sifted(order, n - 1, accepted[..|accepted| - 1], starved))
      || (&& starved != [] && starved[|starved| - 1].topic == order[n - 1].id
          && Sifted(order, n - 1, accepted, starved[..|starved| - 1]))
  }

  lemma SiftAccepted(order: seq<Topic>, n: nat, accepted: seq<Topic>, starved: seq<StarvedTopic>)
    requires n < |order| && Sifted(order, n, accepted, starved)
    ensures Sifted(order, n + 1, accepted + [order[n]], starved)
  {
    assert (accepted + [order[n]])[..|accepted|] == accepted;
  }

  lemma SiftStarved(order: seq<Topic>, n: nat, accepted: seq<Topic>, starved: seq<StarvedTopic>, s: StarvedTopic)
    requires n < |order| && Sifted(order, n, accepted, starved) && s.topic == order[n].id
    ensures Sifted(order, n + 1, accepted, starved + [s])
  {
    assert (starved + [s])[..|starved|] == starved;
  }

  /** The loop tries the topics one after the other and stops as soon as the positions are filled. */
  lemma {:induction false} FreeAreSifted(env: Env, order: seq<Topic>, i: nat, free: seq<int>, j: nat,
                                         done: seq<Entry>, before: seq<Topic>, starved: seq<StarvedTopic>,
                                         spent: Option<set<string>>, pos: nat)
    returns (n: nat)
    requires i <= |order| && j <= |free| && Sifted(order, i, before, starved)
    ensures var r, accepted := FillFree(env, order, i, free, j, done, starved, spent, pos),
            Accepted(env, order, i, free, j, spent, pos);
            && i <= n <= |order| && Sifted(order, n, before + accepted, r.starved)
            && (r.filled < |free| ==> n == |order|)
            && (n > i && r.filled == |free| ==> accepted != [] && accepted[|accepted| - 1] == order[n - 1])
            && (j == |free| ==> n == i) && (accepted != [] ==> n > i)
    decreases |order| - i
  {
    hide FillTopic, Spend, Sifted;
    n := i;
    if i == |order| || j == |free| {
      assert before + [] == before;
    } else {
      var f := FillTopic(env, order[i].id, free[j], spent, pos);
      if f.Starved? {
        StarvedTopicNames(env, order[i].id, free[j], spent, pos);
        SiftStarved(order, i, before, starved, f.starved);
        n := FreeAreSifted(env, order, i + 1, free, j, done, before, starved + [f.starved], spent, f.next);
        FreeFilled(env, order, i + 1, free, j, done, starved + [f.starved], spent, f.next);
      } else {
        var spent' := Spend(env.lib, spent, f.entries);
        SiftAccepted(order, i, before, starved);
        n := FreeAreSifted(env, order, i + 1, free, j + 1, done + f.entries, before + [order[i]], starved, spent',
                           f.next);
        var rest := Accepted(env, order, i + 1, free, j + 1, spent', f.next);
        assert before + [order[i]] + rest == before + ([order[i]] + rest);
        FreeFilled(env, order, i + 1, free, j + 1, done + f.entries, starved, spent', f.next);
      }
    }
  }

  lemma {:induction false} FreeFilled(env: Env, order: seq<Topic>, i: nat, free: seq<int>, j: nat,
                                      done: seq<Entry>, starved: seq<StarvedTopic>, spent: Option<set<string>>,
                                      pos: nat)
    requires i <= |order| && j <= |free|
    ensures var r, accepted := FillFree(env, order, i, free, j, done, starved, spent, pos),
            Accepted(env, order, i, free, j, spent, pos);
            r.filled == j + |accepted| <= |free|
    decreases |order| - i
  {
    hide FillTopic, Spend;
    if i < |order| && j < |free| {
      var f := FillTopic(env, order[i].id, free[j], spent, pos);
      if f.Starved? {
        FreeFilled(env, order, i + 1, free, j, done, starved + [f.starved], spent, f.next);
      } else {
        FreeFilled(env, order, i + 1, free, j + 1, done + f.entries, starved, Spend(env.lib, spent, f.entries), f.next);
      }
    }
  }

  /** The free loop over an order, from the pins that are done: what it accepts, what it starves and where it stops. */
  lemma LaysInOrder(env: Env, order: seq<Topic>, free: seq<int>, done: seq<Entry>, slots: seq<Slot>,
                    spent: Option<set<string>>, pos: nat)
    returns (n: nat)
    requires ValidLibrary(env.lib) && PartOk(env, done, slots, spent)
    ensures var r, accepted := LaySlots(env, order, free, done, spent, pos),
            Accepted(env, order, 0, free, 0, spent, pos);
            && n <= |order| && Sifted(order, n, accepted, r.starved)
            && AllTrue(env, order, |slots|, r.starved, r.entries)
            && (r.filled == |free| ==>
                  if accepted == [] then n == 0 else n > 0 && order[n - 1] == accepted[|accepted| - 1])
  {
    assert AllTrue(env, order, |slots|, [], done);
    hide AllTrue, Accepted, FillFree, PartOk, ValidLibrary;
    n := FreeAreSifted(env, order, 0, free, 0, done, [], [], spent, pos);
    var accepted := Accepted(env, order, 0, free, 0, spent, pos);
    FreeFilled(env, order, 0, free, 0, done, [], spent, pos);
    assert [] + accepted == accepted;
    FreeAreJustified(env, order, 0, free, 0, |slots|, done, slots, [], spent, pos);
  }

  /** A board that was made has, after its pins, the first topics of the order that could be filled:
      those tried before them starved for true reasons, and the last one tried was the last one needed. */
  lemma MadeBoardsFollowTheOrder(env: Env, pins: map<int, TopicId>)
    returns (at: nat, order: seq<Topic>, n: nat, accepted: seq<Topic>, starved: seq<StarvedTopic>)
    requires ValidLibrary(env.lib) && ValidPins(pins) && Generate(env, pins).Made?
    ensures order == WeightedOrder(Unpinned(env.lib.topics, pins, |env.lib.topics|), env.rng, at)
    ensures |pins| + |accepted| == TOPICS_PER_DAY && |accepted| == |FreePositions(pins, TOPICS_PER_DAY)|
    ensures Shaped(Generate(env, pins).board,
                   Columns(pins, SortedPositions(pins, TOPICS_PER_DAY), FreePositions(pins, TOPICS_PER_DAY), accepted))
    ensures n <= |order| && Sifted(order, n, accepted, starved)
    ensures if accepted == [] then n == 0 else n > 0 && order[n - 1] == accepted[|accepted| - 1]
    ensures AllTrue(env, order, |pins|, starved, Generate(env, pins).board)
  {
    hide PartOk, AllTrue, Columns, CandidateOrder, LaySlots, FillPins, Spend, Sifted, Shaped;
    var positions, free := SortedPositions(pins, TOPICS_PER_DAY), FreePositions(pins, TOPICS_PER_DAY);
    PositionsSplit(pins, TOPICS_PER_DAY);
    AllPinsCounted(pins);
    var p, tried := Unfold(env, pins, positions, free);
    at, order := p.next, tried;
    OrderUnfolded(env, pins, at);
    n, accepted, starved := LoopsFollow(env, pins, positions, free, order, p);
  }

  lemma OrderUnfolded(env: Env, pins: map<int, TopicId>, at: nat)
    requires ValidLibrary(env.lib)
    ensures CandidateOrder(env, pins, at)
            == WeightedOrder(Unpinned(env.lib.topics, pins, |env.lib.topics|), env.rng, at)
  {
  }

  lemma LoopsFollow(env: Env, pins: map<int, TopicId>, positions: seq<int>, free: seq<int>, order: seq<Topic>,
                    p: PinsResult)
    returns (n: nat, accepted: seq<Topic>, starved: seq<StarvedTopic>)
    requires ValidLibrary(env.lib) && forall k :: 0 <= k < |positions| ==> positions[k] in pins
    requires p == FillPins(env, pins, positions, 0, [], AnswersUsedNear(env), 0) && p.PinsDone?
    requires LaySlots(env, order, free, p.entries, p.spent, p.next + |order|).filled >= |free|
    ensures var r := LaySlots(env, order, free, p.entries, p.spent, p.next + |order|);
            && |accepted| == |free| && Shaped(r.entries, Columns(pins, positions, free, accepted))
            && n <= |order| && Sifted(order, n, accepted, starved)
            && (if accepted == [] then n == 0 else n > 0 && order[n - 1] == accepted[|accepted| - 1])
            && AllTrue(env, order, |positions|, starved, r.entries)
  {
    hide AllTrue, Accepted, LaySlots, FillPins, Columns, PinSlots, ValidLibrary, AllEligible, AnswersOk, Shaped, Sifted;
    var pos := p.next + |order|;
    accepted := Accepted(env, order, 0, free, 0, p.spent, pos);
    LoopsLay(env, pins, positions, free, order, p, accepted);
    PinLoopLays(env, pins, positions, p);
    PinSlotsAt(pins, positions, |positions|);
    n := LaysInOrder(env, order, free, p.entries, PinSlots(pins, positions, |positions|), p.spent, pos);
    starved := LaySlots(env, order, free, p.entries, p.spent, pos).starved;
  }
}
