/** The request handlers of internal/play/play.go as they run on the tables.

    Each statement is a method that updates the tables in place; each handler
    is the sequence of statements its caller waits for.  Run with nobody else
    in between, a handler is proved to take exactly the steps the interleaved
    model gives it, and to end in the reply it returns. */
module RunHandlers {
  import opened Wrappers
  import opened RunLifecycle
  import opened QuestionImport
  import G = Grading
  import J = Judging

  datatype LoadResult = Refused | Got(run: Run, sheet: Sheet)

  /** Left to itself for `n` statements, the handler gets from one point to the other. */
  ghost predicate Alone(g: Game, t: Tables, h: Handler, n: nat, t': Tables, h': Handler) {
    if n == 0 then t' == t && h' == h
    else exists tm, hm :: Alone(g, t, h, n - 1, tm, hm) && Step(g, tm, hm, t', h')
  }

  /** Started on `t0`, the handler has reached this program counter on these tables. */
  ghost predicate Reaches(g: Game, t0: Tables, start: Handler, t: Tables, pc: Pc) {
    exists n: nat :: Alone(g, t0, start, n, t, start.(pc := pc))
  }

  lemma ReachesStart(g: Game, t: Tables, start: Handler)
    ensures Reaches(g, t, start, t, start.pc)
  {
    assert Alone(g, t, start, 0, t, start.(pc := start.pc));
  }

  lemma ReachesOn(g: Game, t0: Tables, start: Handler, t: Tables, pc: Pc, t': Tables, pc': Pc)
    requires Reaches(g, t0, start, t, pc)
    requires Step(g, t, start.(pc := pc), t', start.(pc := pc'))
    ensures Reaches(g, t0, start, t', pc')
  {
    var n: nat :| Alone(g, t0, start, n, t, start.(pc := pc));
    assert Alone(g, t0, start, n + 1, t', start.(pc := pc'));
  }

  // ----- Shuffling -----

  /** The `n`-th value and the one in place `j` change places. */
  function SwapLast(values: seq<string>, n: nat, j: nat): seq<string>
    requires j < n <= |values|
  {
    values[n - 1 := values[j]][j := values[n - 1]]
  }

  /** The first `n` values shuffled, last place first, by a stream of draws. */
  function Shuffled(values: seq<string>, n: nat, draws: nat -> nat, pos: nat): seq<string>
    requires n <= |values|
    decreases n
  {
    if n <= 1 then values else Shuffled(SwapLast(values, n, draws(pos) % n), n - 1, draws, pos + 1)
  }

  lemma SwapMeans(values: seq<string>, n: nat, j: nat)
    requires j < n <= |values|
    ensures |SwapLast(values, n, j)| == |values|
    ensures forall k :: 0 <= k < |values| ==>
              SwapLast(values, n, j)[k] == if k == j then values[n - 1] else if k == n - 1 then values[j] else values[k]
    ensures multiset(SwapLast(values, n, j)) == multiset(values)
  {
  }

  lemma {:induction false} ShufflingPermutes(values: seq<string>, n: nat, draws: nat -> nat, pos: nat)
    requires n <= |values|
    ensures multiset(Shuffled(values, n, draws, pos)) == multiset(values)
    decreases n
  {
    if n <= 1 {
    } else {
      var j := draws(pos) % n;
      ShufflingPermutes(SwapLast(values, n, j), n - 1, draws, pos + 1);
      SwapMeans(values, n, j);
    }
  }

  /** Only the draws from `pos` on matter. */
  lemma {:induction false} LaterDrawsDecide(values: seq<string>, n: nat, draws: nat -> nat, others: nat -> nat,
                                            pos: nat)
    requires n <= |values| && forall p :: p >= pos ==> draws(p) == others(p)
    ensures Shuffled(values, n, draws, pos) == Shuffled(values, n, others, pos)
    decreases n
  {
    if n <= 1 {
    } else {
      LaterDrawsDecide(SwapLast(values, n, draws(pos) % n), n - 1, draws, others, pos + 1);
    }
  }

  /** Places from `n` on stay as they are. */
  lemma {:induction false} PlacedStay(values: seq<string>, n: nat, draws: nat -> nat, pos: nat)
    requires n <= |values|
    ensures |Shuffled(values, n, draws, pos)| == |values|
    ensures forall k :: n <= k < |values| ==> Shuffled(values, n, draws, pos)[k] == values[k]
    decreases n
  {
    hide SwapLast;
    if n <= 1 {
    } else {
      var j := draws(pos) % n;
      SwapMeans(values, n, j);
      PlacedStay(SwapLast(values, n, j), n - 1, draws, pos + 1);
    }
  }

  /** The same values in the first `n` places, and the same value in every other. */
  predicate SameFront(values: seq<string>, n: nat, target: seq<string>) {
    && n <= |values| == |target|
    && (forall k :: n <= k < |values| ==> values[k] == target[k])
    && multiset(values[..n]) == multiset(target[..n])
  }

  lemma SwapKeepsFront(values: seq<string>, n: nat, target: seq<string>) returns (j: nat)
    requires n > 0 && SameFront(values, n, target)
    ensures j < n && SameFront(SwapLast(values, n, j), n - 1, target)
  {
    var front, goal := values[..n], target[..n];
    assert goal[n - 1] in multiset(front);
    j :| j < n && front[j] == goal[n - 1];
    hide SwapLast;
    SwapMeans(values, n, j);
    FrontsAgree(values, n, j, target);
  }

  lemma FrontsAgree(values: seq<string>, n: nat, j: nat, target: seq<string>)
    requires j < n <= |values| == |target| && values[j] == target[n - 1]
    requires multiset(values[..n]) == multiset(target[..n])
    ensures multiset(SwapLast(values, n, j)[..n - 1]) == multiset(target[..n - 1])
  {
    hide SwapLast;
    SwapsInFront(values, n, j);
    InitOf(SwapLast(values, n, j), n);
    InitOf(target, n);
  }

  lemma SwapsInFront(values: seq<string>, n: nat, j: nat)
    requires j < n <= |values|
    ensures var swapped := SwapLast(values, n, j);
            |swapped| == |values| && swapped[n - 1] == values[j] && multiset(swapped[..n]) == multiset(values[..n])
  {
    assert SwapLast(values, n, j)[..n] == SwapLast(values[..n], n, j);
    hide SwapLast;
    SwapMeans(values, n, j);
    SwapMeans(values[..n], n, j);
  }

  lemma InitOf(values: seq<string>, n: nat)
    requires 0 < n <= |values|
    ensures multiset(values[..n - 1]) == multiset(values[..n]) - multiset{values[n - 1]}
  {
    assert values[..n] == values[..n - 1] + [values[n - 1]];
  }

  /** Every order of the values comes from some draws. */
  lemma {:induction false} EveryOrderIsDrawn(values: seq<string>, n: nat, target: seq<string>, pos: nat)
    returns (draws: nat -> nat)
    requires SameFront(values, n, target)
    ensures Shuffled(values, n, draws, pos) == target
    decreases n
  {
    if n <= 1 {
      draws := p => 0;
      NoChoiceLeft(values, n, target);
    } else {
      hide SwapLast, SameFront, Shuffled;
      FrontFits(values, n, target);
      var j := SwapKeepsFront(values, n, target);
      FrontFits(SwapLast(values, n, j), n - 1, target);
      var rest := EveryOrderIsDrawn(SwapLast(values, n, j), n - 1, target, pos + 1);
      draws := DrawsFirst(values, n, j, rest, pos);
    }
  }

  lemma DrawsFirst(values: seq<string>, n: nat, j: nat, rest: nat -> nat, pos: nat) returns (draws: nat -> nat)
    requires j < n <= |values| && n > 1 && |SwapLast(values, n, j)| == |values|
    ensures Shuffled(values, n, draws, pos) == Shuffled(SwapLast(values, n, j), n - 1, rest, pos + 1)
  {
    draws := p => if p == pos then j else rest(p);
    assert draws(pos) % n == j;
    hide SwapLast;
    LaterDrawsDecide(SwapLast(values, n, j), n - 1, rest, draws, pos + 1);
  }

  lemma FrontFits(values: seq<string>, n: nat, target: seq<string>)
    requires SameFront(values, n, target)
    ensures n <= |values| == |target|
  {
  }

  lemma NoChoiceLeft(values: seq<string>, n: nat, target: seq<string>)
    requires SameFront(values, n, target) && n <= 1
    ensures values == target
  {
    if n == 1 {
      assert values[..1] == [values[0]] && target[..1] == [target[0]];
      assert values[0] in multiset(target[..1]);
    }
  }

  predicate NoneTwice(values: seq<string>) {
    forall i, j :: 0 <= i < j < |values| ==> values[i] != values[j]
  }

  lemma SwapKeepsNoneTwice(values: seq<string>, n: nat, j: nat)
    requires NoneTwice(values) && j < n <= |values|
    ensures NoneTwice(SwapLast(values, n, j))
  {
  }

  /** Two streams give different values one order only if they draw alike, place by place.  So of all
      the ways to draw exactly one gives each order, and even draws favour none. */
  lemma {:induction false} EachOrderIsDrawnOnce(values: seq<string>, n: nat, draws: nat -> nat, others: nat -> nat,
                                                pos: nat, i: nat)
    requires NoneTwice(values) && n <= |values| && i + 1 < n
    requires Shuffled(values, n, draws, pos) == Shuffled(values, n, others, pos)
    ensures draws(pos + i) % (n - i) == others(pos + i) % (n - i)
    decreases n
  {
    FirstDrawShows(values, n, draws, others, pos);
    if i > 0 {
      var j := draws(pos) % n;
      SwapKeepsNoneTwice(values, n, j);
      hide SwapLast, NoneTwice;
      SwapMeans(values, n, j);
      EachOrderIsDrawnOnce(SwapLast(values, n, j), n - 1, draws, others, pos + 1, i - 1);
    }
  }

  lemma FirstDrawShows(values: seq<string>, n: nat, draws: nat -> nat, others: nat -> nat, pos: nat)
    requires NoneTwice(values) && 1 < n <= |values|
    requires Shuffled(values, n, draws, pos) == Shuffled(values, n, others, pos)
    ensures draws(pos) % n == others(pos) % n
  {
    var j, k := draws(pos) % n, others(pos) % n;
    hide SwapLast;
    SwapMeans(values, n, j);
    SwapMeans(values, n, k);
    PlacedStay(SwapLast(values, n, j), n - 1, draws, pos + 1);
    PlacedStay(SwapLast(values, n, k), n - 1, others, pos + 1);
    assert values[j] == values[k];
  }

  /** Swaps in place, so that one seed always gives one order. */
  method Shuffle(values: array<string>, draws: nat -> nat)
    modifies values
    ensures values[..] == Shuffled(old(values[..]), values.Length, draws, 0)
  {
    var n, pos := values.Length, 0;
    while n > 1
      invariant 0 <= n <= values.Length
      invariant Shuffled(values[..], n, draws, pos) == Shuffled(old(values[..]), values.Length, draws, 0)
    {
      var j := draws(pos) % n;
      ghost var before := values[..];
      values[n - 1], values[j] := values[j], values[n - 1];
      assert values[..] == SwapLast(before, n, j);
      n, pos := n - 1, pos + 1;
    }
  }

  // ----- Statements that only read -----

  /** The three statements that read a question of the board. */
  lemma AsksForQuestion(g: Game, t0: Tables, start: Handler, t: Tables, id: RunId, run: Run, next: Pc)
    requires Reaches(g, t0, start, t, Asking(id, run, 0)) && (start.task.Reveal? || start.task.Submit?)
    requires start.task.q in Board(g, run) && AfterQuestion(g, start, id, run, next)
    ensures Reaches(g, t0, start, t, next)
  {
    hide Reaches;
    ReachesOn(g, t0, start, t, Asking(id, run, 0), t, Asking(id, run, 1));
    ReachesOn(g, t0, start, t, Asking(id, run, 1), t, Asking(id, run, 2));
    assert AfterQuestion(g, start.(pc := Asking(id, run, 2)), id, run, next);
    ReachesOn(g, t0, start, t, Asking(id, run, 2), t, next);
  }

  /** The statements of a second opinion: whether the question is touched, the earlier verdict, and
      the inserts of a new verdict and of the alias it teaches. */
  lemma AsksTheJudge(g: Game, t0: Tables, start: Handler, t: Tables, id: RunId, run: Run, recorded: bool,
                     accepted: bool)
    requires Reaches(g, t0, start, t, CheckingTouched(id, run)) && start.task.Submit? && id in t.sheets
    requires recorded ==> start.task.q !in t.sheets[id]
    requires accepted ==> recorded
    ensures Reaches(g, t0, start, t, TypedWrite(id, run, accepted))
  {
    hide Reaches;
    if start.task.q in t.sheets[id] {
      ReachesOn(g, t0, start, t, CheckingTouched(id, run), t, TypedWrite(id, run, false));
    } else {
      ReachesOn(g, t0, start, t, CheckingTouched(id, run), t, SeekingVerdict(id, run));
      if recorded {
        ReachesOn(g, t0, start, t, SeekingVerdict(id, run), t, RecordingVerdict(id, run, accepted));
        if accepted {
          ReachesOn(g, t0, start, t, RecordingVerdict(id, run, true), t, SavingAlias(id, run));
          ReachesOn(g, t0, start, t, SavingAlias(id, run), t, TypedWrite(id, run, true));
        } else {
          ReachesOn(g, t0, start, t, RecordingVerdict(id, run, false), t, TypedWrite(id, run, false));
        }
      } else {
        ReachesOn(g, t0, start, t, SeekingVerdict(id, run), t, TypedWrite(id, run, false));
      }
    }
  }

  /** The same runs, with every column but the completion as it was. */
  predicate SameRuns(t: Tables, t': Tables) {
    t.runs.Keys == t'.runs.Keys && forall id :: id in t.runs ==> SameRun(t.runs[id], t'.runs[id])
  }

  lemma FinishingKeepsRuns(g: Game, t: Tables, id: RunId, now: Time)
    requires id in t.runs && id in t.sheets
    ensures SameRuns(t, FinishRun(g, t, id, now))
  {
  }

  /** One run more: of this browser and date, started now, with exactly `limit` to run and nothing answered. */
  predicate StartsAfresh(t: Tables, t': Tables, player: PlayerId, date: Date, now: Time, limit: Time, id: RunId) {
    && id !in t.runs && t'.runs.Keys == t.runs.Keys + {id}
    && t'.runs[id].player == player && t'.runs[id].date == date
    && t'.runs[id].startedAt == now && t'.runs[id].expiresAt - t'.runs[id].startedAt == limit
    && forall j :: j in t.runs ==> SameRun(t.runs[j], t'.runs[j])
  }

  lemma StaysStarted(t: Tables, t': Tables, t'': Tables, player: PlayerId, date: Date, now: Time, limit: Time,
                     id: RunId)
    requires SameRuns(t', t'') && (t' == t || StartsAfresh(t, t', player, date, now, limit, id))
    ensures SameRuns(t, t'') || StartsAfresh(t, t'', player, date, now, limit, id)
  {
  }

  class RunStore {
    var runs: map<RunId, Run>
    var sheets: map<RunId, Sheet>
    var account: map<PlayerId, UserId>

    function T(): Tables
      reads this
    {
      Tables(runs, sheets, account)
    }

    // ----- Statements -----

    method SelectCurrent(v: Viewer, date: Date) returns (found: Option<RunId>)
      ensures IsCurrent(T(), v, date, found)
    {
      var mine := set id | id in runs && IsMine(T(), v, runs[id].player) && runs[id].date == date;
      found := None;
      var left := mine;
      while left != {}
        invariant left <= mine
        invariant forall id :: id in runs && IsMine(T(), v, runs[id].player) && runs[id].date == date ==> id in mine
        invariant found.Some? ==> found.value in mine
        invariant found.None? ==> left == mine
        invariant forall j :: j in mine - left ==> found.Some? && StartedFirst(T(), found.value, j)
      {
        ghost var some := SomeMember(left);
        var id :| id in left;
        if found.None? || StartedFirst(T(), id, found.value) {
          found := Some(id);
        }
        assert forall j :: j in mine - (left - {id}) ==> j == id || j in mine - left;
        left := left - {id};
      }
      assert mine - left == mine;
    }

    method UpdateFinished(g: Game, v: Viewer, id: RunId, now: Time) returns (owned: bool)
      modifies this
      ensures owned == Owns(old(T()), v, id)
      ensures T() == if owned then FinishRun(g, old(T()), id, now) else old(T())
    {
      owned := Owns(T(), v, id);
      if owned {
        var r := runs[id];
        if r.completedAt.None? {
          runs := runs[id := r.(completedAt := Some(now))];
        } else {
          assert runs[id := r] == runs;
        }
        sheets := sheets[id := Sweep(sheets[id], Board(g, r), now)];
      }
    }

    method UpsertRevealed(id: RunId, q: QuestionId, now: Time) returns (affected: bool)
      requires id in sheets
      modifies this
      ensures affected == TouchAffects(old(sheets[id]), q)
      ensures T() == old(T()).(sheets := old(sheets)[id := Touch(old(sheets[id]), q, now)])
      ensures q in sheets[id]
    {
      affected := TouchAffects(sheets[id], q);
      var sheet := sheets[id];
      if q !in sheet {
        sheet := sheet[q := Answer(MultipleChoice, None, None, None, now, None)];
      } else if sheet[q].outcome.None? && sheet[q].stage == FreeText {
        sheet := sheet[q := sheet[q].(stage := MultipleChoice)];
      }
      sheets := sheets[id := sheet];
    }

    method WriteAnswer(id: RunId, q: QuestionId, stage: Stage, text: string, outcome: Option<Outcome>, now: Time)
      returns (row: Option<Answer>)
      requires id in sheets
      modifies this
      ensures row.Some? <==> WriteAffects(old(sheets[id]), q, stage)
      ensures row.Some? ==>
                && row.value == WriteRow(old(sheets[id]), q, stage, text, outcome, now)
                && T() == old(T()).(sheets := old(sheets)[id := old(sheets[id])[q := row.value]])
      ensures row.None? ==> T() == old(T())
    {
      row := None;
      if WriteAffects(sheets[id], q, stage) {
        var written := WriteRow(sheets[id], q, stage, text, outcome, now);
        sheets := sheets[id := sheets[id][q := written]];
        row := Some(written);
      }
    }

    method UpdateCompleted(id: RunId, player: PlayerId, now: Time)
      requires id in runs && id in sheets
      modifies this
      ensures T() == Complete(old(T()), id, player, now)
    {
      var r := runs[id];
      if r.player == player && r.completedAt.None? && |Resolved(sheets[id])| == 9 {
        runs := runs[id := r.(completedAt := Some(now))];
      }
    }

    method InsertRun(player: PlayerId, date: Date, now: Time, limit: Time, newId: RunId) returns (id: RunId)
      requires newId !in runs && newId !in sheets
      modifies this
      ensures InsertsRun(old(T()), player, date, now, limit, id, T())
      ensures T() == old(T()) || (&& StartsAfresh(old(T()), T(), player, date, now, limit, newId)
                                  && id == newId && runs[id].completedAt.None? && sheets[id] == map[])
    {
      var held := set j | j in runs && runs[j].player == player && runs[j].date == date;
      if held != {} {
        ghost var some := SomeMember(held);
        id :| id in held;
      } else {
        assert forall j :: j in runs && runs[j].player == player && runs[j].date == date ==> j in held;
        id := newId;
        runs := runs[id := Run(player, date, now, now + limit, None)];
        sheets := sheets[id := map[]];
      }
    }

    // ----- Handlers -----

    /** Load, for a run whose clock has not run out or that has been finished: the run, then its
        board, then its answers. */
    method ReadRun(g: Game, id: RunId, v: Viewer, clock: Time, ghost t0: Tables, ghost start: Handler)
      returns (r: LoadResult)
      requires start.viewer == v && LoadClock(start) == clock
      requires Reaches(g, t0, start, T(), Loading(id))
      requires Owns(T(), v, id) && (runs[id].completedAt.None? ==> clock < runs[id].expiresAt)
      ensures r == Got(runs[id], sheets[id]) && Reaches(g, t0, start, T(), Reading(id, runs[id]))
    {
      hide Reaches;
      var run := runs[id];
      ReachesOn(g, t0, start, T(), Loading(id), T(), Fetching(id, run));
      ReachesOn(g, t0, start, T(), Fetching(id, run), T(), Reading(id, run));
      r := Got(run, sheets[id]);
    }

    /** The update of a run whose clock has run out. */
    method ExpireRun(g: Game, id: RunId, v: Viewer, clock: Time, ghost t0: Tables, ghost start: Handler)
      requires start.viewer == v && LoadClock(start) == clock
      requires Reaches(g, t0, start, T(), Loading(id))
      requires Owns(T(), v, id) && runs[id].completedAt.None? && clock >= runs[id].expiresAt
      modifies this
      ensures Reaches(g, t0, start, T(), Loading(id))
      ensures Owns(T(), v, id) && runs[id].completedAt.Some? && SameRuns(old(T()), T())
    {
      FinishingKeepsRuns(g, T(), id, clock);
      hide Reaches;
      ghost var before := T();
      ReachesOn(g, t0, start, before, Loading(id), before, Expiring(id));
      var owned := UpdateFinished(g, v, id, clock);
      ReachesOn(g, t0, start, before, Expiring(id), T(), Loading(id));
    }

    /** Load: the run the viewer is entitled to, finished first if its clock has run out. */
    method Load(g: Game, id: RunId, v: Viewer, clock: Time, ghost t0: Tables, ghost start: Handler)
      returns (r: LoadResult)
      requires start.viewer == v && LoadClock(start) == clock
      requires Reaches(g, t0, start, T(), Loading(id))
      modifies this
      ensures r.Refused? ==> Reaches(g, t0, start, T(), Done(NotYourRun))
      ensures r.Got? ==> Reaches(g, t0, start, T(), Reading(id, r.run))
      ensures r.Got? ==> id in runs && id in sheets && r.run == runs[id] && r.sheet == sheets[id]
      ensures r.Got? && r.run.completedAt.None? ==> T() == old(T()) && clock < r.run.expiresAt
      ensures SameRuns(old(T()), T())
      decreases if id in runs && runs[id].completedAt.Some? then 0 else 1
    {
      hide Reaches, FinishRun, LoadClock;
      if !Owns(T(), v, id) {
        ReachesOn(g, t0, start, T(), Loading(id), T(), Done(NotYourRun));
        return Refused;
      }
      if runs[id].completedAt.None? && clock >= runs[id].expiresAt {
        hide Step;
        ExpireRun(g, id, v, clock, t0, start);
        r := Load(g, id, v, clock, t0, start);
      } else {
        hide Step;
        r := ReadRun(g, id, v, clock, t0, start);
      }
    }

    /** What the handlers reply with once Load has returned. */
    method Show(g: Game, id: RunId, v: Viewer, clock: Time, ghost t0: Tables, ghost start: Handler)
      returns (reply: Reply)
      requires start.viewer == v && LoadClock(start) == clock && !start.task.Reveal? && !start.task.Submit?
      requires Reaches(g, t0, start, T(), Loading(id))
      modifies this
      ensures Reaches(g, t0, start, T(), Done(reply)) && SameRuns(old(T()), T())
    {
      var r := Load(g, id, v, clock, t0, start);
      if r.Refused? {
        return NotYourRun;
      }
      hide Reaches;
      reply := Loaded(r.run, r.sheet);
      ReachesOn(g, t0, start, T(), Reading(id, r.run), T(), Done(reply));
    }

    method Current(g: Game, v: Viewer, date: Date, now: Time) returns (reply: Reply)
      modifies this
      ensures Reaches(g, old(T()), Handler(GetCurrent(date), v, now, FindingRun), T(), Done(reply))
    {
      ghost var t0, start := T(), Handler(GetCurrent(date), v, now, FindingRun);
      ReachesStart(g, t0, start);
      var found := SelectCurrent(v, date);
      assert IsCurrent(T(), v, TaskDate(start.task), found);
      if found.None? {
        ReachesOn(g, t0, start, T(), FindingRun, T(), Done(NoRun));
        return NoRun;
      }
      ReachesOn(g, t0, start, T(), FindingRun, T(), Loading(found.value));
      reply := Show(g, found.value, v, now, t0, start);
    }

    method Start(g: Game, v: Viewer, date: Date, limit: Time, now: Time, newId: RunId) returns (reply: Reply)
      requires newId !in runs && newId !in sheets
      modifies this
      ensures Reaches(g, old(T()), Handler(Task.Start(date, limit), v, now, FindingRun), T(), Done(reply))
      ensures SameRuns(old(T()), T()) || StartsAfresh(old(T()), T(), v.player, date, now, limit, newId)
    {
      ghost var t0, start := T(), Handler(Task.Start(date, limit), v, now, FindingRun);
      ReachesStart(g, t0, start);
      var found := SelectCurrent(v, date);
      assert IsCurrent(T(), v, TaskDate(start.task), found);
      var id: RunId;
      if found.Some? {
        id := found.value;
        ReachesOn(g, t0, start, T(), FindingRun, T(), Loading(id));
      } else {
        ReachesOn(g, t0, start, T(), FindingRun, T(), InsertingRun);
        ghost var before := T();
        id := InsertRun(v.player, date, now, limit, newId);
        ReachesOn(g, t0, start, before, InsertingRun, T(), Loading(id));
      }
      hide StartsAfresh, SameRuns, Reaches, InsertsRun, IsCurrent;
      ghost var between := T();
      reply := Show(g, id, v, now, t0, start);
      StaysStarted(t0, between, T(), v.player, date, now, limit, newId);
    }

    method Finish(g: Game, id: RunId, v: Viewer, now: Time) returns (reply: Reply)
      modifies this
      ensures Reaches(g, old(T()), Handler(FinishNow(id), v, now, Finishing(id)), T(), Done(reply))
    {
      ghost var t0, start := T(), Handler(FinishNow(id), v, now, Finishing(id));
      ReachesStart(g, t0, start);
      var owned := UpdateFinished(g, v, id, now);
      if !owned {
        ReachesOn(g, t0, start, t0, Finishing(id), T(), Done(NotYourRun));
        return NotYourRun;
      }
      ReachesOn(g, t0, start, t0, Finishing(id), T(), Loading(id));
      reply := Show(g, id, v, now, t0, start);
    }

    /** Where Reveal and AnswerQuestion begin: an open run of the viewer's and a question of its board. */
    method Open(g: Game, id: RunId, v: Viewer, q: QuestionId, clock: Time, ghost t0: Tables, ghost start: Handler)
      returns (refused: Option<Reply>, run: Option<Run>)
      requires start.viewer == v && LoadClock(start) == clock
      requires (start.task.Reveal? || start.task.Submit?) && start.task.q == q
      requires Reaches(g, t0, start, T(), Loading(id))
      modifies this
      ensures refused.Some? <==> run.None?
      ensures refused.Some? ==> refused.value in {NotYourRun, RunExpired, BadQuestion}
      ensures refused.Some? ==> Reaches(g, t0, start, T(), Done(refused.value))
      ensures run.Some? ==> T() == old(T()) && id in runs && id in sheets && q in Board(g, run.value)
      ensures run.Some? ==> Reaches(g, t0, start, T(), Asking(id, run.value, 0))
    {
      var r := Load(g, id, v, clock, t0, start);
      if r.Refused? {
        return Some(NotYourRun), None;
      }
      hide Reaches;
      ReachesOn(g, t0, start, T(), Reading(id, r.run), T(), AfterLoad(start, id, r.run, r.sheet));
      if r.run.completedAt.Some? {
        return Some(RunExpired), None;
      }
      if q !in Board(g, r.run) {
        ReachesOn(g, t0, start, T(), Asking(id, r.run, 0), T(), Done(BadQuestion));
        return Some(BadQuestion), None;
      }
      return None, Some(r.run);
    }

    /** The options of a question, the answer among them, in the order the run's seed gives. */
    method Reveal(g: Game, id: RunId, v: Viewer, q: QuestionId, now: Time, distractors: seq<string>, draws: nat -> nat)
      returns (reply: Reply, options: seq<string>)
      modifies this
      ensures Reaches(g, old(T()), Handler(Task.Reveal(id, q), v, now, Loading(id)), T(), Done(reply))
      ensures reply == Options ==>
                && options == Shuffled([g.canonical(q)] + distractors, 1 + |distractors|, draws, 0)
                && IsReveal(g.canonical(q), distractors, options)
    {
      options := [];
      ghost var t0, start := T(), Handler(Task.Reveal(id, q), v, now, Loading(id));
      ReachesStart(g, t0, start);
      hide Reaches;
      var refused, run := Open(g, id, v, q, now, t0, start);
      if refused.Some? {
        return refused.value, [];
      }
      AsksForQuestion(g, t0, start, T(), id, run.value, Touching(id));
      reply := Touched(g, id, q, now, t0, start);
      if reply == Options {
        options := InSeededOrder(g.canonical(q), distractors, draws);
      }
    }

    /** The statements of Reveal once the question is known. */
    method Touched(g: Game, id: RunId, q: QuestionId, now: Time, ghost t0: Tables, ghost start: Handler)
      returns (reply: Reply)
      requires id in sheets && start.now == now && start.task == Task.Reveal(id, q)
      requires Reaches(g, t0, start, T(), Touching(id))
      modifies this
      ensures Reaches(g, t0, start, T(), Done(reply))
    {
      hide Reaches;
      ghost var before := T();
      var affected := UpsertRevealed(id, q, now);
      ReachesOn(g, t0, start, before, Touching(id), T(), if affected then Done(Options) else Checking(id));
      if !affected {
        var row := sheets[id][q];
        reply := if row.stage != MultipleChoice || row.outcome.Some? then AlreadyAnswered else Options;
        ReachesOn(g, t0, start, T(), Checking(id), T(), Done(reply));
      } else {
        reply := Options;
      }
    }

    /** Whether typed text is right: by grading, or else by the judge when it may be asked. */
    method Judge(g: Game, id: RunId, q: QuestionId, text: string, question: J.QuestionTables, jury: J.Jury,
                 opinion: Option<J.Scores>, ghost t0: Tables, ghost start: Handler, ghost run: Run)
      returns (correct: bool)
      requires id in sheets && start.task == Submit(id, q, Some(FreeText), text) && q in Board(g, run)
      requires Reaches(g, t0, start, T(), Asking(id, run, 0))
      modifies question
      ensures Reaches(g, t0, start, T(), TypedWrite(id, run, correct))
      ensures q !in sheets[id] ==>
                var before, ev := old(question.Current()), J.Submit(id, text, opinion);
                var after := J.Next(question.lx, question.Wrong(), jury, before.(answers := map[]), ev);
                && correct == after.answers[id].star
                && question.Current() == after.(answers := before.answers)
      ensures q in sheets[id] ==>
                && (correct <==> G.IsCorrect(question.lx, text, old(question.Current()).aliases, question.Wrong()))
                && question.Current() == old(question.Current())
    {
      hide Reaches, Step, G.IsCorrect, G.IsNearMiss, G.ReadsAsWrong, J.Accepts, G.IsMatch;
      var r := question.GradeText(text);
      correct := r.correct;
      if !correct && J.WouldJudge(question.lx, jury, text, r.readsAsWrongOption) {
        AsksForQuestion(g, t0, start, T(), id, run, CheckingTouched(id, run));
        ghost var recorded := q !in sheets[id] && question.lx.normalize(text) !in question.verdicts && opinion.Some?;
        correct := question.SecondOpinion(jury.limits, q in sheets[id], text, opinion);
        AsksTheJudge(g, t0, start, T(), id, run, recorded, correct);
      } else {
        AsksForQuestion(g, t0, start, T(), id, run, TypedWrite(id, run, correct));
      }
    }

    /** The write of an answer and, once it is resolved, the update that may complete the run. */
    method Record(g: Game, id: RunId, q: QuestionId, stage: Stage, text: string, outcome: Option<Outcome>,
                  run: Run, now: Time,
                  ghost t0: Tables, ghost start: Handler) returns (reply: Reply)
      requires id in sheets && id in runs && start.now == now
      requires start.task == Submit(id, q, Some(stage), text)
      requires Reaches(g, t0, start, T(), Writing(id, stage, outcome, run))
      modifies this
      ensures Reaches(g, t0, start, T(), Done(reply))
      ensures reply == InvalidStage || (reply.Answered? && reply.row.outcome == outcome)
      ensures reply.Answered? <==> WriteAffects(old(sheets[id]), q, stage)
    {
      hide Reaches;
      ghost var before, writing := T(), Writing(id, stage, outcome, run);
      var row := WriteAnswer(id, q, stage, text, outcome, now);
      if row.None? {
        ReachesOn(g, t0, start, before, writing, T(), Done(InvalidStage));
        return InvalidStage;
      }
      reply := Answered(row.value);
      if row.value.outcome.Some? {
        ghost var written, completing := T(), Completing(id, run.player, row.value);
        ReachesOn(g, t0, start, before, writing, written, completing);
        UpdateCompleted(id, run.player, now);
        ReachesOn(g, t0, start, written, completing, T(), Done(reply));
      } else {
        ReachesOn(g, t0, start, before, writing, T(), Done(reply));
      }
    }

    /** A typed answer that is recorded is a star exactly when grading or the judge accepts it. */
    method AnswerQuestion(g: Game, id: RunId, v: Viewer, q: QuestionId, stage: Option<Stage>, text: string, now: Time,
                          question: J.QuestionTables, jury: J.Jury, opinion: Option<J.Scores>) returns (reply: Reply)
      modifies this, question
      ensures Reaches(g, old(T()), Handler(Submit(id, q, stage, text), v, now, Loading(id)), T(), Done(reply))
      ensures reply.Answered? && stage == Some(MultipleChoice) ==> reply.row.outcome == Score(g, q, text)
      ensures reply.Answered? && stage == Some(FreeText) ==>
                var before, ev := old(question.Current()), J.Submit(id, text, opinion);
                var after := J.Next(question.lx, question.Wrong(), jury, before.(answers := map[]), ev);
                && reply.row.outcome == (if after.answers[id].star then Some(Star) else None)
                && question.Current() == after.(answers := before.answers)
    {
      ghost var t0, start := T(), Handler(Submit(id, q, stage, text), v, now, Loading(id));
      ReachesStart(g, t0, start);
      hide Reaches, J.Next, Step;
      var refused, run := Open(g, id, v, q, now - GRACE, t0, start);
      if refused.Some? {
        return refused.value;
      }
      if stage == Some(FreeText) {
        var correct := Judge(g, id, q, text, question, jury, opinion, t0, start, run.value);
        reply := Record(g, id, q, FreeText, text, if correct then Some(Star) else None, run.value, now, t0, start);
      } else if stage == Some(MultipleChoice) {
        var outcome := if text == g.canonical(q) then Some(Circle) else Some(Miss);
        AsksForQuestion(g, t0, start, T(), id, run.value, Writing(id, MultipleChoice, outcome, run.value));
        reply := Record(g, id, q, MultipleChoice, text, outcome, run.value, now, t0, start);
      } else {
        AsksForQuestion(g, t0, start, T(), id, run.value, Done(InvalidStage));
        reply := InvalidStage;
      }
    }
  }

  /** The answer and the wrong options, shuffled by the run's seed. */
  method InSeededOrder(canonical: string, distractors: seq<string>, draws: nat -> nat) returns (options: seq<string>)
    ensures options == Shuffled([canonical] + distractors, 1 + |distractors|, draws, 0)
    ensures IsReveal(canonical, distractors, options)
  {
    var all := [canonical] + distractors;
    var values := new string[|all|](i requires 0 <= i < |all| => all[i]);
    assert values[..] == all;
    Shuffle(values, draws);
    options := values[..];
    ShufflingPermutes(all, |all|, draws, 0);
  }
}
