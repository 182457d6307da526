/** Where everything stored about a run comes from, internal/play/play.go.

    Over every history of RunLifecycle: which request wrote each row and each
    column, at which instant, and which state of the tables justifies each
    answer a request was given. */
module RunProvenance {
  import opened Wrappers
  import opened RunLifecycle

  // ----- Causes -----

  /** The request started the run: for its own browser and date, at its own instant, for the date's time limit. */
  predicate Starts(s: State, hid: int, r: Run) {
    hid in s.handlers
    && var h := s.handlers[hid];
       && h.task.Start? && h.viewer.player == r.player && h.task.date == r.date
       && r.startedAt == h.now && r.expiresAt - r.startedAt == h.task.limit
  }

  /** The request asked for the run to be finished, at the instant `c`. */
  predicate Finishes(s: State, hid: int, id: RunId, c: Time) {
    hid in s.handlers && s.handlers[hid].task == FinishNow(id) && s.handlers[hid].now == c
  }

  /** The request loaded the run at the instant `c`, past its deadline: the instant it was made at, or
      two seconds before for an answer. */
  predicate FindsItOver(s: State, hid: int, id: RunId, r: Run, c: Time) {
    hid in s.handlers && c >= r.expiresAt
    && var h := s.handlers[hid];
       match h.task
       case GetCurrent(date) => date == r.date && c == h.now
       case Start(date, _) => date == r.date && c == h.now
       case Show(i) => i == id && c == h.now
       case FinishNow(i) => i == id && c == h.now
       case Reveal(i, _) => i == id && c == h.now
       case Submit(i, _, _, _) => i == id && h.now == c + 2_000_000_000
  }

  /** The request answered one of the questions at the instant `c`. */
  predicate AnswersIt(s: State, hid: int, id: RunId, sheet: Sheet, c: Time) {
    hid in s.handlers
    && var h := s.handlers[hid];
       && h.task.Submit? && h.task.id == id && h.now == c
       && h.task.q in sheet && Answers(sheet[h.task.q].outcome) && sheet[h.task.q].resolvedAt == Some(c)
  }

  predicate Types(s: State, hid: int, id: RunId, q: QuestionId, text: string, at: Time) {
    hid in s.handlers && s.handlers[hid].task == Submit(id, q, Some(FreeText), text) && s.handlers[hid].now == at
  }

  predicate Picks(s: State, hid: int, id: RunId, q: QuestionId, text: string, at: Time) {
    hid in s.handlers && s.handlers[hid].task == Submit(id, q, Some(MultipleChoice), text) && s.handlers[hid].now == at
  }

  predicate Asks(s: State, hid: int, id: RunId, q: QuestionId) {
    hid in s.handlers && s.handlers[hid].task == RunLifecycle.Reveal(id, q)
  }

  predicate AsksAt(s: State, hid: int, id: RunId, q: QuestionId, at: Time) {
    Asks(s, hid, id, q) && s.handlers[hid].now == at
  }

  // ----- The invariant -----

  /** Every column of a row, and the request it comes from. */
  ghost predicate RowTraced(s: State, id: RunId, q: QuestionId, row: Answer, completedAt: Option<Time>) {
    && (row.submission.Some? ==> exists hid :: Types(s, hid, id, q, row.submission.value, row.touchedAt))
    && (row.submission.None? ==>
        if row.stage == MultipleChoice then exists hid :: AsksAt(s, hid, id, q, row.touchedAt)
        else row.outcome == Some(Expired) && row.resolvedAt == Some(row.touchedAt))
    && (row.stage == MultipleChoice ==> exists hid :: Asks(s, hid, id, q))
    && (row.outcome == Some(Star) ==> row.resolvedAt == Some(row.touchedAt))
    && (row.chosen.Some? ==>
          && row.resolvedAt.Some?
          && exists hid :: Picks(s, hid, id, q, row.chosen.value, row.resolvedAt.value))
    && (row.outcome == Some(Expired) ==> completedAt.Some? && row.resolvedAt == completedAt)
  }

  ghost predicate SheetTraced(s: State, id: RunId, sheet: Sheet, completedAt: Option<Time>) {
    forall q :: q in sheet ==> RowTraced(s, id, q, sheet[q], completedAt)
  }

  /** What completed the run, and when. */
  ghost predicate Closed(s: State, id: RunId, r: Run, sheet: Sheet, c: Time) {
    || (exists hid :: Finishes(s, hid, id, c))
    || (exists hid :: FindsItOver(s, hid, id, r, c))
    || (exists hid :: AnswersIt(s, hid, id, sheet, c))
  }

  ghost predicate RunTraced(s: State, id: RunId, r: Run, sheet: Sheet) {
    && (exists hid :: Starts(s, hid, r))
    && (r.completedAt.Some? ==> Closed(s, id, r, sheet, r.completedAt.value))
    && SheetTraced(s, id, sheet, r.completedAt)
  }

  ghost predicate TablesTraced(s: State) {
    forall id :: id in s.t.runs && id in s.t.sheets ==> RunTraced(s, id, s.t.runs[id], s.t.sheets[id])
  }

  /** The run a handler works on is the one its request names, or one of the date it names. */
  predicate ItsRun(t: Tables, task: Task, id: RunId) {
    match task
    case GetCurrent(date) => id in t.runs && t.runs[id].date == date
    case Start(date, _) => id in t.runs && t.runs[id].date == date
    case Show(i) => i == id
    case FinishNow(i) => i == id
    case Reveal(i, _) => i == id
    case Submit(i, _, _, _) => i == id
  }

  predicate HasRun(pc: Pc) {
    !pc.FindingRun? && !pc.InsertingRun? && !pc.Done?
  }

  /** What a handler that has come this far knows. */
  predicate Knows(t: Tables, h: Handler) {
    && (HasRun(h.pc) ==> ItsRun(t, h.task, h.pc.id))
    && (h.task.FinishNow? && HasRun(h.pc) && !h.pc.Finishing? ==>
          h.pc.id in t.runs && t.runs[h.pc.id].completedAt.Some?)
    && match h.pc
       case Expiring(id) => id in t.runs && LoadClock(h) >= t.runs[id].expiresAt
       case Fetching(id, run) => RanOut(t, id, run) && (h.task.FinishNow? ==> run.completedAt.Some?)
       case Reading(id, run) => RanOut(t, id, run) && (h.task.FinishNow? ==> run.completedAt.Some?)
       case Checking(id) =>
         && h.task.Reveal? && id in t.sheets && h.task.q in t.sheets[id]
         && (t.sheets[id][h.task.q].outcome.Some? || t.sheets[id][h.task.q].stage == MultipleChoice)
       case Writing(_, stage, _, _) => h.task.Submit? && h.task.stage == Some(stage)
       case Completing(id, _, row) =>
         && h.task.Submit? && id in t.sheets && h.task.q in t.sheets[id] && t.sheets[id][h.task.q] == row
         && Answers(row.outcome) && row.resolvedAt == Some(h.now) && Gives(h, row)
       case _ => true
  }

  /** The row holds what was submitted, at its stage. */
  predicate Gives(h: Handler, row: Answer)
    requires h.task.Submit?
  {
    match h.task.stage
    case None => false
    case Some(FreeText) => row.stage == FreeText && row.submission == Some(h.task.text) && row.touchedAt == h.now
    case Some(MultipleChoice) =>
      row.stage == MultipleChoice && row.chosen == Some(h.task.text) && row.resolvedAt == Some(h.now)
  }

  predicate RanOut(t: Tables, id: RunId, run: Run) {
    run.completedAt.Some? ==> id in t.runs && t.runs[id].completedAt == run.completedAt
  }

  ghost predicate Traced(s: State) {
    TablesTraced(s) && forall hid :: hid in s.handlers ==> Knows(s.t, s.handlers[hid])
  }

  // ----- Requests are never forgotten -----

  predicate SameRequest(h: Handler, h': Handler) {
    h.task == h'.task && h.viewer == h'.viewer && h.now == h'.now
  }

  predicate Remembers(s: State, s': State) {
    forall hid :: hid in s.handlers ==> hid in s'.handlers && SameRequest(s.handlers[hid], s'.handlers[hid])
  }

  lemma NextRemembers(g: Game, s: State, s': State)
    requires Next(g, s, s')
    ensures Remembers(s, s')
  {
    hide Inv, IsCurrent, InsertsRun, AfterQuestion;
    if hid :| Advances(g, s, s', hid) {
      assert SameRequest(s.handlers[hid], s'.handlers[hid]);
    }
  }

  lemma RowStays(s: State, s': State, id: RunId, q: QuestionId, row: Answer, completedAt: Option<Time>)
    requires Remembers(s, s') && RowTraced(s, id, q, row, completedAt)
    ensures RowTraced(s', id, q, row, completedAt)
  {
    if row.submission.Some? {
      var hid :| Types(s, hid, id, q, row.submission.value, row.touchedAt);
      assert Types(s', hid, id, q, row.submission.value, row.touchedAt);
    } else if row.stage == MultipleChoice {
      var hid :| AsksAt(s, hid, id, q, row.touchedAt);
      assert AsksAt(s', hid, id, q, row.touchedAt);
    }
    if row.stage == MultipleChoice {
      var hid :| Asks(s, hid, id, q);
      assert Asks(s', hid, id, q);
    }
    if row.chosen.Some? {
      var hid :| Picks(s, hid, id, q, row.chosen.value, row.resolvedAt.value);
      assert Picks(s', hid, id, q, row.chosen.value, row.resolvedAt.value);
    }
  }

  lemma SheetStays(s: State, s': State, id: RunId, sheet: Sheet, completedAt: Option<Time>)
    requires Remembers(s, s') && SheetTraced(s, id, sheet, completedAt)
    ensures SheetTraced(s', id, sheet, completedAt)
  {
    forall q | q in sheet
      ensures RowTraced(s', id, q, sheet[q], completedAt)
    {
      RowStays(s, s', id, q, sheet[q], completedAt);
    }
  }

  lemma StartStays(s: State, s': State, r: Run, r': Run)
    requires Remembers(s, s') && SameRun(r, r') && exists hid :: Starts(s, hid, r)
    ensures exists hid :: Starts(s', hid, r')
  {
    var hid :| Starts(s, hid, r);
    assert Starts(s', hid, r');
  }

  lemma ClosedStays(s: State, s': State, id: RunId, r: Run, sheet: Sheet, sheet': Sheet, c: Time)
    requires Remembers(s, s') && SheetLater(sheet, sheet') && Closed(s, id, r, sheet, c)
    ensures Closed(s', id, r, sheet', c)
  {
    if hid :| Finishes(s, hid, id, c) {
      assert Finishes(s', hid, id, c);
    } else if hid :| FindsItOver(s, hid, id, r, c) {
      assert FindsItOver(s', hid, id, r, c);
    } else {
      var hid :| AnswersIt(s, hid, id, sheet, c);
      assert AnswersIt(s', hid, id, sheet', c);
    }
  }

  lemma SameSheetLater(sheet: Sheet)
    ensures SheetLater(sheet, sheet)
  {
  }

  /** A run nobody has changed keeps its causes. */
  lemma RunStays(s: State, s': State, id: RunId, r: Run, sheet: Sheet)
    requires Remembers(s, s') && RunTraced(s, id, r, sheet)
    ensures RunTraced(s', id, r, sheet)
  {
    hide Remembers, SheetTraced, Closed, SheetLater, Starts;
    StartStays(s, s', r, r);
    SheetStays(s, s', id, sheet, r.completedAt);
    SameSheetLater(sheet);
    if r.completedAt.Some? {
      ClosedStays(s, s', id, r, sheet, sheet, r.completedAt.value);
    }
  }

  // ----- Each statement leaves its trace -----

  /** What a statement does to the one run it is about. */
  lemma InsertTraced(g: Game, s: State, s': State, hid: int, id: RunId)
    requires Inv(g, s) && TablesTraced(s) && Remembers(s, s') && Advances(g, s, s', hid)
    requires s.handlers[hid].pc.InsertingRun? && id in s'.t.runs && id in s'.t.sheets
    ensures RunTraced(s', id, s'.t.runs[id], s'.t.sheets[id])
  {
    hide Remembers, SheetTraced, Closed, RunTraced, Inv;
    var h := s.handlers[hid];
    var k :| InsertsRun(s.t, h.viewer.player, h.task.date, h.now, h.task.limit, k, s'.t);
    if id in s.t.runs && s'.t.runs[id] == s.t.runs[id] && id in s.t.sheets && s'.t.sheets[id] == s.t.sheets[id] {
      RunStays(s, s', id, s.t.runs[id], s.t.sheets[id]);
    } else {
      NewRunTraced(s', hid, id, s'.t.runs[id]);
    }
  }

  lemma NewRunTraced(s: State, hid: int, id: RunId, r: Run)
    requires Starts(s, hid, r) && r.completedAt.None?
    ensures RunTraced(s, id, r, map[])
  {
  }

  lemma SweptTraced(s: State, s': State, hid: int, id: RunId, r: Run, sheet: Sheet, board: set<QuestionId>, now: Time)
    requires Remembers(s, s') && RunTraced(s, id, r, sheet) && (r.completedAt.Some? ==> Resolved(sheet) == board)
    requires forall q :: q in sheet ==> q in board && (sheet[q].chosen.Some? ==> sheet[q].outcome.Some?)
    requires Finishes(s', hid, id, now) || FindsItOver(s', hid, id, r, now)
    ensures RunTraced(s', id, r.(completedAt := if r.completedAt.None? then Some(now) else r.completedAt),
                      Sweep(sheet, board, now))
  {
    var r' := r.(completedAt := if r.completedAt.None? then Some(now) else r.completedAt);
    var sheet' := Sweep(sheet, board, now);
    StartStays(s, s', r, r');
    if r.completedAt.Some? {
      assert sheet' == sheet by {
        SweepOfResolved(sheet, board, now);
      }
      RunStays(s, s', id, r, sheet);
    } else {
      assert Closed(s', id, r', sheet', now) by {
        assert Finishes(s', hid, id, now) || FindsItOver(s', hid, id, r', now);
      }
      forall q | q in sheet'
        ensures RowTraced(s', id, q, sheet'[q], r'.completedAt)
      {
        if q in sheet {
          RowSwept(s, s', id, q, sheet[q], now);
        }
      }
    }
  }

  lemma SweepOfResolved(sheet: Sheet, board: set<QuestionId>, now: Time)
    requires Resolved(sheet) == board && forall q :: q in sheet ==> q in board
    ensures Sweep(sheet, board, now) == sheet
  {
    assert forall q :: q in board ==> q in Resolved(sheet);
  }

  lemma RowSwept(s: State, s': State, id: RunId, q: QuestionId, row: Answer, now: Time)
    requires Remembers(s, s') && RowTraced(s, id, q, row, None)
    requires row.chosen.Some? ==> row.outcome.Some?
    ensures RowTraced(s', id, q, if row.outcome.None? then row.(outcome := Some(Expired), resolvedAt := Some(now))
                                 else row, Some(now))
  {
    RowStays(s, s', id, q, row, None);
  }

  lemma FinishTraced(g: Game, s: State, s': State, hid: int, id: RunId)
    requires Inv(g, s) && Traced(s) && Remembers(s, s') && Advances(g, s, s', hid)
    requires s.handlers[hid].pc.Finishing? || s.handlers[hid].pc.Expiring?
    requires id in s'.t.runs && id in s'.t.sheets
    ensures RunTraced(s', id, s'.t.runs[id], s'.t.sheets[id])
  {
    hide Remembers, RunTraced, Sweep;
    var h := s.handlers[hid];
    var r, sheet := s.t.runs[id], s.t.sheets[id];
    if id == h.pc.id && Owns(s.t, h.viewer, id) {
      var now := if h.pc.Finishing? then h.now else LoadClock(h);
      CauseOfFinish(g, s, s', hid, id);
      assert RunOk(g, r, sheet);
      SweptTraced(s, s', hid, id, r, sheet, Board(g, r), now);
    } else {
      RunStays(s, s', id, r, sheet);
    }
  }

  lemma CauseOfFinish(g: Game, s: State, s': State, hid: int, id: RunId)
    requires Inv(g, s) && Traced(s) && Remembers(s, s') && hid in s.handlers
    requires var pc := s.handlers[hid].pc; (pc.Finishing? || pc.Expiring?) && pc.id == id && id in s.t.runs
    ensures var h := s.handlers[hid];
            var now := if h.pc.Finishing? then h.now else LoadClock(h);
            Finishes(s', hid, id, now) || FindsItOver(s', hid, id, s.t.runs[id], now)
  {
    assert HandlerOk(g, s.t, s.handlers[hid]) && Knows(s.t, s.handlers[hid]);
  }

  lemma TouchTraced(g: Game, s: State, s': State, hid: int, id: RunId)
    requires Inv(g, s) && Traced(s) && Remembers(s, s') && Advances(g, s, s', hid) && s.handlers[hid].pc.Touching?
    requires id in s'.t.runs && id in s'.t.sheets
    ensures RunTraced(s', id, s'.t.runs[id], s'.t.sheets[id])
  {
    hide Remembers, RunTraced, Touch, TouchAffects;
    var h := s.handlers[hid];
    var r, sheet := s.t.runs[id], s.t.sheets[id];
    if id == h.pc.id {
      assert Knows(s.t, h);
      assert SameRequest(h, s'.handlers[hid]);
      assert AsksAt(s', hid, id, h.task.q, h.now);
      TouchedTraced(s, s', hid, id, r, sheet, h.task.q, h.now);
    } else {
      RunStays(s, s', id, r, sheet);
    }
  }

  lemma TouchedTraced(s: State, s': State, hid: int, id: RunId, r: Run, sheet: Sheet, q: QuestionId, now: Time)
    requires Remembers(s, s') && RunTraced(s, id, r, sheet) && AsksAt(s', hid, id, q, now)
    ensures RunTraced(s', id, r, Touch(sheet, q, now))
  {
    var sheet' := Touch(sheet, q, now);
    RunStays(s, s', id, r, sheet);
    forall p | p in sheet'
      ensures RowTraced(s', id, p, sheet'[p], r.completedAt)
    {
      assert p == q || (p in sheet && sheet'[p] == sheet[p]);
      if p in sheet {
        assert RowTraced(s', id, p, sheet[p], r.completedAt);
      }
    }
    if r.completedAt.Some? {
      ClosedStays(s', s', id, r, sheet, sheet', r.completedAt.value);
    }
  }

  lemma WriteTraced(g: Game, s: State, s': State, hid: int, id: RunId)
    requires Inv(g, s) && Traced(s) && Remembers(s, s') && Advances(g, s, s', hid) && s.handlers[hid].pc.Writing?
    requires id in s'.t.runs && id in s'.t.sheets
    ensures RunTraced(s', id, s'.t.runs[id], s'.t.sheets[id])
  {
    hide Remembers, RunTraced, WriteRow, WriteAffects;
    var h := s.handlers[hid];
    var r, sheet := s.t.runs[id], s.t.sheets[id];
    if id == h.pc.id && WriteAffects(sheet, h.task.q, h.pc.stage) {
      assert Knows(s.t, h) && HandlerOk(g, s.t, h);
      assert SameRequest(h, s'.handlers[hid]);
      WrittenTraced(g, s, s', hid, id, r, sheet, h.pc.stage, h.pc.outcome);
    } else {
      RunStays(s, s', id, r, sheet);
    }
  }

  lemma WrittenTraced(g: Game, s: State, s': State, hid: int, id: RunId, r: Run, sheet: Sheet, stage: Stage,
                      outcome: Option<Outcome>)
    requires Remembers(s, s') && RunTraced(s, id, r, sheet) && hid in s'.handlers
    requires var task := s'.handlers[hid].task;
             && task.Submit? && task.id == id && task.stage == Some(stage) && WriteAffects(sheet, task.q, stage)
             && MayScore(g, task.q, stage, task.text, outcome)
    ensures var h := s'.handlers[hid];
            RunTraced(s', id, r, sheet[h.task.q := WriteRow(sheet, h.task.q, stage, h.task.text, outcome, h.now)])
  {
    var h := s'.handlers[hid];
    var q := h.task.q;
    var row := WriteRow(sheet, q, stage, h.task.text, outcome, h.now);
    var sheet' := sheet[q := row];
    RunStays(s, s', id, r, sheet);
    assert RowTraced(s', id, q, row, r.completedAt) by {
      if stage == FreeText {
        assert Types(s', hid, id, q, h.task.text, h.now);
      } else {
        assert RowTraced(s', id, q, sheet[q], r.completedAt);
        assert Picks(s', hid, id, q, h.task.text, h.now);
      }
    }
    forall p | p in sheet'
      ensures RowTraced(s', id, p, sheet'[p], r.completedAt)
    {
      if p != q {
        assert RowTraced(s', id, p, sheet[p], r.completedAt);
      }
    }
    if r.completedAt.Some? {
      ClosedStays(s', s', id, r, sheet, sheet', r.completedAt.value);
    }
  }

  lemma CompleteTraced(g: Game, s: State, s': State, hid: int, id: RunId)
    requires ValidGame(g) && Inv(g, s) && Traced(s) && Remembers(s, s') && Advances(g, s, s', hid)
    requires s.handlers[hid].pc.Completing? && id in s'.t.runs && id in s'.t.sheets
    ensures RunTraced(s', id, s'.t.runs[id], s'.t.sheets[id])
  {
    hide Remembers, RunTraced, Resolved;
    var h := s.handlers[hid];
    var r, sheet := s.t.runs[id], s.t.sheets[id];
    if id == h.pc.id && s'.t.runs[id] != r {
      assert Knows(s.t, h);
      assert SameRequest(h, s'.handlers[hid]);
      assert AnswersIt(s', hid, id, sheet, h.now);
      CompletedTraced(s, s', hid, id, r, sheet, h.now);
    } else {
      RunStays(s, s', id, r, sheet);
    }
  }

  lemma CompletedTraced(s: State, s': State, hid: int, id: RunId, r: Run, sheet: Sheet, now: Time)
    requires Remembers(s, s') && RunTraced(s, id, r, sheet) && r.completedAt.None?
    requires AnswersIt(s', hid, id, sheet, now)
    ensures RunTraced(s', id, r.(completedAt := Some(now)), sheet)
  {
    RunStays(s, s', id, r, sheet);
    StartStays(s, s', r, r.(completedAt := Some(now)));
    forall q | q in sheet
      ensures RowTraced(s', id, q, sheet[q], Some(now))
    {
      assert RowTraced(s', id, q, sheet[q], None);
    }
  }

  lemma ReadTraced(g: Game, s: State, s': State, hid: int, id: RunId)
    requires Inv(g, s) && Traced(s) && Remembers(s, s') && Advances(g, s, s', hid) && Reads(s.handlers[hid].pc)
    requires id in s'.t.runs && id in s'.t.sheets
    ensures RunTraced(s', id, s'.t.runs[id], s'.t.sheets[id])
  {
    hide Remembers, RunTraced, Step, HandlerOk, TablesOk, Obliged;
    ReadingKeeps(g, s.t, s.handlers[hid], s'.t, s'.handlers[hid]);
    RunStays(s, s', id, s.t.runs[id], s.t.sheets[id]);
  }

  lemma TablesStayTraced(g: Game, s: State, s': State, hid: int)
    requires ValidGame(g) && Inv(g, s) && Traced(s) && Remembers(s, s') && Advances(g, s, s', hid)
    ensures TablesTraced(s')
  {
    forall id | id in s'.t.runs && id in s'.t.sheets
      ensures RunTraced(s', id, s'.t.runs[id], s'.t.sheets[id])
    {
      hide Remembers, RunTraced, Advances, Inv, ValidGame;
      match s.handlers[hid].pc
      case InsertingRun => InsertTraced(g, s, s', hid, id);
      case Finishing(_) => FinishTraced(g, s, s', hid, id);
      case Expiring(_) => FinishTraced(g, s, s', hid, id);
      case Touching(_) => TouchTraced(g, s, s', hid, id);
      case Writing(_, _, _, _) => WriteTraced(g, s, s', hid, id);
      case Completing(_, _, _) => CompleteTraced(g, s, s', hid, id);
      case _ => ReadTraced(g, s, s', hid, id);
    }
  }

  // ----- What a handler knows -----

  lemma KnowsStays(t: Tables, t': Tables, h: Handler)
    requires Later(t, t') && t.runs.Keys == t.sheets.Keys && Knows(t, h)
    ensures Knows(t', h)
  {
  }

  lemma StepKnows(g: Game, t: Tables, h: Handler, t': Tables, h': Handler)
    requires TablesOk(g, t) && HandlerOk(g, t, h) && Knows(t, h) && Step(g, t, h, t', h')
    ensures Knows(t', h')
  {
    hide TablesOk, Resolved, Sweep;
    match h.pc
    case InsertingRun => InsertKnows(g, t, h, t', h');
    case _ =>
  }

  lemma InsertKnows(g: Game, t: Tables, h: Handler, t': Tables, h': Handler)
    requires h.pc.InsertingRun? && Step(g, t, h, t', h')
    ensures Knows(t', h')
  {
    var id :| InsertsRun(t, h.viewer.player, h.task.date, h.now, h.task.limit, id, t') && h'.pc == Loading(id);
  }

  lemma NextTraced(g: Game, s: State, s': State)
    requires ValidGame(g) && Inv(g, s) && Traced(s) && Next(g, s, s')
    ensures Traced(s')
  {
    hide Inv, HandlerOk, TablesOk, RunTraced, Knows, Step, ValidGame, Later, Obliged;
    NextRemembers(g, s, s');
    NextKeeps(g, s, s');
    assert s.t.runs.Keys == s.t.sheets.Keys by {
      KeysAgree(g, s);
    }
    if hid, h :| Arrives(g, s, s', hid, h) {
      OthersStayTraced(s, s');
      FirstKnows(s.t, h);
    } else if hid :| Advances(g, s, s', hid) {
      TablesStayTraced(g, s, s', hid);
      HandlerInOrder(g, s, hid);
      StepKnows(g, s.t, s.handlers[hid], s'.t, s'.handlers[hid]);
      forall k | k in s'.handlers
        ensures Knows(s'.t, s'.handlers[k])
      {
        if k != hid {
          KnowsStays(s.t, s'.t, s.handlers[k]);
        }
      }
    } else {
      OthersStayTraced(s, s');
      forall k | k in s'.handlers
        ensures Knows(s'.t, s'.handlers[k])
      {
        KnowsStays(s.t, s'.t, s.handlers[k]);
      }
    }
  }

  lemma KeysAgree(g: Game, s: State)
    requires Inv(g, s)
    ensures s.t.runs.Keys == s.t.sheets.Keys
  {
  }

  lemma HandlerInOrder(g: Game, s: State, hid: int)
    requires Inv(g, s) && hid in s.handlers
    ensures TablesOk(g, s.t) && HandlerOk(g, s.t, s.handlers[hid])
  {
  }

  lemma FirstKnows(t: Tables, h: Handler)
    requires h.pc == FirstPc(h.task)
    ensures Knows(t, h)
  {
  }

  lemma OthersStayTraced(s: State, s': State)
    requires TablesTraced(s) && Remembers(s, s') && s'.t.runs == s.t.runs && s'.t.sheets == s.t.sheets
    ensures TablesTraced(s')
  {
    forall id | id in s'.t.runs && id in s'.t.sheets
      ensures RunTraced(s', id, s'.t.runs[id], s'.t.sheets[id])
    {
      RunStays(s, s', id, s.t.runs[id], s.t.sheets[id]);
    }
  }

  lemma {:induction false} HistoryIsTraced(g: Game, states: seq<State>, k: nat)
    requires ValidGame(g) && IsHistory(g, states) && k < |states|
    ensures Traced(states[k])
  {
    if k == 0 {
    } else {
      hide Traced, Inv, ValidGame, Next;
      HistoryIsTraced(g, states, k - 1);
      HistoryKeeps(g, states, k - 1);
      assert EventAt(g, states, k - 1);
      NextTraced(g, states[k - 1], states[k]);
    }
  }

  // ----- Where runs and rows come from -----

  /** Every run was started by a request of its browser for its date, at the instant it bears, for
      the time that date allows, and no answer scores two seconds or more past that time. */
  lemma ScoresFallWithinTheLimit(g: Game, states: seq<State>, k: nat, id: RunId) returns (hid: int)
    requires ValidGame(g) && IsHistory(g, states) && k < |states| && id in states[k].t.runs
    ensures id in states[k].t.sheets && hid in states[k].handlers && states[k].handlers[hid].task.Start?
    ensures var h, run := states[k].handlers[hid], states[k].t.runs[id];
            && run.player == h.viewer.player && run.date == h.task.date
            && run.startedAt == h.now && run.expiresAt == h.now + h.task.limit
    ensures var h, sheet := states[k].handlers[hid], states[k].t.sheets[id];
            forall q :: q in sheet && Answers(sheet[q].outcome) ==>
              sheet[q].resolvedAt.Some? && sheet[q].resolvedAt.value < h.now + h.task.limit + 2_000_000_000
  {
    HistoryKeeps(g, states, k);
    HistoryIsTraced(g, states, k);
    var run, sheet := states[k].t.runs[id], states[k].t.sheets[id];
    assert RunTraced(states[k], id, run, sheet);
    hid :| Starts(states[k], hid, run);
    assert RunOk(g, run, sheet);
  }

  /** A completed run was finished on request, or found past its deadline, or given its ninth answer,
      at the instant it bears; an answer finds it over only from two seconds past the deadline on. */
  lemma RunsCloseForAReason(g: Game, states: seq<State>, k: nat, id: RunId)
    requires ValidGame(g) && IsHistory(g, states) && k < |states|
    requires id in states[k].t.runs && states[k].t.runs[id].completedAt.Some?
    ensures id in states[k].t.sheets && AllResolved(g, states[k].t, id)
    ensures Closed(states[k], id, states[k].t.runs[id], states[k].t.sheets[id], states[k].t.runs[id].completedAt.value)
  {
    HistoryKeeps(g, states, k);
    HistoryIsTraced(g, states, k);
    assert RunTraced(states[k], id, states[k].t.runs[id], states[k].t.sheets[id]);
  }

  /** Every row and each of its columns was written by a request for that run and question, with the
      text it holds and at the instant it bears; what nobody answered expired when the run completed. */
  lemma RowsAreRequested(g: Game, states: seq<State>, k: nat, id: RunId, q: QuestionId)
    requires ValidGame(g) && IsHistory(g, states) && k < |states|
    requires id in states[k].t.runs && id in states[k].t.sheets && q in states[k].t.sheets[id]
    ensures RowTraced(states[k], id, q, states[k].t.sheets[id][q], states[k].t.runs[id].completedAt)
  {
    HistoryIsTraced(g, states, k);
    assert RunTraced(states[k], id, states[k].t.runs[id], states[k].t.sheets[id]);
  }

  // ----- Every reply is true -----

  /** The run was started on the viewer's own browser, or on one attached to the viewer's account. */
  predicate Belongs(t: Tables, v: Viewer, id: RunId) {
    && id in t.runs
    && match v.user
       case None => t.runs[id].player == v.player
       case Some(user) => t.runs[id].player == v.player || (t.runs[id].player, user) in t.account.Items
  }

  /** Nothing of the viewer's for the date. */
  ghost predicate HasNone(t: Tables, v: Viewer, date: Date) {
    forall id :: Belongs(t, v, id) ==> t.runs[id].date != date
  }

  /** Of the viewer's runs for the date, the one started first, and of two started at once the one of lower id. */
  ghost predicate IsEarliest(t: Tables, v: Viewer, date: Date, id: RunId) {
    && Belongs(t, v, id) && t.runs[id].date == date
    && forall j :: Belongs(t, v, j) && t.runs[j].date == date ==>
         if t.runs[j].startedAt == t.runs[id].startedAt then id <= j else t.runs[id].startedAt < t.runs[j].startedAt
  }

  /** The reply tells a run as it stood: completed as it is now, or not over at the time of the request. */
  predicate Tells(t: Tables, h: Handler, id: RunId, run: Run, sheet: Sheet) {
    && ItsRun(t, h.task, id) && id in t.runs && id in t.sheets
    && SameRun(run, t.runs[id]) && sheet == t.sheets[id]
    && (if run.completedAt.Some? then t.runs[id].completedAt == run.completedAt else h.now < run.expiresAt)
    && (h.task.FinishNow? ==> run.completedAt.Some?)
  }

  /** A reply is justified by the tables `t` its last statement found and the tables `t'` it left. */
  ghost predicate Explained(g: Game, t: Tables, t': Tables, h: Handler, reply: Reply) {
    match reply
    case NoRun => h.task.GetCurrent? && HasNone(t, h.viewer, h.task.date)
    case NotYourRun => exists id :: ItsRun(t, h.task, id) && !Belongs(t, h.viewer, id)
    case RunExpired =>
      (h.task.Reveal? || h.task.Submit?) && h.task.id in t.runs && t.runs[h.task.id].completedAt.Some?
    case BadQuestion =>
      (h.task.Reveal? || h.task.Submit?) && h.task.id in t.runs && h.task.q !in Board(g, t.runs[h.task.id])
    case InvalidStage =>
      && h.task.Submit? && h.task.id in t.sheets
      && (var q, sheet := h.task.q, t.sheets[h.task.id];
          match h.task.stage
          case None => true
          case Some(FreeText) => q in sheet
          case Some(MultipleChoice) => q !in sheet || sheet[q].stage == FreeText || sheet[q].outcome.Some?)
    case AlreadyAnswered =>
      && h.task.Reveal? && h.task.id in t.sheets && h.task.q in t.sheets[h.task.id]
      && t.sheets[h.task.id][h.task.q].outcome.Some?
    case Options =>
      && h.task.Reveal? && h.task.id in t'.sheets && h.task.q in t'.sheets[h.task.id]
      && t'.sheets[h.task.id][h.task.q].stage == MultipleChoice && t'.sheets[h.task.id][h.task.q].outcome.None?
    case Loaded(run, sheet) => !h.task.Reveal? && !h.task.Submit? && exists id :: Tells(t, h, id, run, sheet)
    case Answered(row) =>
      && h.task.Submit? && h.task.id in t'.sheets && h.task.q in t'.sheets[h.task.id]
      && t'.sheets[h.task.id][h.task.q] == row && Gives(h, row)
  }

  lemma StepExplains(g: Game, t: Tables, h: Handler, t': Tables, h': Handler)
    requires TablesOk(g, t) && HandlerOk(g, t, h) && Knows(t, h) && Step(g, t, h, t', h') && h'.pc.Done?
    ensures Explained(g, t, t', h, h'.pc.reply)
  {
    hide Sweep, Resolved, FinishRun, StartedFirst;
    match h.pc
    case Finishing(id) => assert ItsRun(t, h.task, id) && !Belongs(t, h.viewer, id);
    case Expiring(id) => assert ItsRun(t, h.task, id) && !Belongs(t, h.viewer, id);
    case Loading(id) => assert ItsRun(t, h.task, id) && !Belongs(t, h.viewer, id);
    case Reading(id, run) =>
      if h'.pc.reply.Loaded? {
        assert Tells(t, h, id, run, t.sheets[id]);
      }
    case _ =>
  }

  /** The event that answered a request that is done. */
  lemma {:induction false} AnsweredAt(g: Game, states: seq<State>, k: nat, hid: int) returns (j: nat)
    requires IsHistory(g, states) && k < |states| && hid in states[k].handlers && states[k].handlers[hid].pc.Done?
    ensures j < k && Advances(g, states[j], states[j + 1], hid)
    ensures states[j + 1].handlers[hid] == states[k].handlers[hid]
  {
    hide Step;
    if k == 0 {
      assert false;
    } else {
      assert EventAt(g, states, k - 1);
      var s, s' := states[k - 1], states[k];
      if hid in s.handlers && s.handlers[hid] == s'.handlers[hid] {
        j := AnsweredAt(g, states, k - 1, hid);
      } else {
        j := k - 1;
        if other, h :| Arrives(g, s, s', other, h) {
          assert false;
        } else if other :| Advances(g, s, s', other) {
          assert other == hid;
        }
      }
    }
  }

  /** Every reply was true of the tables at the statement that gave it: nothing is refused but for
      the reason stated, and nothing is shown but what is stored. */
  lemma RepliesAreTrue(g: Game, states: seq<State>, k: nat, hid: int) returns (j: nat)
    requires ValidGame(g) && IsHistory(g, states) && k < |states|
    requires hid in states[k].handlers && states[k].handlers[hid].pc.Done?
    ensures j < k
            && Explained(g, states[j].t, states[j + 1].t, states[k].handlers[hid], states[k].handlers[hid].pc.reply)
  {
    hide Step, TablesOk, HandlerOk, Knows, Explained;
    j := AnsweredAt(g, states, k, hid);
    HistoryKeeps(g, states, j);
    HistoryIsTraced(g, states, j);
    var h := states[j].handlers[hid];
    StepExplains(g, states[j].t, h, states[j + 1].t, states[j + 1].handlers[hid]);
    StepRemembers(g, states[j].t, h, states[j + 1].t, states[j + 1].handlers[hid]);
    SameExplained(g, states[j].t, states[j + 1].t, h, states[k].handlers[hid], states[k].handlers[hid].pc.reply);
  }

  lemma StepRemembers(g: Game, t: Tables, h: Handler, t': Tables, h': Handler)
    requires Step(g, t, h, t', h')
    ensures SameRequest(h, h')
  {
  }

  lemma SameExplained(g: Game, t: Tables, t': Tables, h: Handler, h': Handler, reply: Reply)
    requires SameRequest(h, h') && Explained(g, t, t', h, reply)
    ensures Explained(g, t, t', h', reply)
  {
    if reply.Loaded? {
      var id :| Tells(t, h, id, reply.run, reply.sheet);
      assert Tells(t, h', id, reply.run, reply.sheet);
    }
  }

  // ----- Only owners -----

  /** The statements after a run has been found to be the viewer's. */
  predicate Admitted(pc: Pc) {
    HasRun(pc) && !pc.Finishing? && !pc.Loading? && !pc.Expiring?
  }

  /** A handler that works on a run has found it to be the viewer's. */
  lemma {:induction false} AdmittedOwners(g: Game, states: seq<State>, k: nat, hid: int) returns (j: nat)
    requires IsHistory(g, states) && k < |states| && hid in states[k].handlers && Admitted(states[k].handlers[hid].pc)
    ensures j <= k && Belongs(states[j].t, states[k].handlers[hid].viewer, states[k].handlers[hid].pc.id)
  {
    hide Step, Belongs;
    if k == 0 {
      assert false;
    } else {
      assert EventAt(g, states, k - 1);
      var s, s' := states[k - 1], states[k];
      if other, h :| Arrives(g, s, s', other, h) && other == hid {
        assert false;
      } else if Advances(g, s, s', hid) && s.handlers[hid].pc.Loading? {
        j := k - 1;
        LoadAdmits(g, s.t, s.handlers[hid], s'.t, s'.handlers[hid]);
      } else {
        StaysAdmitted(g, s, s', hid);
        j := AdmittedOwners(g, states, k - 1, hid);
      }
    }
  }

  lemma LoadAdmits(g: Game, t: Tables, h: Handler, t': Tables, h': Handler)
    requires Step(g, t, h, t', h') && h.pc.Loading? && Admitted(h'.pc)
    ensures Belongs(t, h'.viewer, h'.pc.id)
  {
  }

  lemma StepAdmits(g: Game, t: Tables, h: Handler, t': Tables, h': Handler)
    requires Step(g, t, h, t', h') && !h.pc.Loading? && Admitted(h'.pc)
    ensures Admitted(h.pc) && h.pc.id == h'.pc.id && h.viewer == h'.viewer
  {
  }

  lemma StaysAdmitted(g: Game, s: State, s': State, hid: int)
    requires Next(g, s, s') && hid in s'.handlers && Admitted(s'.handlers[hid].pc)
    requires !(Advances(g, s, s', hid) && s.handlers[hid].pc.Loading?)
    requires forall h :: !Arrives(g, s, s', hid, h)
    ensures hid in s.handlers && Admitted(s.handlers[hid].pc) && s.handlers[hid].pc.id == s'.handlers[hid].pc.id
    ensures s.handlers[hid].viewer == s'.handlers[hid].viewer
  {
    hide Step;
    if other, h :| Arrives(g, s, s', other, h) {
    } else if other :| Advances(g, s, s', other) {
      if other == hid {
        StepAdmits(g, s.t, s.handlers[hid], s'.t, s'.handlers[hid]);
      }
    }
  }

  /** The run or its answers are not what they were. */
  predicate Differ(t: Tables, t': Tables, id: RunId)
    requires id in t.runs && id in t.sheets
  {
    id !in t'.runs || id !in t'.sheets || t'.runs[id] != t.runs[id] || t'.sheets[id] != t.sheets[id]
  }

  /** A run and its answers are only ever changed by a request of a viewer who owned the run. */
  lemma OnlyOwnersChangeRuns(g: Game, states: seq<State>, k: nat, id: RunId) returns (hid: int, j: nat)
    requires ValidGame(g) && IsHistory(g, states) && k + 1 < |states|
    requires id in states[k].t.runs && id in states[k].t.sheets
    requires Differ(states[k].t, states[k + 1].t, id)
    ensures hid in states[k].handlers && j <= k && Belongs(states[j].t, states[k].handlers[hid].viewer, id)
  {
    assert EventAt(g, states, k);
    HistoryKeeps(g, states, k);
    var s, s' := states[k], states[k + 1];
    hide Step, Inv, Belongs;
    hid :| Advances(g, s, s', hid);
    OwnerOrAdmitted(g, s, s', hid, id);
    j := k;
    if !Belongs(s.t, s.handlers[hid].viewer, id) {
      j := AdmittedOwners(g, states, k, hid);
    }
  }

  lemma OwnerOrAdmitted(g: Game, s: State, s': State, hid: int, id: RunId)
    requires Inv(g, s) && Advances(g, s, s', hid) && id in s.t.runs && id in s.t.sheets
    requires Differ(s.t, s'.t, id)
    ensures var h := s.handlers[hid]; Belongs(s.t, h.viewer, id) || (Admitted(h.pc) && h.pc.id == id)
  {
    hide Sweep, Touch, TouchAffects, WriteRow, WriteAffects, Resolved, IsCurrent, AfterQuestion;
    assert s.t.runs.Keys == s.t.sheets.Keys;
  }

  /** A run is only inserted for a viewer who had none for the date when the handler looked. */
  lemma {:induction false} LookedFirst(g: Game, states: seq<State>, k: nat, hid: int) returns (j: nat)
    requires IsHistory(g, states) && k < |states| && hid in states[k].handlers
             && states[k].handlers[hid].pc.InsertingRun?
    ensures var h := states[k].handlers[hid];
            j < k && h.task.Start? && HasNone(states[j].t, h.viewer, h.task.date)
  {
    hide Step, HasNone;
    if k == 0 {
      assert false;
    } else {
      assert EventAt(g, states, k - 1);
      var s, s' := states[k - 1], states[k];
      if hid in s.handlers && s.handlers[hid] == s'.handlers[hid] {
        j := LookedFirst(g, states, k - 1, hid);
      } else {
        j := k - 1;
        if other, h :| Arrives(g, s, s', other, h) {
          assert false;
        } else if other :| Advances(g, s, s', other) {
          FoundNone(g, s.t, s.handlers[hid], s'.t, s'.handlers[hid]);
        }
      }
    }
  }

  lemma FoundNone(g: Game, t: Tables, h: Handler, t': Tables, h': Handler)
    requires Step(g, t, h, t', h') && h'.pc.InsertingRun?
    ensures h'.task.Start? && HasNone(t, h'.viewer, h'.task.date)
  {
  }

  // ----- The run that is shown -----

  /** A handler that shows the viewer's run for a date has found the earliest. */
  lemma {:induction false} FoundEarliest(g: Game, states: seq<State>, k: nat, hid: int) returns (j: nat)
    requires IsHistory(g, states) && k < |states| && hid in states[k].handlers
             && states[k].handlers[hid].task.GetCurrent? && HasRun(states[k].handlers[hid].pc)
    ensures var h := states[k].handlers[hid];
            j < k && IsEarliest(states[j].t, h.viewer, h.task.date, h.pc.id)
  {
    hide Step, IsEarliest, HasRun;
    if k == 0 {
      assert false;
    } else {
      assert EventAt(g, states, k - 1);
      var s, s' := states[k - 1], states[k];
      if hid in s.handlers && s.handlers[hid] == s'.handlers[hid] {
        j := FoundEarliest(g, states, k - 1, hid);
      } else {
        ItMoved(g, s, s', hid);
        var found := FindsEarliest(g, s.t, s.handlers[hid], s'.t, s'.handlers[hid]);
        if found {
          j := k - 1;
        } else {
          j := FoundEarliest(g, states, k - 1, hid);
        }
      }
    }
  }

  lemma ItMoved(g: Game, s: State, s': State, hid: int)
    requires Next(g, s, s') && hid in s'.handlers && s'.handlers[hid].task.GetCurrent? && HasRun(s'.handlers[hid].pc)
    requires !(hid in s.handlers && s.handlers[hid] == s'.handlers[hid])
    ensures Advances(g, s, s', hid)
  {
    hide Step;
    if other, h :| Arrives(g, s, s', other, h) {
    } else if other :| Advances(g, s, s', other) {
    }
  }

  lemma FindsEarliest(g: Game, t: Tables, h: Handler, t': Tables, h': Handler) returns (found: bool)
    requires Step(g, t, h, t', h') && h'.task.GetCurrent? && HasRun(h'.pc)
    ensures h.task == h'.task && h.viewer == h'.viewer
    ensures if found then IsEarliest(t, h'.viewer, h'.task.date, h'.pc.id) else HasRun(h.pc) && h.pc.id == h'.pc.id
  {
    found := h.pc.FindingRun?;
  }

  /** The run shown for a date was the viewer's earliest for it when the handler looked. */
  lemma ShowsTheEarliest(g: Game, states: seq<State>, k: nat, hid: int) returns (j: nat, id: RunId)
    requires ValidGame(g) && IsHistory(g, states) && k < |states| && hid in states[k].handlers
    requires states[k].handlers[hid].task.GetCurrent? && states[k].handlers[hid].pc.Done?
             && states[k].handlers[hid].pc.reply.Loaded?
    ensures var h := states[k].handlers[hid];
            && j < k && IsEarliest(states[j].t, h.viewer, h.task.date, id)
            && SameRun(h.pc.reply.run, states[j].t.runs[id])
  {
    var i := AnsweredAt(g, states, k, hid);
    HistoryKeeps(g, states, i);
    var h := states[i].handlers[hid];
    WasReading(g, states[i].t, h, states[i + 1].t, states[i + 1].handlers[hid]);
    j := FoundEarliest(g, states, i, hid);
    id := h.pc.id;
    HistoryKeeps(g, states, j);
    HistoryMovesForward(g, states, j, i);
  }

  lemma WasReading(g: Game, t: Tables, h: Handler, t': Tables, h': Handler)
    requires Step(g, t, h, t', h') && HandlerOk(g, t, h) && h'.pc.Done? && h'.pc.reply.Loaded?
    ensures h.task == h'.task && h.viewer == h'.viewer && HasRun(h.pc)
    ensures h.pc.id in t.runs && SameRun(h'.pc.reply.run, t.runs[h.pc.id])
  {
  }
}
