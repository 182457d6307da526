/** The lifecycle of a daily run, internal/play/play.go.

    Every SQL statement commits on its own, so requests interleave between
    statements.  Each statement is a function on the tables, each request is a
    handler with a program counter, and an event is one arrival, one statement
    or one sign-in.  The theorems hold after every list of events. */
module RunLifecycle {
  import opened Wrappers

  type RunId = int
  type PlayerId = int
  type UserId = int
  type QuestionId = int
  type Date = int
  /** Nanoseconds. */
  type Time = int

  /** How far past the deadline an answer may still arrive: two seconds. */
  const GRACE: Time := 2_000_000_000

  datatype Stage = FreeText | MultipleChoice
  datatype Outcome = Star | Circle | Miss | Expired

  /** A row of run_answers. */
  datatype Answer = Answer(stage: Stage, submission: Option<string>, chosen: Option<string>,
                           outcome: Option<Outcome>, touchedAt: Time, resolvedAt: Option<Time>)

  /** The rows of run_answers that belong to one run. */
  type Sheet = map<QuestionId, Answer>

  /** A row of runs. */
  datatype Run = Run(player: PlayerId, date: Date, startedAt: Time, expiresAt: Time, completedAt: Option<Time>)

  datatype Tables = Tables(runs: map<RunId, Run>, sheets: map<RunId, Sheet>, account: map<PlayerId, UserId>)

  /** The boards, and what each question accepts off the list. */
  datatype Game = Game(boards: map<Date, set<QuestionId>>, canonical: QuestionId -> string)

  predicate ValidGame(g: Game) {
    forall d :: d in g.boards ==> |g.boards[d]| == 9
  }

  datatype Viewer = Viewer(player: PlayerId, user: Option<UserId>)

  // ----- The statements -----

  predicate IsMine(t: Tables, v: Viewer, player: PlayerId) {
    player == v.player || (v.user.Some? && player in t.account && t.account[player] == v.user.value)
  }

  predicate Owns(t: Tables, v: Viewer, id: RunId) {
    id in t.runs && id in t.sheets && IsMine(t, v, t.runs[id].player)
  }

  predicate StartedFirst(t: Tables, i: RunId, j: RunId)
    requires i in t.runs && j in t.runs
  {
    t.runs[i].startedAt < t.runs[j].startedAt || (t.runs[i].startedAt == t.runs[j].startedAt && i <= j)
  }

  /** The viewer's run for the date, the one started first when there are several. */
  ghost predicate IsCurrent(t: Tables, v: Viewer, date: Date, found: Option<RunId>) {
    match found
    case None => forall id :: id in t.runs && IsMine(t, v, t.runs[id].player) ==> t.runs[id].date != date
    case Some(id) =>
      && id in t.runs && IsMine(t, v, t.runs[id].player) && t.runs[id].date == date
      && forall j :: j in t.runs && IsMine(t, v, t.runs[j].player) && t.runs[j].date == date ==> StartedFirst(t, id, j)
  }

  /** INSERT INTO runs ... ON CONFLICT (player_id, puzzle_date): the new run or the one already there. */
  ghost predicate InsertsRun(t: Tables, player: PlayerId, date: Date, now: Time, limit: Time, id: RunId, t': Tables) {
    if exists j :: j in t.runs && t.runs[j].player == player && t.runs[j].date == date then
      id in t.runs && t.runs[id].player == player && t.runs[id].date == date && t' == t
    else
      && id !in t.runs && id !in t.sheets
      && t' == t.(runs := t.runs[id := Run(player, date, now, now + limit, None)], sheets := t.sheets[id := map[]])
  }

  function Sweep(sheet: Sheet, board: set<QuestionId>, now: Time): Sheet {
    map q | q in sheet.Keys + board ::
      if q !in sheet then Answer(FreeText, None, None, Some(Expired), now, Some(now))
      else if q in board && sheet[q].outcome.None? then sheet[q].(outcome := Some(Expired), resolvedAt := Some(now))
      else sheet[q]
  }

  function Board(g: Game, r: Run): set<QuestionId> {
    if r.date in g.boards then g.boards[r.date] else {}
  }

  /** The statement of Finish, for a run the viewer owns. */
  function FinishRun(g: Game, t: Tables, id: RunId, now: Time): Tables
    requires id in t.runs && id in t.sheets
  {
    var r := t.runs[id];
    var done := if r.completedAt.None? then Some(now) else r.completedAt;
    t.(runs := t.runs[id := r.(completedAt := done)], sheets := t.sheets[id := Sweep(t.sheets[id], Board(g, r), now)])
  }

  /** The INSERT of Reveal: the sheet after it, unchanged when no row was affected. */
  function Touch(sheet: Sheet, q: QuestionId, now: Time): Sheet {
    if q !in sheet then sheet[q := Answer(MultipleChoice, None, None, None, now, None)]
    else if sheet[q].outcome.None? && sheet[q].stage == FreeText then sheet[q := sheet[q].(stage := MultipleChoice)]
    else sheet
  }

  predicate TouchAffects(sheet: Sheet, q: QuestionId) {
    q !in sheet || (sheet[q].outcome.None? && sheet[q].stage == FreeText)
  }

  /** Whether AnswerQuestion's write finds a row to insert or update. */
  predicate WriteAffects(sheet: Sheet, q: QuestionId, stage: Stage) {
    match stage
    case FreeText => q !in sheet
    case MultipleChoice => q in sheet && sheet[q].stage == MultipleChoice && sheet[q].outcome.None?
  }

  function WriteRow(sheet: Sheet, q: QuestionId, stage: Stage, text: string, outcome: Option<Outcome>,
                    now: Time): Answer
    requires WriteAffects(sheet, q, stage)
  {
    match stage
    case FreeText => Answer(FreeText, Some(text), None, outcome, now, if outcome.None? then None else Some(now))
    case MultipleChoice => sheet[q].(chosen := Some(text), outcome := outcome, resolvedAt := Some(now))
  }

  function Resolved(sheet: Sheet): set<QuestionId> {
    set q | q in sheet && sheet[q].outcome.Some?
  }

  /** The update that completes a run once nine answers are resolved. */
  function Complete(t: Tables, id: RunId, player: PlayerId, now: Time): Tables
    requires id in t.runs && id in t.sheets
  {
    var r := t.runs[id];
    if r.player == player && r.completedAt.None? && |Resolved(t.sheets[id])| == 9 then
      t.(runs := t.runs[id := r.(completedAt := Some(now))])
    else t
  }

  // ----- The handlers -----

  datatype Task =
    | GetCurrent(date: Date)
    | Start(date: Date, limit: Time)
    | Show(id: RunId)
    | FinishNow(id: RunId)
    | Reveal(id: RunId, q: QuestionId)
    | Submit(id: RunId, q: QuestionId, stage: Option<Stage>, text: string)

  datatype Reply =
    | NoRun
    | NotYourRun
    | RunExpired
    | BadQuestion
    | InvalidStage
    | AlreadyAnswered
    | Options
    | Loaded(run: Run, sheet: Sheet)
    | Answered(row: Answer)

  /** The next statement a handler will execute.  `Fetching` reads the board, `Asking` the question,
      its aliases and its distractors, and the four after it are the judge's; none of those touches
      the tables of runs but the one that checks whether the question is touched. */
  datatype Pc =
    | FindingRun
    | InsertingRun
    | Finishing(id: RunId)
    | Loading(id: RunId)
    | Expiring(id: RunId)
    | Fetching(id: RunId, run: Run)
    | Reading(id: RunId, run: Run)
    | Asking(id: RunId, run: Run, asked: nat)
    | CheckingTouched(id: RunId, run: Run)
    | SeekingVerdict(id: RunId, run: Run)
    | RecordingVerdict(id: RunId, run: Run, accepted: bool)
    | SavingAlias(id: RunId, run: Run)
    | Touching(id: RunId)
    | Checking(id: RunId)
    | Writing(id: RunId, stage: Stage, outcome: Option<Outcome>, run: Run)
    | Completing(id: RunId, player: PlayerId, row: Answer)
    | Done(reply: Reply)

  datatype Handler = Handler(task: Task, viewer: Viewer, now: Time, pc: Pc)

  function FirstPc(task: Task): Pc {
    match task
    case GetCurrent(_) => FindingRun
    case Start(_, _) => FindingRun
    case Show(id) => Loading(id)
    case FinishNow(id) => Finishing(id)
    case Reveal(id, _) => Loading(id)
    case Submit(id, _, _, _) => Loading(id)
  }

  /** The instant the handler loads its run at. */
  function LoadClock(h: Handler): Time {
    if h.task.Submit? then h.now - GRACE else h.now
  }

  /** What a pick scores. */
  function Score(g: Game, q: QuestionId, text: string): Option<Outcome> {
    if text == g.canonical(q) then Some(Circle) else Some(Miss)
  }

  /** What a submission may score; whether typed text is right is for grading and the judge to say. */
  predicate MayScore(g: Game, q: QuestionId, stage: Stage, text: string, outcome: Option<Outcome>) {
    match stage
    case FreeText => outcome == Some(Star) || outcome == None
    case MultipleChoice => outcome == Score(g, q, text)
  }

  /** What is left to do once Load has returned. */
  function AfterLoad(h: Handler, id: RunId, run: Run, sheet: Sheet): Pc {
    if !h.task.Reveal? && !h.task.Submit? then Done(Loaded(run, sheet))
    else if run.completedAt.Some? then Done(RunExpired)
    else Asking(id, run, 0)
  }

  /** The write of a typed answer, once it is settled whether it is right. */
  function TypedWrite(id: RunId, run: Run, correct: bool): Pc {
    Writing(id, FreeText, if correct then Some(Star) else None, run)
  }

  /** What is left to do once the question has been read. */
  ghost predicate AfterQuestion(g: Game, h: Handler, id: RunId, run: Run, next: Pc) {
    match h.task
    case Reveal(_, _) => next == Touching(id)
    case Submit(_, q, stage, text) =>
      (match stage
       case None => next == Done(InvalidStage)
       case Some(MultipleChoice) => next == Writing(id, MultipleChoice, Score(g, q, text), run)
       case Some(FreeText) => next == CheckingTouched(id, run) || exists correct: bool ::
         next == TypedWrite(id, run, correct))
    case _ => false
  }

  /** One statement of a handler. */
  ghost predicate Step(g: Game, t: Tables, h: Handler, t': Tables, h': Handler) {
    && h'.task == h.task && h'.viewer == h.viewer && h'.now == h.now
    && match h.pc
       case FindingRun =>
         && t' == t
         && exists found :: IsCurrent(t, h.viewer, TaskDate(h.task), found)
              && h'.pc == if found.Some? then Loading(found.value) else if h.task.Start? then InsertingRun
                else Done(NoRun)
       case InsertingRun =>
         && h.task.Start?
         && exists id ::
              InsertsRun(t, h.viewer.player, h.task.date, h.now, h.task.limit, id, t') && h'.pc == Loading(id)
       case Finishing(id) =>
         if Owns(t, h.viewer, id) then t' == FinishRun(g, t, id, h.now) && h'.pc == Loading(id)
         else t' == t && h'.pc == Done(NotYourRun)
       case Loading(id) =>
         && t' == t
         && h'.pc == (if !Owns(t, h.viewer, id) then Done(NotYourRun)
                      else if t.runs[id].completedAt.None? && LoadClock(h) >= t.runs[id].expiresAt then Expiring(id)
                      else Fetching(id, t.runs[id]))
       case Expiring(id) =>
         if Owns(t, h.viewer, id) then t' == FinishRun(g, t, id, LoadClock(h)) && h'.pc == Loading(id)
         else t' == t && h'.pc == Done(NotYourRun)
       case Fetching(id, run) => t' == t && h'.pc == Reading(id, run)
       case Reading(id, run) => t' == t && id in t.sheets && h'.pc == AfterLoad(h, id, run, t.sheets[id])
       case Asking(id, run, asked) =>
         && t' == t && (h.task.Reveal? || h.task.Submit?)
         && (if asked == 0 then h'.pc == if h.task.q in Board(g, run) then Asking(id, run, 1) else Done(BadQuestion)
             else if asked == 1 then h'.pc == Asking(id, run, 2)
             else AfterQuestion(g, h, id, run, h'.pc))
       case CheckingTouched(id, run) =>
         && t' == t && h.task.Submit? && id in t.sheets
         && h'.pc == if h.task.q in t.sheets[id] then TypedWrite(id, run, false) else SeekingVerdict(id, run)
       case SeekingVerdict(id, run) =>
         t' == t && (h'.pc == TypedWrite(id, run, false) || exists accepted: bool ::
                     h'.pc == RecordingVerdict(id, run, accepted))
       case RecordingVerdict(id, run, accepted) =>
         t' == t && h'.pc == if accepted then SavingAlias(id, run) else TypedWrite(id, run, false)
       case SavingAlias(id, run) => t' == t && h'.pc == TypedWrite(id, run, true)
       case Touching(id) =>
         && h.task.Reveal? && id in t.sheets
         && t' == t.(sheets := t.sheets[id := Touch(t.sheets[id], h.task.q, h.now)])
         && h'.pc == if TouchAffects(t.sheets[id], h.task.q) then Done(Options) else Checking(id)
       case Checking(id) =>
         && t' == t
         && h.task.Reveal? && id in t.sheets && h.task.q in t.sheets[id]
         && (var row := t.sheets[id][h.task.q];
             h'.pc == if row.stage != MultipleChoice || row.outcome.Some? then Done(AlreadyAnswered) else Done(Options))
       case Writing(id, stage, outcome, run) =>
         && h.task.Submit? && id in t.sheets
         && (if WriteAffects(t.sheets[id], h.task.q, stage) then
               var row := WriteRow(t.sheets[id], h.task.q, stage, h.task.text, outcome, h.now);
               && t' == t.(sheets := t.sheets[id := t.sheets[id][h.task.q := row]])
               && h'.pc == if row.outcome.Some? then Completing(id, run.player, row) else Done(Answered(row))
             else t' == t && h'.pc == Done(InvalidStage))
       case Completing(id, player, row) =>
         && id in t.runs && id in t.sheets
         && t' == Complete(t, id, player, h.now)
         && h'.pc == Done(Answered(row))
       case Done(_) => false
  }

  function TaskDate(task: Task): Date {
    match task
    case GetCurrent(date) => date
    case Start(date, _) => date
    case _ => 0
  }

  // ----- Interleaved execution -----

  datatype State = State(t: Tables, handlers: map<int, Handler>)

  predicate FreshTask(g: Game, task: Task) {
    task.Start? ==> task.date in g.boards && task.limit > 0
  }

  ghost predicate Arrives(g: Game, s: State, s': State, hid: int, h: Handler) {
    hid !in s.handlers && FreshTask(g, h.task) && h.pc == FirstPc(h.task) && s' == s.(handlers := s.handlers[hid := h])
  }

  ghost predicate Advances(g: Game, s: State, s': State, hid: int) {
    && hid in s.handlers && hid in s'.handlers
    && Step(g, s.t, s.handlers[hid], s'.t, s'.handlers[hid])
    && s'.handlers == s.handlers[hid := s'.handlers[hid]]
  }

  ghost predicate SignsIn(s: State, s': State, player: PlayerId, user: UserId) {
    s' == s.(t := s.t.(account := s.t.account[player := user]))
  }

  /** One request arrives, one statement executes, or one browser signs in. */
  ghost predicate Next(g: Game, s: State, s': State) {
    || (exists hid, h :: Arrives(g, s, s', hid, h))
    || (exists hid :: Advances(g, s, s', hid))
    || (exists player, user :: SignsIn(s, s', player, user))
  }

  ghost predicate Initial(s: State) {
    s.t.runs == map[] && s.t.sheets == map[] && s.handlers == map[]
  }

  ghost predicate EventAt(g: Game, states: seq<State>, k: nat)
    requires k + 1 < |states|
  {
    Next(g, states[k], states[k + 1])
  }

  /** A history of the server: an initial state and any number of events. */
  ghost predicate IsHistory(g: Game, states: seq<State>) {
    && |states| > 0 && Initial(states[0])
    && forall k :: 0 <= k < |states| - 1 ==> EventAt(g, states, k)
  }

  // ----- The invariant -----

  predicate Answers(o: Option<Outcome>) {
    o == Some(Star) || o == Some(Circle) || o == Some(Miss)
  }

  /** A row agrees with itself: what was typed, what was chosen, and when. */
  predicate RowOk(g: Game, q: QuestionId, row: Answer, deadline: Time) {
    && (row.outcome.Some? <==> row.resolvedAt.Some?)
    && (row.outcome == Some(Star) ==> row.stage == FreeText && row.submission.Some?)
    && (row.outcome == Some(Circle) ==> row.stage == MultipleChoice && row.chosen == Some(g.canonical(q)))
    && (row.outcome == Some(Miss) ==>
        row.stage == MultipleChoice && row.chosen.Some? && row.chosen != Some(g.canonical(q)))
    && (row.chosen.Some? ==> row.outcome == Some(Circle) || row.outcome == Some(Miss))
    && (Answers(row.outcome) ==> row.resolvedAt.value < deadline + GRACE)
  }

  predicate SheetOk(g: Game, r: Run, sheet: Sheet) {
    forall q :: q in sheet ==> q in Board(g, r) && RowOk(g, q, sheet[q], r.expiresAt)
  }

  predicate RunOk(g: Game, r: Run, sheet: Sheet) {
    && r.date in g.boards && r.startedAt < r.expiresAt
    && SheetOk(g, r, sheet)
    && (r.completedAt.Some? ==> Resolved(sheet) == Board(g, r))
  }

  predicate SameBrowserDate(r: Run, s: Run) {
    r.player == s.player && r.date == s.date
  }

  predicate TablesOk(g: Game, t: Tables) {
    && t.runs.Keys == t.sheets.Keys
    && (forall id :: id in t.runs ==> RunOk(g, t.runs[id], t.sheets[id]))
    && (forall i, j :: i in t.runs && j in t.runs && SameBrowserDate(t.runs[i], t.runs[j]) ==> i == j)
  }

  /** The columns of a run that nothing ever changes. */
  predicate SameRun(r: Run, r': Run) {
    r.player == r'.player && r.date == r'.date && r.startedAt == r'.startedAt && r.expiresAt == r'.expiresAt
  }

  /** What a handler knows of the run it has loaded. */
  predicate LoadedOk(t: Tables, h: Handler, id: RunId, run: Run) {
    id in t.runs && SameRun(run, t.runs[id]) && (run.completedAt.None? ==> LoadClock(h) < run.expiresAt)
  }

  /** What a handler knows while a typed answer is judged. */
  predicate JudgingOk(g: Game, t: Tables, h: Handler, id: RunId, run: Run) {
    && LoadedOk(t, h, id, run) && run.completedAt.None?
    && h.task.Submit? && h.task.stage == Some(FreeText) && h.task.q in Board(g, t.runs[id])
  }

  predicate HandlerOk(g: Game, t: Tables, h: Handler) {
    && FreshTask(g, h.task)
    && match h.pc
       case FindingRun => h.task.GetCurrent? || h.task.Start?
       case InsertingRun => h.task.Start?
       case Finishing(_) => h.task.FinishNow?
       case Loading(_) => true
       case Expiring(_) => true
       case Fetching(id, run) => LoadedOk(t, h, id, run)
       case Reading(id, run) => LoadedOk(t, h, id, run)
       case Asking(id, run, asked) =>
         && LoadedOk(t, h, id, run) && run.completedAt.None? && (h.task.Reveal? || h.task.Submit?)
         && asked <= 2 && (asked > 0 ==> h.task.q in Board(g, t.runs[id]))
       case CheckingTouched(id, run) => JudgingOk(g, t, h, id, run)
       case SeekingVerdict(id, run) => JudgingOk(g, t, h, id, run)
       case RecordingVerdict(id, run, _) => JudgingOk(g, t, h, id, run)
       case SavingAlias(id, run) => JudgingOk(g, t, h, id, run)
       case Touching(id) =>
         id in t.runs && h.task.Reveal? && h.task.q in Board(g, t.runs[id]) && h.now < t.runs[id].expiresAt
       case Checking(id) => id in t.runs && id in t.sheets && h.task.Reveal? && h.task.q in t.sheets[id]
       case Writing(id, stage, outcome, run) =>
         && id in t.runs && SameRun(run, t.runs[id]) && h.task.Submit? && h.task.q in Board(g, t.runs[id])
         && h.now < t.runs[id].expiresAt + GRACE
         && MayScore(g, h.task.q, stage, h.task.text, outcome)
       case Completing(id, player, _) => id in t.runs && t.runs[id].player == player
       case Done(_) => true
  }

  predicate AllResolved(g: Game, t: Tables, id: RunId)
    requires id in t.runs && id in t.sheets
  {
    Resolved(t.sheets[id]) == Board(g, t.runs[id])
  }

  /** The handler has resolved an answer of the run and still has its completing update to do. */
  predicate Owes(s: State, hid: int, id: RunId) {
    hid in s.handlers && s.handlers[hid].pc.Completing? && s.handlers[hid].pc.id == id
  }

  ghost predicate Obliged(g: Game, s: State) {
    forall id :: id in s.t.runs && id in s.t.sheets && AllResolved(g, s.t, id) && s.t.runs[id].completedAt.None? ==>
      exists hid :: Owes(s, hid, id)
  }

  ghost predicate Inv(g: Game, s: State) {
    && TablesOk(g, s.t)
    && (forall hid :: hid in s.handlers ==> HandlerOk(g, s.t, s.handlers[hid]))
    && Obliged(g, s)
  }

  // ----- What never goes back -----

  /** A resolved row is final; an open one keeps what was typed and only moves on to the list. */
  predicate RowLater(a: Answer, b: Answer) {
    if a.outcome.Some? then b == a
    else
      && a.touchedAt == b.touchedAt && a.submission == b.submission
      && (a.stage == MultipleChoice ==> b.stage == MultipleChoice)
  }

  predicate SheetLater(a: Sheet, b: Sheet) {
    forall q :: q in a ==> q in b && RowLater(a[q], b[q])
  }

  predicate RunLater(r: Run, r': Run) {
    SameRun(r, r') && (r.completedAt.Some? ==> r'.completedAt == r.completedAt)
  }

  predicate Later(t: Tables, t': Tables) {
    forall id :: id in t.runs && id in t.sheets ==>
      && id in t'.runs && id in t'.sheets
      && RunLater(t.runs[id], t'.runs[id]) && SheetLater(t.sheets[id], t'.sheets[id])
  }

  lemma LaterReflexive(t: Tables)
    ensures Later(t, t)
  {
  }

  lemma LaterTransitive(t: Tables, t': Tables, t'': Tables)
    requires Later(t, t') && Later(t', t'')
    ensures Later(t, t'')
  {
  }

  // ----- Each statement keeps a sheet in order -----

  lemma ResolvedOnBoard(g: Game, r: Run, sheet: Sheet)
    requires SheetOk(g, r, sheet)
    ensures Resolved(sheet) <= Board(g, r)
  {
    forall q | q in Resolved(sheet)
      ensures q in Board(g, r)
    {
      assert q in sheet;
    }
  }

  lemma SweepKeeps(g: Game, r: Run, sheet: Sheet, now: Time)
    requires SheetOk(g, r, sheet)
    ensures var sheet' := Sweep(sheet, Board(g, r), now);
            SheetOk(g, r, sheet') && SheetLater(sheet, sheet') && Resolved(sheet') == Board(g, r)
  {
    var sheet' := Sweep(sheet, Board(g, r), now);
    ResolvedOnBoard(g, r, sheet');
    forall q | q in Board(g, r)
      ensures q in Resolved(sheet')
    {
      assert q in sheet';
    }
  }

  lemma TouchKeeps(g: Game, r: Run, sheet: Sheet, q: QuestionId, now: Time)
    requires SheetOk(g, r, sheet) && q in Board(g, r)
    ensures var sheet' := Touch(sheet, q, now);
            SheetOk(g, r, sheet') && SheetLater(sheet, sheet') && Resolved(sheet') == Resolved(sheet) && q in sheet'
  {
  }

  lemma WriteKeeps(g: Game, r: Run, sheet: Sheet, q: QuestionId, stage: Stage, text: string, outcome: Option<Outcome>,
                   now: Time)
    requires SheetOk(g, r, sheet) && q in Board(g, r) && WriteAffects(sheet, q, stage)
    requires now < r.expiresAt + GRACE
    requires MayScore(g, q, stage, text, outcome)
    ensures var sheet' := sheet[q := WriteRow(sheet, q, stage, text, outcome, now)];
            && SheetOk(g, r, sheet') && SheetLater(sheet, sheet')
            && Resolved(sheet') == if outcome.Some? then Resolved(sheet) + {q} else Resolved(sheet)
  {
  }

  /** Replacing one run and its sheet by later ones keeps the tables in order. */
  lemma PutKeeps(g: Game, t: Tables, id: RunId, r': Run, sheet': Sheet)
    requires TablesOk(g, t) && id in t.runs
    requires RunLater(t.runs[id], r') && SheetLater(t.sheets[id], sheet') && RunOk(g, r', sheet')
    ensures var t' := t.(runs := t.runs[id := r'], sheets := t.sheets[id := sheet']);
            TablesOk(g, t') && Later(t, t')
  {
  }

  /** A full set of nine: the answers counted are all in the board, so the count decides. */
  lemma NineIsAll(g: Game, r: Run, sheet: Sheet)
    requires ValidGame(g) && r.date in g.boards && SheetOk(g, r, sheet)
    ensures |Resolved(sheet)| == 9 <==> Resolved(sheet) == Board(g, r)
  {
    var open := Board(g, r) - Resolved(sheet);
    ResolvedOnBoard(g, r, sheet);
    assert Board(g, r) == Resolved(sheet) + open;
    assert |Board(g, r)| == |Resolved(sheet)| + |open|;
  }

  // ----- Each statement keeps the tables in order -----

  lemma FinishKeeps(g: Game, t: Tables, id: RunId, now: Time)
    requires TablesOk(g, t) && id in t.runs
    ensures TablesOk(g, FinishRun(g, t, id, now)) && Later(t, FinishRun(g, t, id, now))
    ensures FinishRun(g, t, id, now).runs[id].completedAt.Some?
  {
    var r := t.runs[id];
    SweepKeeps(g, r, t.sheets[id], now);
    var r' := FinishRun(g, t, id, now).runs[id];
    PutKeeps(g, t, id, r', Sweep(t.sheets[id], Board(g, r), now));
  }

  lemma PutSheetKeeps(g: Game, t: Tables, id: RunId, sheet': Sheet)
    requires TablesOk(g, t) && id in t.runs
    requires SheetLater(t.sheets[id], sheet') && SheetOk(g, t.runs[id], sheet')
             && Resolved(t.sheets[id]) <= Resolved(sheet')
    ensures TablesOk(g, t.(sheets := t.sheets[id := sheet'])) && Later(t, t.(sheets := t.sheets[id := sheet']))
  {
    var r := t.runs[id];
    ResolvedOnBoard(g, r, sheet');
    PutKeeps(g, t, id, r, sheet');
    assert t.runs[id := r] == t.runs;
  }

  lemma CompleteKeeps(g: Game, t: Tables, id: RunId, player: PlayerId, now: Time)
    requires ValidGame(g) && TablesOk(g, t) && id in t.runs && t.runs[id].player == player
    ensures TablesOk(g, Complete(t, id, player, now)) && Later(t, Complete(t, id, player, now))
    ensures AllResolved(g, t, id) ==> Complete(t, id, player, now).runs[id].completedAt.Some?
    ensures forall j :: j in t.runs ==> Complete(t, id, player, now).sheets[j] == t.sheets[j]
  {
    var r := t.runs[id];
    NineIsAll(g, r, t.sheets[id]);
    PutKeeps(g, t, id, Complete(t, id, player, now).runs[id], t.sheets[id]);
    assert t.sheets[id := t.sheets[id]] == t.sheets;
    assert t.runs[id := r] == t.runs;
  }

  lemma InsertKeeps(g: Game, t: Tables, player: PlayerId, date: Date, now: Time, limit: Time, id: RunId, t': Tables)
    requires TablesOk(g, t) && date in g.boards && limit > 0
    requires InsertsRun(t, player, date, now, limit, id, t')
    ensures TablesOk(g, t') && Later(t, t') && id in t'.runs
    ensures forall j :: j in t'.runs && j !in t.runs ==> j == id && t'.sheets[j] == map[]
    ensures forall j :: j in t.runs ==> t'.runs[j] == t.runs[j] && t'.sheets[j] == t.sheets[j]
  {
  }

  // ----- Each event keeps the invariant -----

  lemma TouchingKeeps(g: Game, t: Tables, h: Handler, t': Tables, h': Handler)
    requires TablesOk(g, t) && HandlerOk(g, t, h) && Step(g, t, h, t', h') && h.pc.Touching?
    ensures TablesOk(g, t') && Later(t, t') && HandlerOk(g, t', h')
    ensures forall j :: j in t.runs ==> Resolved(t'.sheets[j]) == Resolved(t.sheets[j])
  {
    var id, q := h.pc.id, h.task.q;
    TouchKeeps(g, t.runs[id], t.sheets[id], q, h.now);
    PutSheetKeeps(g, t, id, Touch(t.sheets[id], q, h.now));
  }

  lemma WritingKeeps(g: Game, t: Tables, h: Handler, t': Tables, h': Handler)
    requires TablesOk(g, t) && HandlerOk(g, t, h) && Step(g, t, h, t', h') && h.pc.Writing?
    ensures TablesOk(g, t') && Later(t, t') && HandlerOk(g, t', h')
    ensures forall j :: j in t.runs && (j != h.pc.id || !h'.pc.Completing?) ==>
              Resolved(t'.sheets[j]) == Resolved(t.sheets[j])
    ensures h'.pc.Completing? ==> h'.pc.id == h.pc.id
  {
    var id, q := h.pc.id, h.task.q;
    var r, sheet := t.runs[id], t.sheets[id];
    if WriteAffects(sheet, q, h.pc.stage) {
      WriteKeeps(g, r, sheet, q, h.pc.stage, h.task.text, h.pc.outcome, h.now);
      PutSheetKeeps(g, t, id, sheet[q := WriteRow(sheet, q, h.pc.stage, h.task.text, h.pc.outcome, h.now)]);
    } else {
      LaterReflexive(t);
    }
  }

  lemma InsertingKeeps(g: Game, t: Tables, h: Handler, t': Tables, h': Handler)
    requires TablesOk(g, t) && HandlerOk(g, t, h) && Step(g, t, h, t', h') && h.pc.InsertingRun?
    ensures TablesOk(g, t') && Later(t, t') && HandlerOk(g, t', h')
  {
    var id :| InsertsRun(t, h.viewer.player, h.task.date, h.now, h.task.limit, id, t') && h'.pc == Loading(id);
    InsertKeeps(g, t, h.viewer.player, h.task.date, h.now, h.task.limit, id, t');
  }

  lemma CompletingKeeps(g: Game, t: Tables, h: Handler, t': Tables, h': Handler)
    requires ValidGame(g) && TablesOk(g, t) && HandlerOk(g, t, h) && Step(g, t, h, t', h') && h.pc.Completing?
    ensures TablesOk(g, t') && Later(t, t') && HandlerOk(g, t', h')
  {
    CompleteKeeps(g, t, h.pc.id, h.pc.player, h.now);
  }

  /** The statements that only read. */
  predicate Reads(pc: Pc) {
    !pc.InsertingRun? && !pc.Finishing? && !pc.Expiring? && !pc.Touching? && !pc.Writing? && !pc.Completing?
  }

  lemma ReadingKeeps(g: Game, t: Tables, h: Handler, t': Tables, h': Handler)
    requires TablesOk(g, t) && HandlerOk(g, t, h) && Step(g, t, h, t', h') && Reads(h.pc)
    ensures t' == t && HandlerOk(g, t, h')
  {
    hide TablesOk, InsertsRun, IsCurrent, FinishRun, Touch, TouchAffects, WriteRow, WriteAffects, Complete;
  }

  /** A statement keeps the tables and the handler that executed it in order. */
  lemma StepKeeps(g: Game, t: Tables, h: Handler, t': Tables, h': Handler)
    requires ValidGame(g) && TablesOk(g, t) && HandlerOk(g, t, h) && Step(g, t, h, t', h')
    ensures TablesOk(g, t') && Later(t, t') && HandlerOk(g, t', h')
  {
    hide TablesOk, Later, HandlerOk, Step, ValidGame;
    match h.pc
    case InsertingRun => InsertingKeeps(g, t, h, t', h');
    case Finishing(_) => FinishingKeeps(g, t, h, t', h');
    case Expiring(_) => FinishingKeeps(g, t, h, t', h');
    case Touching(_) => TouchingKeeps(g, t, h, t', h');
    case Writing(_, _, _, _) => WritingKeeps(g, t, h, t', h');
    case Completing(_, _, _) => CompletingKeeps(g, t, h, t', h');
    case _ =>
      ReadingKeeps(g, t, h, t', h');
      LaterReflexive(t);
  }

  lemma FinishingKeeps(g: Game, t: Tables, h: Handler, t': Tables, h': Handler)
    requires TablesOk(g, t) && HandlerOk(g, t, h) && Step(g, t, h, t', h') && (h.pc.Finishing? || h.pc.Expiring?)
    ensures TablesOk(g, t') && Later(t, t') && HandlerOk(g, t', h')
  {
    if Owns(t, h.viewer, h.pc.id) {
      FinishKeeps(g, t, h.pc.id, if h.pc.Finishing? then h.now else LoadClock(h));
    } else {
      LaterReflexive(t);
    }
  }

  /** What a handler relies on is never taken away by another. */
  lemma HandlerStable(g: Game, t: Tables, t': Tables, h: Handler)
    requires TablesOk(g, t) && TablesOk(g, t') && Later(t, t') && HandlerOk(g, t, h)
    ensures HandlerOk(g, t', h)
  {
  }

  /** The run was left with nine resolved answers and no completion already, and not by this handler. */
  predicate OwedBefore(g: Game, t: Tables, h: Handler, id: RunId) {
    && id in t.runs && id in t.sheets && AllResolved(g, t, id) && t.runs[id].completedAt.None?
    && !(h.pc.Completing? && h.pc.id == id)
  }

  lemma InsertingOwes(g: Game, t: Tables, h: Handler, t': Tables, h': Handler, id: RunId)
    requires ValidGame(g) && TablesOk(g, t) && HandlerOk(g, t, h) && Step(g, t, h, t', h') && h.pc.InsertingRun?
    requires TablesOk(g, t') && id in t'.runs && AllResolved(g, t', id) && t'.runs[id].completedAt.None?
    ensures OwedBefore(g, t, h, id)
  {
    var k :| InsertsRun(t, h.viewer.player, h.task.date, h.now, h.task.limit, k, t') && h'.pc == Loading(k);
    InsertKeeps(g, t, h.viewer.player, h.task.date, h.now, h.task.limit, k, t');
    assert Resolved(map[]) == {};
  }

  lemma FinishingOwes(g: Game, t: Tables, h: Handler, t': Tables, h': Handler, id: RunId)
    requires TablesOk(g, t) && Step(g, t, h, t', h') && (h.pc.Finishing? || h.pc.Expiring?)
    requires TablesOk(g, t') && id in t'.runs && AllResolved(g, t', id) && t'.runs[id].completedAt.None?
    ensures OwedBefore(g, t, h, id)
  {
    if Owns(t, h.viewer, h.pc.id) {
      FinishKeeps(g, t, h.pc.id, if h.pc.Finishing? then h.now else LoadClock(h));
    }
  }

  lemma CompletingOwes(g: Game, t: Tables, h: Handler, t': Tables, h': Handler, id: RunId)
    requires ValidGame(g) && TablesOk(g, t) && HandlerOk(g, t, h) && Step(g, t, h, t', h') && h.pc.Completing?
    requires TablesOk(g, t') && id in t'.runs && AllResolved(g, t', id) && t'.runs[id].completedAt.None?
    ensures OwedBefore(g, t, h, id)
  {
    CompleteKeeps(g, t, h.pc.id, h.pc.player, h.now);
  }

  /** A run left with nine resolved answers and no completion was so before, and not
      because of this handler; or this handler has just resolved the ninth. */
  lemma StepOwes(g: Game, t: Tables, h: Handler, t': Tables, h': Handler, id: RunId)
    requires ValidGame(g) && TablesOk(g, t) && HandlerOk(g, t, h) && Step(g, t, h, t', h')
    requires TablesOk(g, t') && Later(t, t')
    requires id in t'.runs && AllResolved(g, t', id) && t'.runs[id].completedAt.None?
    ensures (h'.pc.Completing? && h'.pc.id == id) || OwedBefore(g, t, h, id)
  {
    match h.pc
    case InsertingRun => InsertingOwes(g, t, h, t', h', id);
    case Finishing(_) => FinishingOwes(g, t, h, t', h', id);
    case Expiring(_) => FinishingOwes(g, t, h, t', h', id);
    case Touching(_) => TouchingKeeps(g, t, h, t', h');
    case Writing(_, _, _, _) => WritingKeeps(g, t, h, t', h');
    case Completing(_, _, _) => CompletingOwes(g, t, h, t', h', id);
    case _ =>
      hide Step;
      ReadingKeeps(g, t, h, t', h');
  }

  lemma AdvanceKeepsObliged(g: Game, s: State, s': State, hid: int)
    requires ValidGame(g) && Inv(g, s) && Advances(g, s, s', hid)
    requires TablesOk(g, s'.t) && Later(s.t, s'.t)
    ensures Obliged(g, s')
  {
    var h, h' := s.handlers[hid], s'.handlers[hid];
    forall id | id in s'.t.runs && id in s'.t.sheets && AllResolved(g, s'.t, id) && s'.t.runs[id].completedAt.None?
      ensures exists k :: Owes(s', k, id)
    {
      StepOwes(g, s.t, h, s'.t, h', id);
      if h'.pc.Completing? && h'.pc.id == id {
        assert Owes(s', hid, id);
      } else {
        var k :| Owes(s, k, id);
        assert k != hid;
        assert Owes(s', k, id);
      }
    }
  }

  lemma NextKeeps(g: Game, s: State, s': State)
    requires ValidGame(g) && Inv(g, s) && Next(g, s, s')
    ensures Inv(g, s') && Later(s.t, s'.t)
  {
    if hid, h :| Arrives(g, s, s', hid, h) {
      assert forall id, k :: Owes(s, k, id) ==> Owes(s', k, id);
    } else if hid :| Advances(g, s, s', hid) {
      StepKeeps(g, s.t, s.handlers[hid], s'.t, s'.handlers[hid]);
      forall k | k in s'.handlers
        ensures HandlerOk(g, s'.t, s'.handlers[k])
      {
        if k != hid {
          HandlerStable(g, s.t, s'.t, s.handlers[k]);
        }
      }
      AdvanceKeepsObliged(g, s, s', hid);
    } else {
      assert forall id, k :: Owes(s, k, id) ==> Owes(s', k, id);
    }
  }

  // ----- What holds over every history -----

  lemma {:induction false} HistoryKeeps(g: Game, states: seq<State>, k: nat)
    requires ValidGame(g) && IsHistory(g, states) && k < |states|
    ensures Inv(g, states[k])
  {
    if k == 0 {
    } else {
      HistoryKeeps(g, states, k - 1);
      assert EventAt(g, states, k - 1);
      NextKeeps(g, states[k - 1], states[k]);
    }
  }

  lemma EventMovesForward(g: Game, states: seq<State>, k: nat)
    requires ValidGame(g) && IsHistory(g, states) && k + 1 < |states|
    ensures Later(states[k].t, states[k + 1].t)
  {
    HistoryKeeps(g, states, k);
    assert EventAt(g, states, k);
    NextKeeps(g, states[k], states[k + 1]);
  }

  lemma {:induction false} HistoryMovesForward(g: Game, states: seq<State>, i: nat, j: nat)
    requires ValidGame(g) && IsHistory(g, states) && i <= j < |states|
    ensures Later(states[i].t, states[j].t)
    decreases j
  {
    if i == j {
      LaterReflexive(states[i].t);
    } else {
      HistoryMovesForward(g, states, i, j - 1);
      EventMovesForward(g, states, j - 1);
      LaterTransitive(states[i].t, states[j - 1].t, states[j].t);
    }
  }

  predicate Quiet(s: State) {
    forall hid :: hid in s.handlers ==> s.handlers[hid].pc.Done?
  }

  /** A completed run has all nine questions resolved; and once no request is in
      flight, a run with all nine resolved has been completed. */
  lemma CompletedIffResolved(g: Game, states: seq<State>, k: nat, id: RunId)
    requires ValidGame(g) && IsHistory(g, states) && k < |states|
    requires id in states[k].t.runs
    ensures id in states[k].t.sheets
    ensures states[k].t.runs[id].completedAt.Some? ==> AllResolved(g, states[k].t, id)
    ensures AllResolved(g, states[k].t, id) && states[k].t.runs[id].completedAt.None? ==>
              exists hid :: Owes(states[k], hid, id)
    ensures Quiet(states[k]) ==> (states[k].t.runs[id].completedAt.Some? <==> AllResolved(g, states[k].t, id))
  {
    HistoryKeeps(g, states, k);
  }

  /** Nothing about a completed run ever changes again. */
  lemma CompletedRunIsFrozen(g: Game, states: seq<State>, i: nat, j: nat, id: RunId)
    requires ValidGame(g) && IsHistory(g, states) && i <= j < |states|
    requires id in states[i].t.runs && states[i].t.runs[id].completedAt.Some?
    ensures id in states[j].t.runs && id in states[i].t.sheets && id in states[j].t.sheets
    ensures states[j].t.runs[id] == states[i].t.runs[id]
    ensures states[j].t.sheets[id] == states[i].t.sheets[id]
  {
    HistoryKeeps(g, states, i);
    HistoryKeeps(g, states, j);
    HistoryMovesForward(g, states, i, j);
    var a, b := states[i].t.sheets[id], states[j].t.sheets[id];
    assert Resolved(a) == Board(g, states[i].t.runs[id]) == Board(g, states[j].t.runs[id]);
    forall q | q in b
      ensures q in a && a[q] == b[q]
    {
      assert q in Board(g, states[j].t.runs[id]);
      assert q in Resolved(a);
    }
    forall q | q in a
      ensures q in b
    {
      assert RowLater(a[q], b[q]);
    }
    assert a == b;
  }

  /** Seeing the options forfeits the star, and an outcome once given is kept. */
  lemma OutcomesAreFinal(g: Game, states: seq<State>, i: nat, j: nat, id: RunId, q: QuestionId)
    requires ValidGame(g) && IsHistory(g, states) && i <= j < |states|
    requires id in states[i].t.sheets && q in states[i].t.sheets[id]
    ensures id in states[j].t.sheets && q in states[j].t.sheets[id]
    ensures var a, b := states[i].t.sheets[id][q], states[j].t.sheets[id][q];
            && (a.outcome.Some? ==> b == a)
            && b.submission == a.submission
            && (a.stage == MultipleChoice ==> b.stage == MultipleChoice && b.outcome != Some(Star))
  {
    HistoryKeeps(g, states, i);
    HistoryKeeps(g, states, j);
    HistoryMovesForward(g, states, i, j);
    assert RowOk(g, q, states[j].t.sheets[id][q], states[j].t.runs[id].expiresAt);
  }

  /** An answer that scored was given no later than two seconds past the deadline, at its
      own stage, and a pick scores a circle exactly when it is the canonical answer. */
  lemma ScoredAnswersAreInTime(g: Game, states: seq<State>, k: nat, id: RunId, q: QuestionId)
    requires ValidGame(g) && IsHistory(g, states) && k < |states|
    requires id in states[k].t.sheets && q in states[k].t.sheets[id]
    ensures id in states[k].t.runs && q in Board(g, states[k].t.runs[id])
    ensures var row, run := states[k].t.sheets[id][q], states[k].t.runs[id];
            && (Answers(row.outcome) ==> row.resolvedAt.Some? && row.resolvedAt.value < run.expiresAt + GRACE)
            && (row.outcome == Some(Star) ==> row.stage == FreeText && row.chosen.None?)
            && (row.chosen.Some? ==>
                  && row.stage == MultipleChoice
                  && row.outcome == Some(if row.chosen.value == g.canonical(q) then Circle else Miss))
            && (row.outcome == Some(Circle) || row.outcome == Some(Miss) ==> row.chosen.Some?)
  {
    HistoryKeeps(g, states, k);
  }

  /** A browser never holds two runs for one date. */
  lemma OneRunPerBrowserAndDate(g: Game, states: seq<State>, k: nat, i: RunId, j: RunId)
    requires ValidGame(g) && IsHistory(g, states) && k < |states|
    requires i in states[k].t.runs && j in states[k].t.runs
    requires states[k].t.runs[i].player == states[k].t.runs[j].player
             && states[k].t.runs[i].date == states[k].t.runs[j].date
    ensures i == j
  {
    HistoryKeeps(g, states, k);
  }

  // ----- Every request comes to an end -----

  /** How many statements a handler has left at most once Load has answers to read. */
  function ReadRank(task: Task, run: Run): nat {
    if run.completedAt.Some? then 1
    else match task
      case Submit(_, _, _, _) => 10
      case Reveal(_, _) => 6
      case _ => 1
  }

  /** How many statements a handler has left at most. */
  function Rank(t: Tables, h: Handler): nat {
    match h.pc
    case FindingRun => if h.task.Start? then 7 else 6
    case InsertingRun => 6
    case Finishing(_) => 4
    case Loading(id) =>
      if id in t.runs && t.runs[id].completedAt.Some? then 3
      else if h.task.Submit? then 12
      else if h.task.Reveal? then 8
      else 5
    case Expiring(_) => 4
    case Fetching(_, run) => 1 + ReadRank(h.task, run)
    case Reading(_, run) => ReadRank(h.task, run)
    case Asking(_, _, asked) => (if asked < 3 then 3 - asked else 1) + (if h.task.Submit? then 6 else 2)
    case CheckingTouched(_, _) => 6
    case SeekingVerdict(_, _) => 5
    case RecordingVerdict(_, _, _) => 4
    case SavingAlias(_, _) => 3
    case Touching(_) => 2
    case Writing(_, _, _, _) => 2
    case Checking(_) => 1
    case Completing(_, _, _) => 1
    case Done(_) => 0
  }

  /** How many statements a request can take. */
  function Longest(task: Task): nat {
    match task
    case GetCurrent(_) => 6
    case Start(_, _) => 7
    case Show(_) => 5
    case FinishNow(_) => 4
    case Reveal(_, _) => 8
    case Submit(_, _, _, _) => 12
  }

  lemma StepLowersRank(g: Game, t: Tables, h: Handler, t': Tables, h': Handler)
    requires HandlerOk(g, t, h) && Step(g, t, h, t', h')
    ensures Rank(t', h') < Rank(t, h)
  {
  }

  lemma OthersNeverRaiseRank(g: Game, t: Tables, t': Tables, h: Handler)
    requires TablesOk(g, t) && Later(t, t')
    ensures Rank(t', h) <= Rank(t, h)
  {
  }

  /** How many of the events from `i` to `j` were statements of the handler. */
  function StatementsOf(states: seq<State>, hid: int, i: nat, j: nat): nat
    requires i <= j < |states|
    decreases j - i
  {
    if i == j then 0
    else
      StatementsOf(states, hid, i + 1, j)
      + (if hid in states[i].handlers && hid in states[i + 1].handlers
         && states[i].handlers[hid] != states[i + 1].handlers[hid]
         then 1 else 0)
  }

  lemma NextLowersRank(g: Game, s: State, s': State, hid: int)
    requires ValidGame(g) && Inv(g, s) && Next(g, s, s') && hid in s.handlers
    ensures hid in s'.handlers
    ensures Rank(s'.t, s'.handlers[hid])
            + (if s.handlers[hid] != s'.handlers[hid] then 1 else 0) <= Rank(s.t, s.handlers[hid])
  {
    NextKeeps(g, s, s');
    if k, h :| Arrives(g, s, s', k, h) {
    } else if k :| Advances(g, s, s', k) {
      if k == hid {
        StepLowersRank(g, s.t, s.handlers[k], s'.t, s'.handlers[k]);
      } else {
        OthersNeverRaiseRank(g, s.t, s'.t, s.handlers[hid]);
      }
    }
  }

  lemma {:induction false} StatementsAreRanked(g: Game, states: seq<State>, hid: int, i: nat, j: nat)
    requires ValidGame(g) && IsHistory(g, states) && i <= j < |states| && hid in states[i].handlers
    ensures hid in states[j].handlers
    ensures StatementsOf(states, hid, i, j)
            + Rank(states[j].t, states[j].handlers[hid]) <= Rank(states[i].t, states[i].handlers[hid])
    decreases j - i
  {
    if i == j {
    } else {
      HistoryKeeps(g, states, i);
      assert EventAt(g, states, i);
      NextLowersRank(g, states[i], states[i + 1], hid);
      StatementsAreRanked(g, states, hid, i + 1, j);
    }
  }

  /** A request that arrives after the `i`-th event executes a bounded number of statements,
      however others interleave; a typed answer, at most twelve. */
  lemma RequestsAreShort(g: Game, states: seq<State>, hid: int, i: nat, j: nat)
    requires ValidGame(g) && IsHistory(g, states) && i < j < |states|
    requires hid !in states[i].handlers && hid in states[i + 1].handlers
    ensures StatementsOf(states, hid, i + 1, j) <= Longest(states[i + 1].handlers[hid].task) <= 12
  {
    assert EventAt(g, states, i);
    var h := states[i + 1].handlers[hid];
    assert h.pc == FirstPc(h.task);
    StatementsAreRanked(g, states, hid, i + 1, j);
  }

  lemma {:induction false} EarliestExists(t: Tables, ids: set<RunId>) returns (first: RunId)
    requires |ids| > 0 && ids <= t.runs.Keys
    ensures first in ids && forall j :: j in ids ==> StartedFirst(t, first, j)
    decreases ids
  {
    var some := SomeMember(ids);
    first := some;
    var others := ids - {some};
    if |others| > 0 {
      var next := EarliestExists(t, others);
      if StartedFirst(t, next, first) {
        first := next;
      }
    }
    assert forall k :: k in ids ==> k == some || k in others;
  }

  lemma CurrentExists(t: Tables, v: Viewer, date: Date) returns (found: Option<RunId>)
    ensures IsCurrent(t, v, date, found)
  {
    var ids := set id | id in t.runs && IsMine(t, v, t.runs[id].player) && t.runs[id].date == date;
    if |ids| == 0 {
      assert forall id :: id in t.runs && IsMine(t, v, t.runs[id].player) && t.runs[id].date == date ==> id in ids;
      found := None;
    } else {
      var first := EarliestExists(t, ids);
      found := Some(first);
    }
  }

  lemma {:induction false} UnusedId(ids: set<RunId>) returns (id: RunId)
    ensures forall j :: j in ids ==> j < id
    decreases ids
  {
    if |ids| == 0 {
      id := 0;
    } else {
      var j := SomeMember(ids);
      id := UnusedId(ids - {j});
      if id <= j {
        id := j + 1;
      }
      assert forall k :: k in ids ==> k == j || k in ids - {j};
    }
  }

  /** A request that is not done can always execute its next statement. */
  lemma NeverStuck(g: Game, s: State, hid: int) returns (s': State)
    requires Inv(g, s) && hid in s.handlers && !s.handlers[hid].pc.Done?
    ensures Advances(g, s, s', hid)
  {
    var h := s.handlers[hid];
    var t', h' := StepExists(g, s.t, h);
    s' := State(t', s.handlers[hid := h']);
  }

  lemma StepExists(g: Game, t: Tables, h: Handler) returns (t': Tables, h': Handler)
    requires TablesOk(g, t) && HandlerOk(g, t, h) && !h.pc.Done?
    ensures Step(g, t, h, t', h')
  {
    t', h' := t, h;
    match h.pc
    case FindingRun =>
      var found := CurrentExists(t, h.viewer, TaskDate(h.task));
      h' := h.(pc := if found.Some? then Loading(found.value) else if h.task.Start? then InsertingRun else Done(NoRun));
    case InsertingRun =>
      t', h' := InsertExists(g, t, h);
    case Finishing(id) =>
      t' := if Owns(t, h.viewer, id) then FinishRun(g, t, id, h.now) else t;
      h' := h.(pc := if Owns(t, h.viewer, id) then Loading(id) else Done(NotYourRun));
    case Loading(id) =>
      h' := h.(pc := if !Owns(t, h.viewer, id) then Done(NotYourRun)
                     else if t.runs[id].completedAt.None? && LoadClock(h) >= t.runs[id].expiresAt then Expiring(id)
                     else Fetching(id, t.runs[id]));
    case Expiring(id) =>
      t' := if Owns(t, h.viewer, id) then FinishRun(g, t, id, LoadClock(h)) else t;
      h' := h.(pc := if Owns(t, h.viewer, id) then Loading(id) else Done(NotYourRun));
    case Fetching(id, run) => h' := h.(pc := Reading(id, run));
    case Reading(id, run) => h' := h.(pc := AfterLoad(h, id, run, t.sheets[id]));
    case Asking(id, run, asked) => h' := QuestionExists(g, t, h);
    case CheckingTouched(id, run) =>
      h' := h.(pc := if h.task.q in t.sheets[id] then TypedWrite(id, run, false) else SeekingVerdict(id, run));
    case SeekingVerdict(id, run) => h' := h.(pc := TypedWrite(id, run, false));
    case RecordingVerdict(id, run, accepted) =>
      h' := h.(pc := if accepted then SavingAlias(id, run) else TypedWrite(id, run, false));
    case SavingAlias(id, run) => h' := h.(pc := TypedWrite(id, run, true));
    case Touching(id) =>
      t' := t.(sheets := t.sheets[id := Touch(t.sheets[id], h.task.q, h.now)]);
      h' := h.(pc := if TouchAffects(t.sheets[id], h.task.q) then Done(Options) else Checking(id));
    case Checking(id) =>
      var row := t.sheets[id][h.task.q];
      h' := h.(pc := if row.stage != MultipleChoice || row.outcome.Some? then Done(AlreadyAnswered) else Done(Options));
    case Writing(id, stage, outcome, run) =>
      if WriteAffects(t.sheets[id], h.task.q, stage) {
        var row := WriteRow(t.sheets[id], h.task.q, stage, h.task.text, outcome, h.now);
        t' := t.(sheets := t.sheets[id := t.sheets[id][h.task.q := row]]);
        h' := h.(pc := if row.outcome.Some? then Completing(id, run.player, row) else Done(Answered(row)));
      } else {
        h' := h.(pc := Done(InvalidStage));
      }
    case Completing(id, player, row) =>
      t' := Complete(t, id, player, h.now);
      h' := h.(pc := Done(Answered(row)));
  }

  lemma QuestionExists(g: Game, t: Tables, h: Handler) returns (h': Handler)
    requires HandlerOk(g, t, h) && h.pc.Asking?
    ensures Step(g, t, h, t, h')
  {
    var id, run := h.pc.id, h.pc.run;
    if h.pc.asked == 0 {
      h' := h.(pc := if h.task.q in Board(g, run) then Asking(id, run, 1) else Done(BadQuestion));
    } else if h.pc.asked == 1 {
      h' := h.(pc := Asking(id, run, 2));
    } else if h.task.Reveal? {
      h' := h.(pc := Touching(id));
    } else {
      h' := h.(pc := match h.task.stage
                     case None => Done(InvalidStage)
                     case Some(MultipleChoice) => Writing(id, MultipleChoice, Score(g, h.task.q, h.task.text), run)
                     case Some(FreeText) => TypedWrite(id, run, false));
    }
  }

  lemma InsertExists(g: Game, t: Tables, h: Handler) returns (t': Tables, h': Handler)
    requires TablesOk(g, t) && HandlerOk(g, t, h) && h.pc.InsertingRun?
    ensures Step(g, t, h, t', h')
  {
    var player, date := h.viewer.player, h.task.date;
    var id: RunId;
    if j :| j in t.runs && t.runs[j].player == player && t.runs[j].date == date {
      id, t' := j, t;
    } else {
      id := UnusedId(t.runs.Keys);
      assert id !in t.runs.Keys;
      t' := t.(runs := t.runs[id := Run(player, date, h.now, h.now + h.task.limit, None)],
               sheets := t.sheets[id := map[]]);
    }
    h' := h.(pc := Loading(id));
    assert InsertsRun(t, player, date, h.now, h.task.limit, id, t');
  }

  // ----- The run that counts -----

  /** The statistics query: the completed run of the viewer's that was started first. */
  ghost predicate IsCounted(t: Tables, v: Viewer, date: Date, id: RunId) {
    && id in t.runs && IsMine(t, v, t.runs[id].player) && t.runs[id].date == date && t.runs[id].completedAt.Some?
    && forall j :: j in t.runs && IsMine(t, v, t.runs[j].player) && t.runs[j].date == date
                   && t.runs[j].completedAt.Some? ==>
         StartedFirst(t, id, j)
  }

  /** The board shows the run the statistics count, once that run is over. */
  lemma CurrentIsCounted(t: Tables, v: Viewer, date: Date, shown: RunId, counted: RunId)
    requires IsCurrent(t, v, date, Some(shown)) && t.runs[shown].completedAt.Some?
    ensures IsCounted(t, v, date, shown)
    ensures IsCounted(t, v, date, counted) ==> counted == shown
  {
  }

  /** A completed run of a player attached to an account. */
  predicate Finished(t: Tables, id: RunId) {
    id in t.runs && t.runs[id].completedAt.Some? && t.runs[id].player in t.account
  }

  /** Two finished runs fall under one account and date. */
  predicate SameDay(t: Tables, i: RunId, j: RunId)
    requires Finished(t, i) && Finished(t, j)
  {
    t.account[t.runs[i].player] == t.account[t.runs[j].player] && t.runs[i].date == t.runs[j].date
  }

  /** Out of all finished runs, the first of each account and date. */
  function UserRuns(t: Tables): set<RunId> {
    set id | id in t.runs && Finished(t, id) && forall j :: j in t.runs && Finished(t, j) && SameDay(t, id, j) ==>
      StartedFirst(t, id, j)
  }

  /** The runs of one date, and no others. */
  function OnDate(t: Tables, date: Date): Tables {
    t.(runs := map id | id in t.runs && t.runs[id].date == date :: t.runs[id])
  }

  /** Choosing over the whole table and keeping a date is choosing within the date. */
  lemma ChoosingThenFiltering(t: Tables, date: Date)
    ensures (set id | id in UserRuns(t) && t.runs[id].date == date) == UserRuns(OnDate(t, date))
  {
    var within := OnDate(t, date);
    forall id
      ensures id in UserRuns(t) && t.runs[id].date == date <==> id in UserRuns(within)
    {
      if Finished(within, id) {
        assert forall j :: Finished(within, j) <==> Finished(t, j) && t.runs[j].date == date;
      }
    }
  }

  /** Every account gets exactly one run for each date it has finished one on. */
  lemma OneRunPerUserAndDate(t: Tables, done: RunId) returns (id: RunId)
    requires Finished(t, done)
    ensures id in UserRuns(t) && SameDay(t, id, done)
    ensures forall j :: j in UserRuns(t) && SameDay(t, j, done) ==> j == id
  {
    var rivals := set j | j in t.runs && Finished(t, j) && SameDay(t, done, j);
    assert done in rivals;
    id := EarliestExists(t, rivals);
  }

  /** A signed-in viewer's history is the account's chosen runs, date for date. */
  lemma ViewerCountsAsUser(t: Tables, player: PlayerId, user: UserId, date: Date, id: RunId)
    requires player in t.account && t.account[player] == user
    ensures IsCounted(t, Viewer(player, Some(user)), date, id)
            <==> id in UserRuns(t) && t.runs[id].date == date && t.account[t.runs[id].player] == user
  {
    var v := Viewer(player, Some(user));
    assert forall p :: IsMine(t, v, p) <==> p in t.account && t.account[p] == user;
  }
}
