/** The schedule: every board ever made, under generation, pin-and-rebuild, play and library edits. */
module Schedule {
  import opened Wrappers
  import opened Generator
  import opened Boards

  /** The tables the schedule is made of. `played` holds the dates that have a run. */
  datatype World = World(lib: Library, boards: Calendar, pins: map<Date, map<int, TopicId>>, played: set<Date>,
                         today: Date)

  function PinsFor(w: World, date: Date): map<int, TopicId> {
    if date in w.pins then w.pins[date] else map[]
  }

  function EnvOf(cfg: Config, w: World, date: Date, rng: nat -> nat): Env {
    Env(cfg, w.lib, w.boards, date, rng)
  }

  // ----- The operations -----

  /** Generation stores the board it makes and nothing else. */
  function Generated(cfg: Config, w: World, date: Date, rng: nat -> nat): World
    requires ValidLibrary(w.lib)
  {
    var r := Generate(EnvOf(cfg, w, date, rng), PinsFor(w, date));
    if r.Made? then w.(boards := w.boards[date := r.board]) else w
  }

  datatype Rebuild =
    | BadPosition
    | DuplicateTopic
    | UnknownTopic
    | DateNotFuture
    | DateHasRuns
    | Unfilled(why: Result)
    | Rebuilt(board: seq<Entry>)

  predicate KnownTopic(lib: Library, id: TopicId) {
    exists t :: t in lib.topics && t.id == id
  }

  /** The world inside the transaction once the pins are set and the old board is gone. */
  function Cleared(w: World, date: Date, slots: map<int, TopicId>): World {
    w.(pins := w.pins[date := slots], boards := w.boards - {date})
  }

  /** Setting pins and rebuilding, with today's date as of the request. */
  function TryRebuild(cfg: Config, w: World, date: Date, slots: map<int, TopicId>, rng: nat -> nat): Rebuild
    requires ValidLibrary(w.lib)
  {
    if exists p :: p in slots && !(0 <= p <= 2) then BadPosition
    else if exists p, q :: p in slots && q in slots && p != q && slots[p] == slots[q] then DuplicateTopic
    else if exists p :: p in slots && !KnownTopic(w.lib, slots[p]) then UnknownTopic
    else if !(w.today < date) then DateNotFuture
    else if date in w.played then DateHasRuns
    else
      var r := Generate(EnvOf(cfg, Cleared(w, date, slots), date, rng), slots);
      if r.Made? then Rebuilt(r.board) else Unfilled(r)
  }

  /** Everything or nothing: a rebuild that fails leaves the pins and the old board as they were. */
  function RebuiltWorld(cfg: Config, w: World, date: Date, slots: map<int, TopicId>, rng: nat -> nat): World
    requires ValidLibrary(w.lib)
  {
    var r := TryRebuild(cfg, w, date, slots, rng);
    if r.Rebuilt? then (var c := Cleared(w, date, slots); c.(boards := c.boards[date := r.board])) else w
  }

  predicate OnSomeBoard(w: World, q: QuestionId) {
    exists d, i :: d in w.boards && 0 <= i < |w.boards[d]| && w.boards[d][i].question == q
  }

  /** An edit of the library keeps the answers of the questions on the schedule. */
  ghost predicate KeepsAnswers(w: World, lib: Library) {
    forall q :: OnSomeBoard(w, q) ==> AnswerKey(lib, q) == AnswerKey(w.lib, q)
  }

  datatype Event =
    | GenerateFor(date: Date, rng: nat -> nat)
    | RebuildWithPins(date: Date, slots: map<int, TopicId>, rng: nat -> nat)
    | StartRun(date: Date)
    | EditLibrary(lib: Library)
    | Tomorrow

  ghost predicate Allowed(w: World, ev: Event) {
    match ev
    case StartRun(date) => date in w.boards
    case EditLibrary(lib) => ValidLibrary(lib) && KeepsAnswers(w, lib)
    case _ => true
  }

  function Next(cfg: Config, w: World, ev: Event): World
    requires ValidLibrary(w.lib)
  {
    match ev
    case GenerateFor(date, rng) => Generated(cfg, w, date, rng)
    case RebuildWithPins(date, slots, rng) => RebuiltWorld(cfg, w, date, slots, rng)
    case StartRun(date) => w.(played := w.played + {date})
    case EditLibrary(lib) => w.(lib := lib)
    case Tomorrow => w.(today := w.today + 1)
  }

  // ----- The invariant -----

  /** Three topics in columns 0, 1 and 2, a question of each difficulty in each. */
  ghost predicate Grid(board: seq<Entry>) {
    exists slots :: Shaped(board, slots) && ThreeColumns(slots)
  }

  predicate DistinctQuestions(board: seq<Entry>) {
    forall i, j :: 0 <= i < j < |board| ==> board[i].question != board[j].question
  }

  predicate PinsShown(pins: map<int, TopicId>, board: seq<Entry>) {
    forall i :: 0 <= i < |board| && board[i].position in pins ==> board[i].topic == pins[board[i].position]
  }

  predicate NothingShared(a: seq<Entry>, b: seq<Entry>) {
    forall i, j :: 0 <= i < |a| && 0 <= j < |b| ==> a[i].question != b[j].question
  }

  ghost predicate GoodBoard(pins: map<int, TopicId>, board: seq<Entry>) {
    Grid(board) && DistinctQuestions(board) && PinsShown(pins, board)
  }

  ghost predicate BoardsOk(w: World) {
    forall d :: d in w.boards ==> GoodBoard(PinsFor(w, d), w.boards[d])
  }

  /** No question comes back within the cooldown. */
  predicate QuestionsApart(cfg: Config, boards: Calendar) {
    forall d, e :: d in boards && e in boards && d != e && Abs(d - e) < cfg.cooldownDays ==>
      NothingShared(boards[d], boards[e])
  }

  /** With the answer rule on, no answer comes back on a board or within its cooldown. */
  ghost predicate AnswersApart(cfg: Config, lib: Library, boards: Calendar) {
    cfg.answerCooldownDays > 0 ==>
      && (forall d :: d in boards ==> DistinctAnswers(lib, boards[d]))
      && (forall d, e :: d in boards && e in boards && d != e && Abs(d - e) < cfg.answerCooldownDays ==>
            Keys(lib, boards[d]) !! Keys(lib, boards[e]))
  }

  ghost predicate TablesOk(w: World) {
    && ValidLibrary(w.lib)
    && (forall d :: d in w.pins ==> d in w.boards && ValidPins(w.pins[d]))
    && (forall d :: d in w.played ==> d in w.boards)
  }

  ghost predicate Inv(cfg: Config, w: World) {
    TablesOk(w) && BoardsOk(w) && QuestionsApart(cfg, w.boards) && AnswersApart(cfg, w.lib, w.boards)
  }

  // ----- One more board -----

  lemma NewBoardIsGood(env: Env, pins: map<int, TopicId>, board: seq<Entry>, slots: seq<Slot>)
    requires SoundBoard(env, pins, board, slots)
    ensures GoodBoard(pins, board)
  {
    QuestionsDiffer(env, board, slots);
    forall i | 0 <= i < |board| && board[i].position in pins
      ensures board[i].topic == pins[board[i].position]
    {
      assert Cell(board[i], slots[i / 3], i % 3);
    }
  }

  lemma NewBoardSharesNoQuestion(env: Env, board: seq<Entry>, e: Date)
    requires AllEligible(env, board)
    requires e in env.boards && e != env.date && Abs(e - env.date) < env.cfg.cooldownDays
    ensures NothingShared(board, env.boards[e]) && NothingShared(env.boards[e], board)
  {
  }

  lemma NearbyKeys(env: Env, e: Date)
    requires env.cfg.answerCooldownDays > 0
    requires e in env.boards && e != env.date && Abs(e - env.date) < env.cfg.answerCooldownDays
    ensures AnswersUsedNear(env).Some? && Keys(env.lib, env.boards[e]) <= AnswersUsedNear(env).value
  {
  }

  lemma AnswersOfNewBoard(env: Env, board: seq<Entry>, spent: Option<set<string>>)
    requires AnswersOk(env, board, spent) && env.cfg.answerCooldownDays > 0
    ensures AnswersUsedNear(env).Some? && DistinctAnswers(env.lib, board)
            && Keys(env.lib, board) !! AnswersUsedNear(env).value
  {
  }

  lemma NewBoardKeepsQuestions(cfg: Config, env: Env, board: seq<Entry>)
    requires env.cfg == cfg && env.date !in env.boards && AllEligible(env, board) && QuestionsApart(cfg, env.boards)
    ensures QuestionsApart(cfg, env.boards[env.date := board])
  {
    var boards := env.boards[env.date := board];
    forall d, e | d in boards && e in boards && d != e && Abs(d - e) < cfg.cooldownDays
      ensures NothingShared(boards[d], boards[e])
    {
      hide NothingShared, AllEligible;
      if d == env.date {
        NewBoardSharesNoQuestion(env, board, e);
      } else if e == env.date {
        NewBoardSharesNoQuestion(env, board, d);
      }
    }
  }

  lemma NewBoardKeepsAnswers(cfg: Config, env: Env, board: seq<Entry>, spent: Option<set<string>>)
    requires env.cfg == cfg && env.date !in env.boards && AnswersOk(env, board, spent)
             && AnswersApart(cfg, env.lib, env.boards)
    ensures AnswersApart(cfg, env.lib, env.boards[env.date := board])
  {
    hide AnswersOk, DistinctAnswers, Keys, AnswersUsedNear;
    var boards := env.boards[env.date := board];
    if cfg.answerCooldownDays > 0 {
      AnswersOfNewBoard(env, board, spent);
      forall d, e | d in boards && e in boards && d != e && Abs(d - e) < cfg.answerCooldownDays
        ensures Keys(env.lib, boards[d]) !! Keys(env.lib, boards[e])
      {
        if d == env.date {
          NearbyKeys(env, e);
        } else if e == env.date {
          NearbyKeys(env, d);
        }
      }
    }
  }

  /** A board made for a free date fits the schedule it was made from. */
  lemma NewBoardFits(cfg: Config, w: World, date: Date, rng: nat -> nat, pins: map<int, TopicId>)
    requires TablesOk(w.(pins := map[])) && QuestionsApart(cfg, w.boards) && AnswersApart(cfg, w.lib, w.boards)
    requires ValidPins(pins) && date !in w.boards
    requires Generate(EnvOf(cfg, w, date, rng), pins).Made?
    ensures var board := Generate(EnvOf(cfg, w, date, rng), pins).board;
            && GoodBoard(pins, board)
            && QuestionsApart(cfg, w.boards[date := board])
            && AnswersApart(cfg, w.lib, w.boards[date := board])
  {
    hide GoodBoard, QuestionsApart, AnswersApart, Generate, Shaped, ThreeColumns, HonoursPins, AllEligible, AnswersOk;
    var env := EnvOf(cfg, w, date, rng);
    var board := Generate(env, pins).board;
    var slots := MadeBoardsAreSound(env, pins);
    NewBoardIsGood(env, pins, board, slots);
    NewBoardKeepsQuestions(cfg, env, board);
    NewBoardKeepsAnswers(cfg, env, board, Spend(env.lib, AnswersUsedNear(env), board));
  }

  // ----- Every step keeps the invariant -----

  lemma GenerateKeeps(cfg: Config, w: World, date: Date, rng: nat -> nat)
    requires Inv(cfg, w)
    ensures Inv(cfg, Generated(cfg, w, date, rng))
  {
    hide GoodBoard, QuestionsApart, AnswersApart, Generate, ValidLibrary;
    var w', pins := Generated(cfg, w, date, rng), PinsFor(w, date);
    if Generate(EnvOf(cfg, w, date, rng), pins).Made? {
      MadeMeansFree(EnvOf(cfg, w, date, rng), pins);
      assert pins == map[];
      NewBoardFits(cfg, w, date, rng, pins);
    }
  }

  lemma MadeMeansFree(env: Env, pins: map<int, TopicId>)
    requires ValidLibrary(env.lib) && Generate(env, pins).Made?
    ensures env.date !in env.boards
  {
  }

  lemma ClearingKeeps(cfg: Config, w: World, date: Date)
    requires QuestionsApart(cfg, w.boards) && AnswersApart(cfg, w.lib, w.boards)
    ensures QuestionsApart(cfg, w.boards - {date}) && AnswersApart(cfg, w.lib, w.boards - {date})
  {
    hide NothingShared, DistinctAnswers, Keys;
  }

  lemma RebuildKeeps(cfg: Config, w: World, date: Date, slots: map<int, TopicId>, rng: nat -> nat)
    requires Inv(cfg, w)
    ensures Inv(cfg, RebuiltWorld(cfg, w, date, slots, rng))
  {
    hide GoodBoard, QuestionsApart, AnswersApart, Generate, ValidLibrary;
    if TryRebuild(cfg, w, date, slots, rng).Rebuilt? {
      var c := Cleared(w, date, slots);
      ClearingKeeps(cfg, w, date);
      NewBoardFits(cfg, c, date, rng, slots);
    }
  }

  lemma SameKeys(w: World, lib: Library, d: Date)
    requires KeepsAnswers(w, lib) && d in w.boards
    ensures Keys(lib, w.boards[d]) == Keys(w.lib, w.boards[d])
    ensures DistinctAnswers(w.lib, w.boards[d]) ==> DistinctAnswers(lib, w.boards[d])
  {
    forall i | 0 <= i < |w.boards[d]|
      ensures AnswerKey(lib, w.boards[d][i].question) == AnswerKey(w.lib, w.boards[d][i].question)
    {
      assert OnSomeBoard(w, w.boards[d][i].question);
    }
  }

  lemma EditKeeps(cfg: Config, w: World, lib: Library)
    requires Inv(cfg, w) && ValidLibrary(lib) && KeepsAnswers(w, lib)
    ensures Inv(cfg, w.(lib := lib))
  {
    hide GoodBoard, QuestionsApart, KeepsAnswers, Keys, DistinctAnswers, ValidLibrary;
    forall d | d in w.boards
      ensures Keys(lib, w.boards[d]) == Keys(w.lib, w.boards[d])
      ensures DistinctAnswers(w.lib, w.boards[d]) ==> DistinctAnswers(lib, w.boards[d])
    {
      SameKeys(w, lib, d);
    }
  }

  lemma StepKeeps(cfg: Config, w: World, ev: Event)
    requires Inv(cfg, w) && Allowed(w, ev)
    ensures Inv(cfg, Next(cfg, w, ev))
  {
    hide GoodBoard, QuestionsApart, AnswersApart, ValidLibrary, Generated, RebuiltWorld, KeepsAnswers;
    match ev
    case GenerateFor(date, rng) => GenerateKeeps(cfg, w, date, rng);
    case RebuildWithPins(date, slots, rng) => RebuildKeeps(cfg, w, date, slots, rng);
    case EditLibrary(lib) => EditKeeps(cfg, w, lib);
    case _ =>
  }

  // ----- Whole histories -----

  ghost predicate EventAt(cfg: Config, states: seq<World>, events: seq<Event>, k: nat)
    requires k < |events| && |states| == |events| + 1
  {
    && ValidLibrary(states[k].lib) && Allowed(states[k], events[k])
    && states[k + 1] == Next(cfg, states[k], events[k])
  }

  /** A run of the schedule from an empty one. */
  ghost predicate IsHistory(cfg: Config, states: seq<World>, events: seq<Event>) {
    && |states| == |events| + 1
    && ValidLibrary(states[0].lib) && states[0].boards == map[] && states[0].pins == map[] && states[0].played == {}
    && forall k :: 0 <= k < |events| ==> EventAt(cfg, states, events, k)
  }

  lemma {:induction false} HistoryKeeps(cfg: Config, states: seq<World>, events: seq<Event>, k: nat)
    requires IsHistory(cfg, states, events) && k < |states|
    ensures Inv(cfg, states[k])
  {
    if k == 0 {
    } else {
      hide Inv, Allowed, Next, ValidLibrary;
      HistoryKeeps(cfg, states, events, k - 1);
      assert EventAt(cfg, states, events, k - 1);
      StepKeeps(cfg, states[k - 1], events[k - 1]);
    }
  }

  // ----- What every history promises -----

  /** Each position and difficulty of each board holds exactly one question, no question is on
      a board twice, and pinned positions show their pins. */
  lemma EveryBoardIsAGrid(cfg: Config, states: seq<World>, events: seq<Event>, k: nat, date: Date, position: int,
                          d: Difficulty) returns (at: nat)
    requires IsHistory(cfg, states, events) && k < |states| && date in states[k].boards && 0 <= position < 3
    ensures var board := states[k].boards[date];
            && |board| == 9 && at < 9 && DistinctQuestions(board)
            && (forall i :: 0 <= i < 9 ==> (board[i].position == position && board[i].difficulty == d <==> i == at))
            && (forall i :: 0 <= i < 9 ==> (board[i].topic == board[at].topic <==> board[i].position == position))
            && (position in PinsFor(states[k], date) ==> board[at].topic == PinsFor(states[k], date)[position])
  {
    hide IsHistory, TablesOk, QuestionsApart, AnswersApart;
    HistoryKeeps(cfg, states, events, k);
    at := GridAt(states[k].boards[date], position, d);
  }

  lemma GridAt(board: seq<Entry>, position: int, d: Difficulty) returns (at: nat)
    requires Grid(board) && 0 <= position < 3
    ensures |board| == 9 && at < 9
    ensures forall i :: 0 <= i < 9 ==> (board[i].position == position && board[i].difficulty == d <==> i == at)
    ensures forall i :: 0 <= i < 9 ==> (board[i].topic == board[at].topic <==> board[i].position == position)
  {
    var slots :| Shaped(board, slots) && ThreeColumns(slots);
    at := EveryCellOnce(board, slots, position, d);
    forall i | 0 <= i < 9
      ensures board[i].topic == board[at].topic <==> board[i].position == position
    {
      assert Cell(board[i], slots[i / 3], i % 3) && Cell(board[at], slots[at / 3], at % 3);
    }
  }

  /** A question on two dates is on dates at least the cooldown apart. */
  lemma QuestionsRest(cfg: Config, states: seq<World>, events: seq<Event>, k: nat, d: Date, i: nat, e: Date, j: nat)
    requires IsHistory(cfg, states, events) && k < |states| && d in states[k].boards && e in states[k].boards && d != e
    requires i < |states[k].boards[d]| && j < |states[k].boards[e]|
    requires states[k].boards[d][i].question == states[k].boards[e][j].question
    ensures Abs(d - e) >= cfg.cooldownDays
  {
    hide IsHistory, TablesOk, BoardsOk, AnswersApart;
    HistoryKeeps(cfg, states, events, k);
  }

  /** With the answer rule on, two cells with the same answer are on dates at least its cooldown apart. */
  lemma AnswersRest(cfg: Config, states: seq<World>, events: seq<Event>, k: nat, d: Date, i: nat, e: Date, j: nat)
    requires IsHistory(cfg, states, events) && k < |states| && d in states[k].boards && e in states[k].boards
    requires i < |states[k].boards[d]| && j < |states[k].boards[e]| && (d, i) != (e, j)
    requires cfg.answerCooldownDays > 0
    requires AnswerKey(states[k].lib, states[k].boards[d][i].question)
             == AnswerKey(states[k].lib, states[k].boards[e][j].question)
    ensures Abs(d - e) >= cfg.answerCooldownDays
  {
    hide IsHistory, TablesOk, BoardsOk, QuestionsApart;
    HistoryKeeps(cfg, states, events, k);
    assert AnswerKey(states[k].lib, states[k].boards[d][i].question) in Keys(states[k].lib, states[k].boards[d]);
    assert AnswerKey(states[k].lib, states[k].boards[e][j].question) in Keys(states[k].lib, states[k].boards[e]);
  }

  /** A date whose board can no longer change. */
  predicate Settled(w: World, date: Date) {
    date in w.boards && (date in w.played || date <= w.today)
  }

  lemma StepSettles(cfg: Config, w: World, ev: Event, date: Date)
    requires ValidLibrary(w.lib) && Allowed(w, ev) && date in w.boards
    ensures date in Next(cfg, w, ev).boards && (Settled(w, date) ==> Settled(Next(cfg, w, ev), date))
    ensures Next(cfg, w, ev).boards[date] != w.boards[date] ==>
              ev.RebuildWithPins? && ev.date == date && w.today < date && date !in w.played
  {
    hide ValidLibrary, KeepsAnswers, GenerateOn;
  }

  /** A board that has been played, or whose day has come, never changes again; no date loses its board. */
  lemma {:induction false} SettledBoardsNeverChange(cfg: Config, states: seq<World>, events: seq<Event>, k: nat,
                                                    m: nat, date: Date)
    requires IsHistory(cfg, states, events) && k <= m < |states| && date in states[k].boards
    ensures date in states[m].boards
    ensures Settled(states[k], date) ==> Settled(states[m], date) && states[m].boards[date] == states[k].boards[date]
    decreases m
  {
    if k == m {
    } else {
      hide Allowed, Next, ValidLibrary;
      SettledBoardsNeverChange(cfg, states, events, k, m - 1, date);
      assert EventAt(cfg, states, events, m - 1);
      StepSettles(cfg, states[m - 1], events[m - 1], date);
    }
  }

  /** Generating a date that has a board returns that board and changes nothing, whatever the pins
      and the library have become. */
  lemma GenerationIsIdempotent(cfg: Config, w: World, date: Date, rng: nat -> nat, rng': nat -> nat)
    requires ValidLibrary(w.lib)
    ensures var w' := Generated(cfg, w, date, rng);
            date in w'.boards ==>
              && Generated(cfg, w', date, rng') == w'
              && Generate(EnvOf(cfg, w', date, rng'), PinsFor(w', date)) == Existing(w'.boards[date])
  {
    hide GenerateOn, ValidLibrary;
  }

  /** A rebuild that succeeds shows exactly the pins it was given; one that fails changes nothing. */
  lemma RebuildIsAllOrNothing(cfg: Config, w: World, date: Date, slots: map<int, TopicId>, rng: nat -> nat)
    requires Inv(cfg, w)
    ensures var r, w' := TryRebuild(cfg, w, date, slots, rng), RebuiltWorld(cfg, w, date, slots, rng);
            if r.Rebuilt? then
              && date in w'.boards && w'.boards[date] == r.board && GoodBoard(slots, r.board)
                && PinsFor(w', date) == slots
              && (forall d :: d != date ==> PinsFor(w', d) == PinsFor(w, d) && (d in w'.boards <==> d in w.boards))
              && (forall d :: d in w.boards && d != date ==> w'.boards[d] == w.boards[d])
            else w' == w
  {
    hide GoodBoard, QuestionsApart, AnswersApart, Generate, ValidLibrary;
    if TryRebuild(cfg, w, date, slots, rng).Rebuilt? {
      ClearingKeeps(cfg, w, date);
      NewBoardFits(cfg, Cleared(w, date, slots), date, rng, slots);
    }
  }

  // ----- What each event leaves behind -----

  /** A rebuild succeeds exactly for known topics in different positions of a later, unplayed date for
      which the generator then makes a board; a refusal names the first of these to fail. */
  lemma RebuildDecides(cfg: Config, w: World, date: Date, slots: map<int, TopicId>, rng: nat -> nat)
    requires ValidLibrary(w.lib)
    ensures var r := TryRebuild(cfg, w, date, slots, rng);
            var made := Generate(EnvOf(cfg, Cleared(w, date, slots), date, rng), slots);
            && (r.Rebuilt? <==> ValidPins(slots) && AllKnown(w.lib, slots) && date > w.today && date !in w.played
                                && made.Made?)
            && (r.Rebuilt? ==> made == Made(r.board))
            && (r.BadPosition? || r.DuplicateTopic? <==> !ValidPins(slots))
            && (r.BadPosition? <==> exists p :: p in slots && (p < 0 || p > 2))
            && (r.UnknownTopic? <==> ValidPins(slots) && !AllKnown(w.lib, slots))
            && (r.DateNotFuture? <==> ValidPins(slots) && AllKnown(w.lib, slots) && date <= w.today)
            && (r.DateHasRuns? <==> ValidPins(slots) && AllKnown(w.lib, slots) && date > w.today && date in w.played)
            && (r.Unfilled? ==> r.why == made && !made.Existing?)
  {
    hide Generate, ValidLibrary;
    ClearedMeansNew(EnvOf(cfg, Cleared(w, date, slots), date, rng), slots);
  }

  lemma ClearedMeansNew(env: Env, pins: map<int, TopicId>)
    requires ValidLibrary(env.lib) && env.date !in env.boards
    ensures !Generate(env, pins).Existing?
  {
  }

  ghost predicate AllKnown(lib: Library, slots: map<int, TopicId>) {
    forall p :: p in slots ==> exists i :: 0 <= i < |lib.topics| && lib.topics[i].id == slots[p]
  }

  /** The event is a generation or a rebuild of the date that came out with this board. */
  ghost predicate Makes(cfg: Config, w: World, ev: Event, date: Date, board: seq<Entry>)
    requires ValidLibrary(w.lib)
  {
    match ev
    case GenerateFor(d, rng) => d == date && Generate(EnvOf(cfg, w, date, rng), PinsFor(w, date)) == Made(board)
    case RebuildWithPins(d, slots, rng) => d == date && TryRebuild(cfg, w, date, slots, rng) == Rebuilt(board)
    case _ => false
  }

  /** What is made is stored, and nothing else about the boards changes. */
  lemma StepBoards(cfg: Config, w: World, ev: Event, date: Date)
    requires ValidLibrary(w.lib)
    ensures forall board :: Makes(cfg, w, ev, date, board) ==>
              date in Next(cfg, w, ev).boards && Next(cfg, w, ev).boards[date] == board
    ensures (forall board :: !Makes(cfg, w, ev, date, board)) ==>
              (date in Next(cfg, w, ev).boards <==> date in w.boards)
              && (date in w.boards ==> Next(cfg, w, ev).boards[date] == w.boards[date])
  {
    hide Generate, ValidLibrary, TryRebuild;
    match ev
    case GenerateFor(d, rng) =>
      var r := Generate(EnvOf(cfg, w, d, rng), PinsFor(w, d));
      assert r.Made? && d == date ==> Makes(cfg, w, ev, date, r.board);
    case RebuildWithPins(d, slots, rng) =>
      var r := TryRebuild(cfg, w, d, slots, rng);
      assert r.Rebuilt? && d == date ==> Makes(cfg, w, ev, date, r.board);
    case _ =>
  }

  ghost predicate MakesAt(cfg: Config, states: seq<World>, events: seq<Event>, k: nat, date: Date, board: seq<Entry>)
    requires k < |events| && |states| == |events| + 1 && EventAt(cfg, states, events, k)
  {
    Makes(cfg, states[k], events[k], date, board)
  }

  /** The event at `j` is the last before the `k`-th state to make a board for the date, and made this one. */
  ghost predicate LastMade(cfg: Config, states: seq<World>, events: seq<Event>, j: nat, k: nat, date: Date,
                           board: seq<Entry>)
    requires IsHistory(cfg, states, events) && k < |states|
  {
    && j < k && EventAt(cfg, states, events, j) && MakesAt(cfg, states, events, j, date, board)
    && forall m, other :: j < m < k && EventAt(cfg, states, events, m) ==> !MakesAt(cfg, states, events, m, date, other)
  }

  /** The board of a date is the last one made for it, if any was. */
  lemma {:induction false} BoardsAreTheLastMade(cfg: Config, states: seq<World>, events: seq<Event>, k: nat, date: Date,
                                                board: seq<Entry>)
    requires IsHistory(cfg, states, events) && k < |states|
    ensures date in states[k].boards && states[k].boards[date] == board
            <==> exists j: nat :: LastMade(cfg, states, events, j, k, date, board)
  {
    hide Next, Makes, Allowed, ValidLibrary;
    if k == 0 {
    } else {
      var m: nat := k - 1;
      BoardsAreTheLastMade(cfg, states, events, m, date, board);
      assert EventAt(cfg, states, events, m);
      StepBoards(cfg, states[m], events[m], date);
      if made :| MakesAt(cfg, states, events, m, date, made) {
        assert Makes(cfg, states[m], events[m], date, made);
        assert LastMade(cfg, states, events, m, k, date, made);
        forall j: nat | LastMade(cfg, states, events, j, k, date, board)
          ensures board == made
        {
          assert j == m;
        }
      } else {
        assert forall other :: Makes(cfg, states[m], events[m], date, other) ==>
            MakesAt(cfg, states, events, m, date, other);
        forall j: nat
          ensures LastMade(cfg, states, events, j, k, date, board) <==> LastMade(cfg, states, events, j, m, date, board)
        {
          if LastMade(cfg, states, events, j, m, date, board) {
            assert forall i, other :: j < i < k && EventAt(cfg, states, events, i) ==>
                !MakesAt(cfg, states, events, i, date, other);
          }
        }
      }
    }
  }

  /** How many of the first `k` events are midnights. */
  function Midnights(events: seq<Event>, k: nat): nat
    requires k <= |events|
  {
    if k == 0 then 0 else Midnights(events, k - 1) + if events[k - 1].Tomorrow? then 1 else 0
  }

  /** The day advances with midnights alone, and the dates that count as played are those a run was started on. */
  lemma {:induction false} DaysAndRunsAreKept(cfg: Config, states: seq<World>, events: seq<Event>, k: nat)
    requires IsHistory(cfg, states, events) && k < |states|
    ensures states[k].today == states[0].today + Midnights(events, k)
    ensures forall date :: date in states[k].played <==> StartRun(date) in events[..k]
  {
    hide Allowed, ValidLibrary, Generated, RebuiltWorld;
    if k == 0 {
    } else {
      DaysAndRunsAreKept(cfg, states, events, k - 1);
      assert EventAt(cfg, states, events, k - 1);
      OtherColumns(cfg, states[k - 1], events[k - 1]);
      assert events[..k] == events[..k - 1] + [events[k - 1]];
    }
  }

  lemma OtherColumns(cfg: Config, w: World, ev: Event)
    requires ValidLibrary(w.lib)
    ensures Next(cfg, w, ev).today == w.today + if ev.Tomorrow? then 1 else 0
    ensures Next(cfg, w, ev).played == w.played + if ev.StartRun? then {ev.date} else {}
  {
    hide Generate, TryRebuild;
  }

  /** From the moment a run is started on a date, or its day has come, its board is the same for ever. */
  lemma PlayedBoardsStay(cfg: Config, states: seq<World>, events: seq<Event>, j: nat, k: nat, date: Date)
    requires IsHistory(cfg, states, events) && j <= k < |states| && date in states[j].boards
    requires StartRun(date) in events[..j] || date <= states[0].today + Midnights(events, j)
    ensures date in states[k].boards && states[k].boards[date] == states[j].boards[date]
  {
    hide IsHistory;
    DaysAndRunsAreKept(cfg, states, events, j);
    SettledBoardsNeverChange(cfg, states, events, j, k, date);
  }

  /** The rows of a board meet every uniqueness constraint of their table. */
  lemma RowsFitTheKeys(pins: map<int, TopicId>, board: seq<Entry>)
    requires GoodBoard(pins, board)
    ensures forall i, j :: 0 <= i < j < |board| ==>
              && (board[i].topic, board[i].difficulty) != (board[j].topic, board[j].difficulty)
              && (board[i].position, board[i].difficulty) != (board[j].position, board[j].difficulty)
              && board[i].question != board[j].question
    ensures forall i :: 0 <= i < |board| ==> 0 <= board[i].position <= 2
  {
    var slots :| Shaped(board, slots) && ThreeColumns(slots);
    forall i, j | 0 <= i < j < |board|
      ensures (board[i].topic, board[i].difficulty) != (board[j].topic, board[j].difficulty)
      ensures (board[i].position, board[i].difficulty) != (board[j].position, board[j].difficulty)
    {
      assert Cell(board[i], slots[i / 3], i % 3) && Cell(board[j], slots[j / 3], j % 3);
      assert i == 3 * (i / 3) + i % 3 && j == 3 * (j / 3) + j % 3;
    }
    forall i | 0 <= i < |board|
      ensures 0 <= board[i].position <= 2
    {
      assert Cell(board[i], slots[i / 3], i % 3);
    }
  }

  // ----- Reading a board back -----

  function Rank(d: Difficulty): int {
    match d case Easy => 0 case Medium => 1 case Hard => 2
  }

  /** Where a cell comes in reading order. */
  function Place(e: Entry): int {
    3 * e.position + Rank(e.difficulty)
  }

  /** The rows of a board as a query ordered by position and difficulty returns them; `from` says
      which stored row each came from. */
  predicate IsReadBack(stored: seq<Entry>, rows: seq<Entry>, from: seq<nat>) {
    && |rows| == |from| == |stored|
    && (forall i :: 0 <= i < |from| ==> from[i] < |stored| && rows[i] == stored[from[i]])
    && (forall i, j :: 0 <= i < j < |from| ==> from[i] != from[j])
    && (forall i, j :: 0 <= i < j < |rows| ==>
          rows[i].position < rows[j].position
            || (rows[i].position == rows[j].position && Rank(rows[i].difficulty) <= Rank(rows[j].difficulty)))
  }

  datatype ReadBack = Missing | Board(rows: seq<Entry>) | PartiallyWritten

  /** No rows are no board, nine rows a board and anything else an error. */
  function Get(rows: seq<Entry>): ReadBack {
    match |rows|
    case 0 => Missing
    case 9 => Board(rows)
    case _ => PartiallyWritten
  }

  lemma PlacesDiffer(board: seq<Entry>, i: nat, j: nat)
    requires Grid(board) && i < |board| && j < |board| && i != j
    ensures Place(board[i]) != Place(board[j])
  {
    var slots :| Shaped(board, slots) && ThreeColumns(slots);
    assert Cell(board[i], slots[i / 3], i % 3);
    var at := EveryCellOnce(board, slots, board[i].position, board[i].difficulty);
  }

  lemma PlaceBounds(board: seq<Entry>, i: nat)
    requires Grid(board) && i < |board|
    ensures |board| == 9 && 0 <= Place(board[i]) < 9
  {
    var slots :| Shaped(board, slots) && ThreeColumns(slots);
    assert Cell(board[i], slots[i / 3], i % 3);
  }

  lemma {:induction false} AscendingPlaces(board: seq<Entry>, rows: seq<Entry>, from: seq<nat>, i: nat)
    requires Grid(board) && IsReadBack(board, rows, from) && i < |rows|
    ensures |rows| == 9 && i <= Place(rows[i])
  {
    hide Grid, Place;
    PlaceBounds(board, from[i]);
    if i > 0 {
      AscendingPlaces(board, rows, from, i - 1);
      PlacesDiffer(board, from[i - 1], from[i]);
      NextPlace(rows[i - 1], rows[i]);
    }
  }

  lemma NextPlace(a: Entry, b: Entry)
    requires a.position < b.position || (a.position == b.position && Rank(a.difficulty) <= Rank(b.difficulty))
    ensures Place(a) <= Place(b)
  {
  }

  lemma {:induction false} PlacesLeaveRoom(board: seq<Entry>, rows: seq<Entry>, from: seq<nat>, i: nat)
    requires Grid(board) && IsReadBack(board, rows, from) && i < |rows|
    ensures |rows| == 9 && Place(rows[i]) <= i
    decreases 9 - i
  {
    hide Grid, Place;
    PlaceBounds(board, from[i]);
    if i < 8 {
      PlacesLeaveRoom(board, rows, from, i + 1);
      PlacesDiffer(board, from[i], from[i + 1]);
      NextPlace(rows[i], rows[i + 1]);
    }
  }

  /** Whatever order the rows were written in, a board reads back as its nine cells, left to
      right and easiest first, in one possible way. */
  lemma BoardsReadBack(board: seq<Entry>, rows: seq<Entry>, from: seq<nat>, rows': seq<Entry>, from': seq<nat>)
    requires Grid(board) && IsReadBack(board, rows, from) && IsReadBack(board, rows', from')
    ensures |rows| == 9 && Get(rows) == Board(rows) && rows' == rows
    ensures forall i :: 0 <= i < 9 ==> rows[i].position == i / 3 && rows[i].difficulty == DIFFICULTIES[i % 3]
  {
    forall i | 0 <= i < |board|
      ensures |rows| == 9 && rows[i].position == i / 3 && rows[i].difficulty == DIFFICULTIES[i % 3]
              && rows'[i] == rows[i]
    {
      hide Grid;
      AscendingPlaces(board, rows, from, i);
      PlacesLeaveRoom(board, rows, from, i);
      AscendingPlaces(board, rows', from', i);
      PlacesLeaveRoom(board, rows', from', i);
      if from[i] != from'[i] {
        PlacesDiffer(board, from[i], from'[i]);
      }
    }
    assert |board| == 9;
  }
}
