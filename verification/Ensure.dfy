/** Lazy generation, internal/puzzle/ensure.go: any number of requests find a date without a
    board at once.  Each statement is a step, and every interleaving of the requests is
    considered, with failures and cancellations anywhere. */
module Ensure {
  import opened Generator

  datatype CalendarDate = CalendarDate(year: int, month: int, day: int)

  predicate ValidDate(d: CalendarDate) {
    0 <= d.year <= 9999 && 1 <= d.month <= 12 && 1 <= d.day <= 31
  }

  /** Conversion to a 32-bit integer, which drops the high bits. */
  function Int32(x: int): int {
    (x + 0x8000_0000) % 0x1_0000_0000 - 0x8000_0000
  }

  function DateLockKey(d: CalendarDate): int {
    Int32(d.year * 10000 + d.month * 100 + d.day)
  }

  lemma KeyIsExact(d: CalendarDate)
    requires ValidDate(d)
    ensures DateLockKey(d) == d.year * 10000 + d.month * 100 + d.day
  {
  }

  /** No bits are lost, and different dates have different locks. */
  lemma LockKeysDiffer(d: CalendarDate, e: CalendarDate)
    requires ValidDate(d) && ValidDate(e)
    ensures -0x8000_0000 <= DateLockKey(d) < 0x8000_0000
    ensures DateLockKey(d) == DateLockKey(e) ==> d == e
  {
    KeyIsExact(d);
    KeyIsExact(e);
    var m, n := d.month * 100 + d.day, e.month * 100 + e.day;
    if d.year < e.year {
      assert d.year * 10000 + 10000 <= e.year * 10000;
    } else if d.year > e.year {
      assert e.year * 10000 + 10000 <= d.year * 10000;
    }
  }

  // ----- The protocol -----

  type Caller = nat
  type Board = seq<Entry>

  datatype Pc =
    | Arriving
    | Opening
    | Queueing
    | Holding
    | Generating
    | Written(board: Board)
    | Returning(board: Board)
    | Served(board: Board)
    | Failed
    | Conflicted

  /** `dates` says which date each caller asked for.  `committed` is what a reader sees; a board
      in a caller's `Written` is visible to nobody else. */
  datatype State = State(dates: map<Caller, CalendarDate>, committed: map<CalendarDate, Board>,
                         locks: map<int, Caller>, pcs: map<Caller, Pc>)

  datatype Event =
    | Read
    | Begin
    | Acquire
    | Reread
    | Generate(r: Result)
    | Commit
    | CommitUnacknowledged
    | Fail

  function Key(s: State, c: Caller): int
    requires c in s.dates
  {
    DateLockKey(s.dates[c])
  }

  predicate Holds(pc: Pc) {
    pc.Holding? || pc.Generating? || pc.Written? || pc.Returning?
  }

  predicate Finished(pc: Pc) {
    pc.Served? || pc.Failed? || pc.Conflicted?
  }

  function Goto(s: State, c: Caller, pc: Pc): State {
    s.(pcs := s.pcs[c := pc])
  }

  /** The end of a transaction releases the locks it took. */
  function End(s: State, c: Caller, pc: Pc): State
    requires c in s.dates && c in s.pcs
  {
    var t := Goto(s, c, pc);
    if Holds(s.pcs[c]) then t.(locks := s.locks - {Key(s, c)}) else t
  }

  /** Another transaction has written the date's row and not ended. */
  predicate RowPending(s: State, c: Caller)
    requires c in s.dates
  {
    exists o :: o in s.pcs && o != c && o in s.dates && s.dates[o] == s.dates[c] && s.pcs[o].Written?
  }

  predicate Enabled(s: State, c: Caller, ev: Event)
    requires c in s.dates && c in s.pcs
  {
    match s.pcs[c]
    case Arriving => ev.Read? || ev.Fail?
    case Opening => ev.Begin? || ev.Fail?
    case Queueing => (ev.Acquire? && Key(s, c) !in s.locks) || ev.Fail?
    case Holding => ev.Reread? || ev.Fail?
    case Generating => (ev.Generate? && !RowPending(s, c)) || ev.Fail?
    case Written(_) => ev.Commit? || ev.CommitUnacknowledged? || ev.Fail?
    case Returning(_) => ev.Commit? || ev.Fail?
    case _ => false
  }

  function Next(s: State, c: Caller, ev: Event): State
    requires c in s.dates && c in s.pcs && Enabled(s, c, ev)
  {
    var date := s.dates[c];
    match ev
    case Read => Goto(s, c, if date in s.committed then Served(s.committed[date]) else Opening)
    case Begin => Goto(s, c, Queueing)
    case Acquire => Goto(s, c, Holding).(locks := s.locks[Key(s, c) := c])
    case Reread => Goto(s, c, if date in s.committed then Returning(s.committed[date]) else Generating)
    case Generate(r) =>
      if !r.Made? then End(s, c, Failed)
      else if date in s.committed then End(s, c, Conflicted)
      else Goto(s, c, Written(r.board))
    case Commit =>
      if s.pcs[c].Written? then End(s, c, Served(s.pcs[c].board)).(committed := s.committed[date := s.pcs[c].board])
      else End(s, c, Served(s.pcs[c].board))
    case CommitUnacknowledged => End(s, c, Failed).(committed := s.committed[date := s.pcs[c].board])
    case Fail => End(s, c, Failed)
  }

  // ----- The invariant -----

  ghost predicate Typed(s: State) {
    && s.pcs.Keys == s.dates.Keys
    && forall c :: c in s.dates ==> ValidDate(s.dates[c])
  }

  ghost predicate LocksMatch(s: State)
    requires Typed(s)
  {
    && (forall c :: c in s.pcs && Holds(s.pcs[c]) ==> Key(s, c) in s.locks && s.locks[Key(s, c)] == c)
    && (forall k :: k in s.locks ==> s.locks[k] in s.pcs && Holds(s.pcs[s.locks[k]]) && Key(s, s.locks[k]) == k)
  }

  predicate CallerOk(committed: map<CalendarDate, Board>, date: CalendarDate, pc: Pc) {
    match pc
    case Generating => date !in committed
    case Written(_) => date !in committed
    case Returning(b) => date in committed && committed[date] == b
    case Served(b) => date in committed && committed[date] == b
    case Conflicted => false
    case _ => true
  }

  ghost predicate Inv(s: State) {
    && Typed(s) && LocksMatch(s)
    && forall c :: c in s.pcs ==> CallerOk(s.committed, s.dates[c], s.pcs[c])
  }

  /** Two callers for one date are never inside the lock together. */
  lemma OneInside(s: State, c: Caller, o: Caller)
    requires Typed(s) && LocksMatch(s) && c in s.pcs && o in s.pcs && s.dates[c] == s.dates[o]
    requires Holds(s.pcs[c]) && Holds(s.pcs[o])
    ensures c == o
  {
  }

  /** A step moves one caller, who takes the lock if it is free, keeps it or gives it up. */
  lemma StepMovesOneLock(s: State, c: Caller, ev: Event)
    requires Typed(s) && c in s.pcs && Enabled(s, c, ev)
    ensures var s' := Next(s, c, ev);
            && s'.dates == s.dates && c in s'.pcs && s'.pcs == s.pcs[c := s'.pcs[c]]
            && s'.locks == (if Holds(s.pcs[c]) == Holds(s'.pcs[c]) then s.locks
                            else if Holds(s.pcs[c]) then s.locks - {Key(s, c)}
                            else s.locks[Key(s, c) := c])
            && (!Holds(s.pcs[c]) && Holds(s'.pcs[c]) ==> Key(s, c) !in s.locks)
  {
    hide DateLockKey, ValidDate, RowPending;
  }

  lemma StepKeepsLocks(s: State, c: Caller, ev: Event)
    requires Inv(s) && c in s.pcs && Enabled(s, c, ev)
    ensures Typed(Next(s, c, ev)) && LocksMatch(Next(s, c, ev))
  {
    hide CallerOk, DateLockKey, ValidDate, Enabled, Next;
    StepMovesOneLock(s, c, ev);
  }

  lemma StepKeepsCallers(s: State, c: Caller, ev: Event, o: Caller)
    requires Inv(s) && c in s.pcs && Enabled(s, c, ev) && o in s.pcs
    ensures var s' := Next(s, c, ev); CallerOk(s'.committed, s.dates[o], s'.pcs[o])
  {
    hide DateLockKey, ValidDate, RowPending;
    assert CallerOk(s.committed, s.dates[o], s.pcs[o]) && CallerOk(s.committed, s.dates[c], s.pcs[c]);
    if s.pcs[c].Written? && s.dates[o] == s.dates[c] && Holds(s.pcs[o]) {
      OneInside(s, c, o);
    }
  }

  lemma StepKeeps(s: State, c: Caller, ev: Event)
    requires Inv(s) && c in s.pcs && Enabled(s, c, ev)
    ensures Inv(Next(s, c, ev))
  {
    hide LocksMatch, CallerOk;
    StepKeepsLocks(s, c, ev);
    var s' := Next(s, c, ev);
    forall o | o in s'.pcs
      ensures CallerOk(s'.committed, s'.dates[o], s'.pcs[o])
    {
      StepKeepsCallers(s, c, ev, o);
    }
  }

  /** An insert never waits on another caller's row and never collides with a committed one. */
  lemma InsertsAreFree(s: State, c: Caller)
    requires Inv(s) && c in s.pcs && s.pcs[c].Generating?
    ensures !RowPending(s, c) && s.dates[c] !in s.committed
  {
    if o :| o in s.pcs && o != c && o in s.dates && s.dates[o] == s.dates[c] && s.pcs[o].Written? {
      OneInside(s, c, o);
    }
  }

  // ----- Whole runs -----

  datatype Move = Move(caller: Caller, ev: Event)

  ghost predicate MoveAt(states: seq<State>, moves: seq<Move>, k: nat)
    requires k < |moves| && |states| == |moves| + 1
  {
    var s, c, ev := states[k], moves[k].caller, moves[k].ev;
    c in s.dates && c in s.pcs && Enabled(s, c, ev) && states[k + 1] == Next(s, c, ev)
  }

  ghost predicate IsRun(states: seq<State>, moves: seq<Move>) {
    && |states| == |moves| + 1
    && Typed(states[0]) && states[0].locks == map[] && (forall c :: c in states[0].pcs ==> states[0].pcs[c] == Arriving)
    && forall k :: 0 <= k < |moves| ==> MoveAt(states, moves, k)
  }

  lemma ArrivingIsFine(s: State)
    requires Typed(s) && s.locks == map[] && forall c :: c in s.pcs ==> s.pcs[c] == Arriving
    ensures Inv(s)
  {
  }

  lemma NextKeepsDates(s: State, c: Caller, ev: Event)
    requires c in s.dates && c in s.pcs && Enabled(s, c, ev)
    ensures Next(s, c, ev).dates == s.dates
  {
  }

  lemma {:induction false} RunKeeps(states: seq<State>, moves: seq<Move>, k: nat)
    requires IsRun(states, moves) && k < |states|
    ensures Inv(states[k]) && states[k].dates == states[0].dates
  {
    ArrivingIsFine(states[0]);
    hide Inv, Enabled, Next, Typed;
    if k == 0 {
    } else {
      RunKeeps(states, moves, k - 1);
      assert MoveAt(states, moves, k - 1);
      StepKeeps(states[k - 1], moves[k - 1].caller, moves[k - 1].ev);
      NextKeepsDates(states[k - 1], moves[k - 1].caller, moves[k - 1].ev);
    }
  }

  /** Nobody ever meets a key conflict, whoever else is generating and however they fail. */
  lemma NobodyConflicts(states: seq<State>, moves: seq<Move>, k: nat, c: Caller)
    requires IsRun(states, moves) && k < |states| && c in states[k].pcs
    ensures !states[k].pcs[c].Conflicted?
  {
    RunKeeps(states, moves, k);
    assert CallerOk(states[k].committed, states[k].dates[c], states[k].pcs[c]);
  }

  /** A date gets at most one board, ever. */
  lemma {:induction false} OneBoardPerDate(states: seq<State>, moves: seq<Move>, k: nat, m: nat, date: CalendarDate)
    requires IsRun(states, moves) && k <= m < |states| && date in states[k].committed
    ensures date in states[m].committed && states[m].committed[date] == states[k].committed[date]
    decreases m
  {
    if k == m {
    } else {
      OneBoardPerDate(states, moves, k, m - 1, date);
      RunKeeps(states, moves, m - 1);
      assert MoveAt(states, moves, m - 1);
      CommittedStays(states[m - 1], moves[m - 1].caller, moves[m - 1].ev, date);
    }
  }

  lemma CommittedStays(s: State, c: Caller, ev: Event, date: CalendarDate)
    requires Inv(s) && c in s.pcs && Enabled(s, c, ev) && date in s.committed
    ensures date in Next(s, c, ev).committed && Next(s, c, ev).committed[date] == s.committed[date]
  {
    assert CallerOk(s.committed, s.dates[c], s.pcs[c]);
  }

  /** What a caller has written is what generation made for its date. */
  lemma {:induction false} WrittenWasMade(states: seq<State>, moves: seq<Move>, k: nat, c: Caller) returns (j: nat)
    requires IsRun(states, moves) && k < |states| && c in states[k].pcs && states[k].pcs[c].Written?
    ensures j < k && moves[j] == Move(c, Generate(Made(states[k].pcs[c].board)))
  {
    if k == 0 {
    } else {
      hide DateLockKey, RowPending;
      assert MoveAt(states, moves, k - 1);
      if moves[k - 1].caller == c {
        j := k - 1;
      } else {
        j := WrittenWasMade(states, moves, k - 1, c);
      }
    }
  }

  /** A committed board is one that generation made, in some caller for that date. */
  lemma {:induction false} CommittedWasMade(states: seq<State>, moves: seq<Move>, k: nat, date: CalendarDate)
    returns (j: nat)
    requires IsRun(states, moves) && k < |states| && date in states[k].committed && date !in states[0].committed
    ensures j < k && moves[j].ev == Generate(Made(states[k].committed[date]))
    ensures moves[j].caller in states[0].dates && states[0].dates[moves[j].caller] == date
  {
    hide DateLockKey, RowPending;
    RunKeeps(states, moves, k - 1);
    assert MoveAt(states, moves, k - 1);
    var s, c := states[k - 1], moves[k - 1].caller;
    if date in s.committed {
      CommittedStays(s, c, moves[k - 1].ev, date);
      j := CommittedWasMade(states, moves, k - 1, date);
    } else {
      j := WrittenWasMade(states, moves, k - 1, c);
    }
  }

  /** Every caller that is served gets the one committed board, however far apart they are served. */
  lemma ServedAlike(states: seq<State>, moves: seq<Move>, k: nat, c: Caller, m: nat, o: Caller)
    requires IsRun(states, moves) && k <= m < |states| && c in states[k].pcs && o in states[m].pcs
    requires c in states[0].dates && o in states[0].dates && states[0].dates[c] == states[0].dates[o]
    requires states[k].pcs[c].Served? && states[m].pcs[o].Served?
    ensures states[k].pcs[c].board == states[m].pcs[o].board
    ensures states[0].dates[o] in states[m].committed
            && states[m].committed[states[0].dates[o]] == states[m].pcs[o].board
  {
    RunKeeps(states, moves, k);
    RunKeeps(states, moves, m);
    assert CallerOk(states[k].committed, states[k].dates[c], states[k].pcs[c]);
    assert CallerOk(states[m].committed, states[m].dates[o], states[m].pcs[o]);
    OneBoardPerDate(states, moves, k, m, states[0].dates[c]);
  }

  /** What a caller can do that leaves it without a board. */
  predicate Spoils(ev: Event) {
    ev.Fail? || ev.CommitUnacknowledged? || (ev.Generate? && !ev.r.Made?)
  }

  /** A caller that has failed was cancelled, lost its commit's answer or found the content wanting. */
  lemma {:induction false} FailedForAReason(states: seq<State>, moves: seq<Move>, k: nat, c: Caller) returns (j: nat)
    requires IsRun(states, moves) && k < |states| && c in states[k].pcs && states[k].pcs[c].Failed?
    ensures j < k && moves[j].caller == c && Spoils(moves[j].ev)
  {
    hide DateLockKey, RowPending;
    if k == 0 {
    } else {
      assert MoveAt(states, moves, k - 1);
      if moves[k - 1].caller == c && Spoils(moves[k - 1].ev) {
        j := k - 1;
      } else {
        j := FailedForAReason(states, moves, k - 1, c);
      }
    }
  }

  /** Whoever finishes without such a move of its own has been served the committed board of its date. */
  lemma FinishedMeansServed(states: seq<State>, moves: seq<Move>, k: nat, c: Caller)
    requires IsRun(states, moves) && k < |states| && c in states[k].pcs && Finished(states[k].pcs[c])
    requires forall j :: 0 <= j < k && moves[j].caller == c ==> !Spoils(moves[j].ev)
    ensures c in states[k].dates && states[k].dates[c] in states[k].committed
    ensures states[k].pcs[c] == Served(states[k].committed[states[k].dates[c]])
  {
    RunKeeps(states, moves, k);
    NobodyConflicts(states, moves, k, c);
    if states[k].pcs[c].Failed? {
      var j := FailedForAReason(states, moves, k, c);
    }
    assert CallerOk(states[k].committed, states[k].dates[c], states[k].pcs[c]);
  }

  /** Where a board is committed, the first read serves it; where none is, it is generated under the lock. */
  lemma FirstReadDecides(states: seq<State>, moves: seq<Move>, k: nat, c: Caller)
    requires IsRun(states, moves) && k < |moves| && moves[k] == Move(c, Read)
    ensures c in states[k].dates && c in states[k + 1].pcs
    ensures var date := states[k].dates[c];
            if date in states[k].committed then states[k + 1].pcs[c] == Served(states[k].committed[date])
            else !Finished(states[k + 1].pcs[c])
  {
    assert MoveAt(states, moves, k);
  }

  /** A commit stores the board its caller has written, whether or not the caller hears of it, and
      nothing else ever changes what is stored. */
  lemma CommitsAreStored(states: seq<State>, moves: seq<Move>, k: nat)
    requires IsRun(states, moves) && k < |moves|
    ensures var c, ev := moves[k].caller, moves[k].ev;
            && c in states[k].pcs && c in states[k].dates && c in states[k + 1].pcs
            && (var pc, pc' := states[k].pcs[c], states[k + 1].pcs[c];
                if pc.Written? && (ev.Commit? || ev.CommitUnacknowledged?) then
                  && states[k + 1].committed == states[k].committed[states[k].dates[c] := pc.board]
                  && pc' == if ev.Commit? then Served(pc.board) else Failed
                else states[k + 1].committed == states[k].committed)
  {
    assert MoveAt(states, moves, k);
  }

  /** A finished caller holds no lock, so once everyone has finished no lock is held. */
  lemma LocksAreReleased(states: seq<State>, moves: seq<Move>, k: nat)
    requires IsRun(states, moves) && k < |states|
    ensures forall key :: key in states[k].locks ==>
              states[k].locks[key] in states[k].pcs && !Finished(states[k].pcs[states[k].locks[key]])
    ensures (forall c :: c in states[k].pcs ==> Finished(states[k].pcs[c])) ==> states[k].locks == map[]
  {
    RunKeeps(states, moves, k);
    var s := states[k];
    assert forall key :: key in s.locks ==> Holds(s.pcs[s.locks[key]]);
  }

  predicate Progress(ev: Event) {
    !ev.Fail? && !ev.CommitUnacknowledged?
  }

  /** A caller that waits for the lock waits for a caller of its own date, who can go on. */
  lemma WaitsForItsOwnDate(states: seq<State>, moves: seq<Move>, k: nat, c: Caller) returns (o: Caller, ev: Event)
    requires IsRun(states, moves) && k < |states| && c in states[k].pcs && !Finished(states[k].pcs[c])
    ensures o in states[k].pcs && o in states[k].dates && c in states[k].dates
            && states[k].dates[o] == states[k].dates[c]
    ensures Progress(ev) && Enabled(states[k], o, ev)
    ensures !(states[k].pcs[c].Queueing? && Key(states[k], c) in states[k].locks) ==> o == c
  {
    RunKeeps(states, moves, k);
    var s := states[k];
    o := c;
    if s.pcs[c].Queueing? && Key(s, c) in s.locks {
      o := s.locks[Key(s, c)];
      LockKeysDiffer(s.dates[c], s.dates[o]);
    }
    if s.pcs[o].Generating? {
      InsertsAreFree(s, o);
    }
    ev := match s.pcs[o]
      case Arriving => Read
      case Opening => Begin
      case Queueing => Acquire
      case Holding => Reread
      case Generating => Generate(InsufficientContent(0, []))
      case _ => Commit;
  }

  // ----- Nobody goes round in circles -----

  /** How many moves a caller has left at most. */
  function MovesLeft(pc: Pc): nat {
    match pc
    case Arriving => 6
    case Opening => 5
    case Queueing => 4
    case Holding => 3
    case Generating => 2
    case Written(_) => 1
    case Returning(_) => 1
    case _ => 0
  }

  /** How many of the first `k` moves were the caller's. */
  function MovesOf(moves: seq<Move>, k: nat, c: Caller): nat
    requires k <= |moves|
  {
    if k == 0 then 0 else MovesOf(moves, k - 1, c) + if moves[k - 1].caller == c then 1 else 0
  }

  lemma NoMovesLeft()
    ensures forall pc: Pc :: MovesLeft(pc) == 0 <==> Finished(pc)
    ensures MovesLeft(Arriving) == 6 && forall pc: Pc :: MovesLeft(pc) <= 6
  {
  }

  lemma OneMoveLess(s: State, c: Caller, ev: Event)
    requires c in s.dates && c in s.pcs && Enabled(s, c, ev)
    ensures var s' := Next(s, c, ev);
            && c in s'.pcs && MovesLeft(s'.pcs[c]) < MovesLeft(s.pcs[c])
            && forall o :: o != c ==> (o in s'.pcs <==> o in s.pcs) && (o in s.pcs ==> s'.pcs[o] == s.pcs[o])
  {
    hide DateLockKey, RowPending;
  }

  /** A caller is done after at most six moves of its own. */
  lemma {:induction false} SixMovesAtMost(states: seq<State>, moves: seq<Move>, k: nat, c: Caller)
    requires IsRun(states, moves) && k < |states| && c in states[k].pcs
    ensures MovesOf(moves, k, c) + MovesLeft(states[k].pcs[c]) <= 6
    ensures MovesOf(moves, k, c) == 6 ==> Finished(states[k].pcs[c])
  {
    NoMovesLeft();
    if k == 0 {
    } else {
      assert MoveAt(states, moves, k - 1);
      hide Next, Enabled, MovesLeft;
      OneMoveLess(states[k - 1], moves[k - 1].caller, moves[k - 1].ev);
      SixMovesAtMost(states, moves, k - 1, c);
    }
  }
}
