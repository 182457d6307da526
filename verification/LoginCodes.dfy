/** The sign-in code limiter of internal/accounts/store.go.

    `Book` is the token table together with what sweeping would forget: every
    code ever created and every guess ever made.  Limits are decided from the
    table alone; the bounds are proved about the whole record, after every
    sequence of requests, guesses and sweeps whose clock never runs backwards. */
module LoginCodes {
  import opened Wrappers

  type Email = string
  type Hash = int
  /** Seconds. */
  type Time = int

  const HOUR: Time := 3600
  const DAY: Time := 86400

  /** A row of login_tokens. */
  datatype Token = Token(id: nat, email: Email, hash: Hash, ip: Option<string>, attempts: nat,
                         createdAt: Time, expiresAt: Time, consumedAt: Option<Time>)

  type Rows = seq<Token>

  datatype Config = Config(codeTTL: Time, maxAttempts: nat, maxPerEmailFast: nat, fastWindow: Time,
                           maxPerEmailDay: nat, maxFailsPerHour: nat, maxPerIP: nat, retention: Time)

  /** Every knob is positive once defaults are filled in, and codes are kept for the longest window. */
  predicate ValidConfig(cfg: Config) {
    && cfg.codeTTL > 0 && cfg.maxAttempts > 0 && cfg.maxPerEmailFast > 0 && cfg.fastWindow > 0
    && cfg.maxPerEmailDay > 0 && cfg.maxFailsPerHour > 0 && cfg.maxPerIP > 0
    && cfg.retention >= DAY && cfg.retention >= cfg.fastWindow
  }

  // ----- The counts behind the limits -----

  function CountEmail(rows: Rows, email: Email, since: Time): nat {
    if rows == [] then 0
    else
      var r := rows[|rows| - 1];
      CountEmail(rows[..|rows| - 1], email, since) + (if r.email == email && r.createdAt > since then 1 else 0)
  }

  function SumAttempts(rows: Rows, email: Email, since: Time): nat {
    if rows == [] then 0
    else
      var r := rows[|rows| - 1];
      SumAttempts(rows[..|rows| - 1], email, since)
        + (if r.email == email && r.createdAt > since then r.attempts else 0)
  }

  function CountIp(rows: Rows, ip: Option<string>, since: Time): nat {
    if rows == [] then 0
    else
      var r := rows[|rows| - 1];
      CountIp(rows[..|rows| - 1], ip, since) + (if ip.Some? && r.ip == ip && r.createdAt > since then 1 else 0)
  }

  datatype Decision = Allowed | TooManyFast | TooManyToday | TooManyFails | TooManyFromIP

  function Limits(cfg: Config, rows: Rows, email: Email, ip: Option<string>, now: Time): Decision {
    if CountEmail(rows, email, now - cfg.fastWindow) >= cfg.maxPerEmailFast then TooManyFast
    else if CountEmail(rows, email, now - DAY) >= cfg.maxPerEmailDay then TooManyToday
    else if SumAttempts(rows, email, now - HOUR) >= cfg.maxFailsPerHour then TooManyFails
    else if ip.Some? && CountIp(rows, ip, now - HOUR) >= cfg.maxPerIP then TooManyFromIP
    else Allowed
  }

  // ----- The statements -----

  function Update(rows: Rows, f: Token -> Token): Rows {
    if rows == [] then [] else Update(rows[..|rows| - 1], f) + [f(rows[|rows| - 1])]
  }

  /** Consume every live code of the address. */
  function Supersede(email: Email, now: Time): Token -> Token {
    (r: Token) => if r.email == email && r.consumedAt.None? then r.(consumedAt := Some(now)) else r
  }

  function NewToken(cfg: Config, id: nat, email: Email, ip: Option<string>, hash: Hash, now: Time): Token {
    Token(id, email, hash, ip, 0, now, now + cfg.codeTTL, None)
  }

  /** Delete what was created before the cutoff. */
  function Kept(rows: Rows, cutoff: Time): Rows {
    if rows == [] then []
    else
      var front, r := Kept(rows[..|rows| - 1], cutoff), rows[|rows| - 1];
      if r.createdAt < cutoff then front else front + [r]
  }

  predicate Live(r: Token, email: Email) {
    r.email == email && r.consumedAt.None?
  }

  predicate Newer(r: Token, s: Token) {
    r.createdAt > s.createdAt || (r.createdAt == s.createdAt && r.id > s.id)
  }

  /** The newest live code for the address. */
  function NewestLive(rows: Rows, email: Email): (found: Option<Token>)
    ensures found.Some? ==> found.value in rows && Live(found.value, email)
    ensures found.None? ==> forall r :: r in rows ==> !Live(r, email)
  {
    if rows == [] then None
    else
      var best, r := NewestLive(rows[..|rows| - 1], email), rows[|rows| - 1];
      if Live(r, email) && (best.None? || Newer(r, best.value)) then Some(r) else best
  }

  /** A guess that the code could still have answered. */
  predicate Effective(cfg: Config, r: Token, now: Time) {
    r.expiresAt > now && r.attempts < cfg.maxAttempts
  }

  /** The guess spends the code or one of its attempts. */
  function Guessed(cfg: Config, r: Token, hash: Hash, now: Time): Token {
    if r.hash == hash && Effective(cfg, r, now) then r.(consumedAt := Some(now))
    else r.(consumedAt := None, attempts := r.attempts + 1)
  }

  function Replace(id: nat, r': Token): Token -> Token {
    (r: Token) => if r.id == id then r' else r
  }

  datatype Verdict = SignedIn | Incorrect | TooManyAttempts | CodeExpired

  function VerdictOf(cfg: Config, r': Token, now: Time): Verdict {
    if r'.consumedAt.Some? then SignedIn
    else if r'.attempts >= cfg.maxAttempts then TooManyAttempts
    else if r'.expiresAt <= now then CodeExpired
    else Incorrect
  }

  // ----- The record -----

  datatype Guess = Guess(id: nat, effective: bool, matched: bool)

  datatype Book = Book(rows: Rows, archive: Rows, guesses: seq<Guess>, cutoff: Time, clock: Time)

  datatype Event =
    | RequestCode(email: Email, ip: Option<string>, hash: Hash, at: Time)
    | VerifyCode(email: Email, hash: Hash, at: Time)
    | SweepExpired(before: Time, at: Time)

  function Max(x: Time, y: Time): Time {
    if x >= y then x else y
  }

  function AfterSweep(b: Book, before: Time): Book {
    b.(rows := Kept(b.rows, before), cutoff := Max(b.cutoff, before))
  }

  function AfterRequest(cfg: Config, b: Book, email: Email, ip: Option<string>, hash: Hash, now: Time): Book {
    if Limits(cfg, b.rows, email, ip, now) != Allowed then b.(clock := now)
    else
      var token := NewToken(cfg, |b.archive|, email, ip, hash, now);
      var created := b.(rows := Update(b.rows, Supersede(email, now)) + [token],
                        archive := Update(b.archive, Supersede(email, now)) + [token],
                        clock := now);
      AfterSweep(created, now - cfg.retention)
  }

  function AfterVerify(cfg: Config, b: Book, email: Email, hash: Hash, now: Time): (Book, Verdict) {
    match NewestLive(b.rows, email)
    case None => (b.(clock := now), Incorrect)
    case Some(r) =>
      var r' := Guessed(cfg, r, hash, now);
      (b.(rows := Update(b.rows, Replace(r.id, r')), archive := Update(b.archive, Replace(r.id, r')),
          guesses := b.guesses + [Guess(r.id, Effective(cfg, r, now), r.hash == hash)], clock := now),
       VerdictOf(cfg, r', now))
  }

  function After(cfg: Config, b: Book, e: Event): Book {
    match e
    case RequestCode(email, ip, hash, at) => AfterRequest(cfg, b, email, ip, hash, at)
    case VerifyCode(email, hash, at) => AfterVerify(cfg, b, email, hash, at).0
    case SweepExpired(before, at) => AfterSweep(b, before).(clock := at)
  }

  /** The clock never runs backwards, and a sweep never reaches into a window. */
  predicate Timely(cfg: Config, b: Book, e: Event) {
    e.at >= b.clock && (e.SweepExpired? ==> e.before <= e.at - cfg.retention)
  }

  predicate TimelyAll(cfg: Config, b: Book, events: seq<Event>)
    decreases |events|
  {
    events == [] || (Timely(cfg, b, events[0]) && TimelyAll(cfg, After(cfg, b, events[0]), events[1..]))
  }

  function AfterAll(cfg: Config, b: Book, events: seq<Event>): Book
    decreases |events|
  {
    if events == [] then b else AfterAll(cfg, After(cfg, b, events[0]), events[1..])
  }

  function EmptyBook(cfg: Config, start: Time): Book {
    Book([], [], [], start - cfg.retention, start)
  }

  // ----- Counting guesses -----

  /** Guesses at a code that it could still have answered. */
  function EffectiveGuesses(guesses: seq<Guess>, id: nat): nat {
    if guesses == [] then 0
    else
      var g := guesses[|guesses| - 1];
      EffectiveGuesses(guesses[..|guesses| - 1], id) + (if g.id == id && g.effective then 1 else 0)
  }

  /** Those of them that failed. */
  function EffectiveFails(guesses: seq<Guess>, id: nat): nat {
    if guesses == [] then 0
    else
      var g := guesses[|guesses| - 1];
      EffectiveFails(guesses[..|guesses| - 1], id) + (if g.id == id && g.effective && !g.matched then 1 else 0)
  }

  /** Guesses at a code that did not sign in, whatever the reason. */
  function Misses(guesses: seq<Guess>, id: nat): nat {
    if guesses == [] then 0
    else
      var g := guesses[|guesses| - 1];
      Misses(guesses[..|guesses| - 1], id) + (if g.id == id && !(g.effective && g.matched) then 1 else 0)
  }

  /** How many codes an address was sent in the window that ends `width` after `start`. */
  function CreatedIn(rows: Rows, email: Email, start: Time, width: Time): nat {
    if rows == [] then 0
    else
      var r := rows[|rows| - 1];
      CreatedIn(rows[..|rows| - 1], email, start, width)
        + (if r.email == email && start < r.createdAt <= start + width then 1 else 0)
  }

  function CreatedFrom(rows: Rows, ip: string, start: Time, width: Time): nat {
    if rows == [] then 0
    else
      var r := rows[|rows| - 1];
      CreatedFrom(rows[..|rows| - 1], ip, start, width)
        + (if r.ip == Some(ip) && start < r.createdAt <= start + width then 1 else 0)
  }

  /** Effective failed guesses ever made at the codes created in the window. */
  function FailsIn(rows: Rows, guesses: seq<Guess>, email: Email, start: Time, width: Time): nat {
    if rows == [] then 0
    else
      var r := rows[|rows| - 1];
      FailsIn(rows[..|rows| - 1], guesses, email, start, width)
      + (if r.email == email && start < r.createdAt <= start + width then EffectiveFails(guesses, r.id) else 0)
  }

  /** Guesses that did not sign in, at the codes created in the window. */
  function MissesIn(rows: Rows, guesses: seq<Guess>, email: Email, start: Time, width: Time): nat {
    if rows == [] then 0
    else
      var r := rows[|rows| - 1];
      MissesIn(rows[..|rows| - 1], guesses, email, start, width)
      + (if r.email == email && start < r.createdAt <= start + width then Misses(guesses, r.id) else 0)
  }

  function GuessesIn(rows: Rows, guesses: seq<Guess>, email: Email, start: Time, width: Time): nat {
    if rows == [] then 0
    else
      var r := rows[|rows| - 1];
      GuessesIn(rows[..|rows| - 1], guesses, email, start, width)
      + (if r.email == email && start < r.createdAt <= start + width then EffectiveGuesses(guesses, r.id) else 0)
  }

  // ----- The invariant -----

  /** When code `k` was created, every limit still had room, and the codes before it have not changed since. */
  predicate HadRoom(cfg: Config, archive: Rows, k: nat)
    requires k < |archive|
  {
    var r, before := archive[k], archive[..k];
    && CountEmail(before, r.email, r.createdAt - cfg.fastWindow) < cfg.maxPerEmailFast
    && CountEmail(before, r.email, r.createdAt - DAY) < cfg.maxPerEmailDay
    && SumAttempts(before, r.email, r.createdAt - HOUR) < cfg.maxFailsPerHour
    && (r.ip.Some? ==> CountIp(before, r.ip, r.createdAt - HOUR) < cfg.maxPerIP)
  }

  predicate Numbered(cfg: Config, archive: Rows, clock: Time) {
    forall i :: 0 <= i < |archive| ==>
      archive[i].id == i && archive[i].createdAt <= clock && archive[i].expiresAt == archive[i].createdAt + cfg.codeTTL
  }

  predicate Superseded(archive: Rows) {
    forall i, j :: 0 <= i < j < |archive| && archive[i].email == archive[j].email ==> archive[i].consumedAt.Some?
  }

  /** A code has spent an attempt on every guess that missed, and a live one has been missed by all. */
  predicate Accounted(cfg: Config, r: Token, guesses: seq<Guess>) {
    && r.attempts == Misses(guesses, r.id)
    && EffectiveFails(guesses, r.id) <= r.attempts
    && EffectiveFails(guesses, r.id) <= EffectiveGuesses(guesses, r.id) <= cfg.maxAttempts
    && (r.consumedAt.None? ==> EffectiveFails(guesses, r.id) == EffectiveGuesses(guesses, r.id))
  }

  ghost predicate Inv(cfg: Config, b: Book) {
    && Numbered(cfg, b.archive, b.clock)
    && Superseded(b.archive)
    && (forall k :: 0 <= k < |b.archive| ==> HadRoom(cfg, b.archive, k))
    && (forall k :: 0 <= k < |b.archive| ==> Accounted(cfg, b.archive[k], b.guesses))
    && (forall g :: g in b.guesses ==> g.id < |b.archive|)
    && b.rows == Kept(b.archive, b.cutoff) && b.cutoff <= b.clock - cfg.retention
  }

  // ----- Sweeping and updating commute with counting -----

  lemma {:induction false} UpdateAt(rows: Rows, f: Token -> Token)
    ensures |Update(rows, f)| == |rows|
    ensures forall i :: 0 <= i < |rows| ==> Update(rows, f)[i] == f(rows[i])
    decreases |rows|
  {
    if rows == [] {
    } else {
      UpdateAt(rows[..|rows| - 1], f);
    }
  }

  lemma {:induction false} KeptUpdate(rows: Rows, f: Token -> Token, cutoff: Time)
    requires forall r :: r in rows ==> f(r).createdAt == r.createdAt
    ensures Kept(Update(rows, f), cutoff) == Update(Kept(rows, cutoff), f)
    decreases |rows|
  {
    if rows == [] {
    } else {
      var init, r := rows[..|rows| - 1], rows[|rows| - 1];
      KeptUpdate(init, f, cutoff);
      assert Update(rows, f)[..|Update(rows, f)| - 1] == Update(init, f);
      if r.createdAt >= cutoff {
        assert Kept(rows, cutoff)[..|Kept(rows, cutoff)| - 1] == Kept(init, cutoff);
      }
    }
  }

  lemma {:induction false} KeptTwice(rows: Rows, c: Time, d: Time)
    ensures Kept(Kept(rows, c), d) == Kept(rows, Max(c, d))
    decreases |rows|
  {
    if rows == [] {
    } else {
      var init, r := rows[..|rows| - 1], rows[|rows| - 1];
      KeptTwice(init, c, d);
      if r.createdAt >= c {
        assert Kept(rows, c)[..|Kept(rows, c)| - 1] == Kept(init, c);
      }
    }
  }

  lemma KeptAppend(rows: Rows, r: Token, cutoff: Time)
    requires r.createdAt >= cutoff
    ensures Kept(rows + [r], cutoff) == Kept(rows, cutoff) + [r]
  {
    assert (rows + [r])[..|rows|] == rows;
  }

  lemma {:induction false} KeptIsPart(rows: Rows, cutoff: Time)
    ensures forall r :: r in Kept(rows, cutoff) ==> r in rows
    decreases |rows|
  {
    if rows == [] {
    } else {
      KeptIsPart(rows[..|rows| - 1], cutoff);
    }
  }

  lemma CountsAppend(rows: Rows, r: Token, email: Email, ip: Option<string>, since: Time)
    ensures CountEmail(rows + [r], email, since) == CountEmail(rows, email, since)
            + (if r.email == email && r.createdAt > since then 1 else 0)
    ensures SumAttempts(rows + [r], email, since) == SumAttempts(rows, email, since)
            + (if r.email == email && r.createdAt > since then r.attempts else 0)
    ensures CountIp(rows + [r], ip, since) == CountIp(rows, ip, since)
            + (if ip.Some? && r.ip == ip && r.createdAt > since then 1 else 0)
  {
    assert (rows + [r])[..|rows|] == rows;
  }

  lemma {:induction false} KeptCountsEmail(rows: Rows, cutoff: Time, email: Email, since: Time)
    requires cutoff <= since
    ensures CountEmail(Kept(rows, cutoff), email, since) == CountEmail(rows, email, since)
    decreases |rows|
  {
    if rows == [] {
    } else {
      KeptCountsEmail(rows[..|rows| - 1], cutoff, email, since);
      CountsAppend(Kept(rows[..|rows| - 1], cutoff), rows[|rows| - 1], email, None, since);
    }
  }

  lemma {:induction false} KeptSumsAttempts(rows: Rows, cutoff: Time, email: Email, since: Time)
    requires cutoff <= since
    ensures SumAttempts(Kept(rows, cutoff), email, since) == SumAttempts(rows, email, since)
    decreases |rows|
  {
    if rows == [] {
    } else {
      KeptSumsAttempts(rows[..|rows| - 1], cutoff, email, since);
      CountsAppend(Kept(rows[..|rows| - 1], cutoff), rows[|rows| - 1], email, None, since);
    }
  }

  lemma {:induction false} KeptCountsIp(rows: Rows, cutoff: Time, ip: Option<string>, since: Time)
    requires cutoff <= since
    ensures CountIp(Kept(rows, cutoff), ip, since) == CountIp(rows, ip, since)
    decreases |rows|
  {
    if rows == [] {
    } else {
      KeptCountsIp(rows[..|rows| - 1], cutoff, ip, since);
      CountsAppend(Kept(rows[..|rows| - 1], cutoff), rows[|rows| - 1], "", ip, since);
    }
  }

  /** Sweeping never changes a later limit decision. */
  lemma SweepingKeepsLimits(cfg: Config, rows: Rows, cutoff: Time, email: Email, ip: Option<string>, now: Time)
    requires ValidConfig(cfg) && cutoff <= now - cfg.retention
    ensures Limits(cfg, Kept(rows, cutoff), email, ip, now) == Limits(cfg, rows, email, ip, now)
  {
    KeptCountsEmail(rows, cutoff, email, now - cfg.fastWindow);
    KeptCountsEmail(rows, cutoff, email, now - DAY);
    KeptSumsAttempts(rows, cutoff, email, now - HOUR);
    KeptCountsIp(rows, cutoff, ip, now - HOUR);
  }

  /** The columns a count for the address looks at. */
  predicate SameCounts(r: Token, r': Token, email: Email) {
    r.email == r'.email && r.createdAt == r'.createdAt && r.ip == r'.ip
      && (r.email == email ==> r.attempts == r'.attempts)
  }

  lemma {:induction false} CountsSame(rows: Rows, rows': Rows, email: Email, ip: Option<string>, since: Time)
    requires |rows| == |rows'| && forall i :: 0 <= i < |rows| ==> SameCounts(rows[i], rows'[i], email)
    ensures CountEmail(rows, email, since) == CountEmail(rows', email, since)
    ensures SumAttempts(rows, email, since) == SumAttempts(rows', email, since)
    ensures CountIp(rows, ip, since) == CountIp(rows', ip, since)
    decreases |rows|
  {
    if rows == [] {
    } else {
      var init, init' := rows[..|rows| - 1], rows'[..|rows| - 1];
      forall i | 0 <= i < |init|
        ensures SameCounts(init[i], init'[i], email)
      {
        assert SameCounts(rows[i], rows'[i], email);
      }
      CountsSame(init, init', email, ip, since);
      assert SameCounts(rows[|rows| - 1], rows'[|rows| - 1], email);
    }
  }

  lemma LimitsSame(cfg: Config, rows: Rows, rows': Rows, email: Email, ip: Option<string>, now: Time)
    requires |rows| == |rows'| && forall i :: 0 <= i < |rows| ==> SameCounts(rows[i], rows'[i], email)
    requires Limits(cfg, rows, email, ip, now) == Allowed
    ensures CountEmail(rows', email, now - cfg.fastWindow) < cfg.maxPerEmailFast
    ensures CountEmail(rows', email, now - DAY) < cfg.maxPerEmailDay
    ensures SumAttempts(rows', email, now - HOUR) < cfg.maxFailsPerHour
    ensures ip.Some? ==> CountIp(rows', ip, now - HOUR) < cfg.maxPerIP
  {
    CountsSame(rows, rows', email, ip, now - cfg.fastWindow);
    CountsSame(rows, rows', email, ip, now - DAY);
    CountsSame(rows, rows', email, ip, now - HOUR);
  }

  /** Changing rows in ways no count for code `k` looks at leaves it the room it had. */
  lemma HadRoomStill(cfg: Config, archive: Rows, archive': Rows, k: nat)
    requires k < |archive| <= |archive'| && HadRoom(cfg, archive, k)
    requires forall i :: 0 <= i < k ==> SameCounts(archive[i], archive'[i], archive[k].email)
    requires archive[k].email == archive'[k].email && archive[k].createdAt == archive'[k].createdAt
             && archive[k].ip == archive'[k].ip
    ensures HadRoom(cfg, archive', k)
  {
    var r, before, before' := archive[k], archive[..k], archive'[..k];
    forall i | 0 <= i < k
      ensures SameCounts(before[i], before'[i], r.email)
    {
      assert SameCounts(archive[i], archive'[i], r.email);
    }
    CountsSame(before, before', r.email, r.ip, r.createdAt - cfg.fastWindow);
    CountsSame(before, before', r.email, r.ip, r.createdAt - DAY);
    CountsSame(before, before', r.email, r.ip, r.createdAt - HOUR);
  }

  // ----- Each event keeps the invariant -----

  lemma RequestKeeps(cfg: Config, b: Book, email: Email, ip: Option<string>, hash: Hash, now: Time)
    requires ValidConfig(cfg) && Inv(cfg, b) && now >= b.clock
    ensures Inv(cfg, AfterRequest(cfg, b, email, ip, hash, now))
  {
    NumberedLater(cfg, b.archive, b.clock, now);
    hide HadRoom, Numbered, Superseded, Accounted, Limits, Update, Kept, Supersede;
    if Limits(cfg, b.rows, email, ip, now) == Allowed {
      var token := NewToken(cfg, |b.archive|, email, ip, hash, now);
      var archive' := Update(b.archive, Supersede(email, now)) + [token];
      RequestKeepsCodes(cfg, b, email, token, now);
      RequestKeepsRows(cfg, b, email, token, now);
      SweepingKeepsLimits(cfg, b.archive, b.cutoff, email, ip, now);
      forall k | 0 <= k < |archive'|
        ensures HadRoom(cfg, archive', k)
      {
        RoomAfterRequest(cfg, b.archive, email, ip, now, token, k);
      }
    }
  }

  lemma NumberedLater(cfg: Config, archive: Rows, clock: Time, now: Time)
    requires Numbered(cfg, archive, clock) && clock <= now
    ensures Numbered(cfg, archive, now)
  {
  }

  lemma RequestKeepsCodes(cfg: Config, b: Book, email: Email, token: Token, now: Time)
    requires Numbered(cfg, b.archive, b.clock) && Superseded(b.archive) && b.clock <= now
    requires forall k :: 0 <= k < |b.archive| ==> Accounted(cfg, b.archive[k], b.guesses)
    requires forall g :: g in b.guesses ==> g.id < |b.archive|
    requires token.id == |b.archive| && token.createdAt == now && token.expiresAt == now + cfg.codeTTL
             && token.email == email
    requires token.consumedAt.None? && token.attempts == 0
    ensures var archive' := Update(b.archive, Supersede(email, now)) + [token];
            && |archive'| == |b.archive| + 1
            && Numbered(cfg, archive', now) && Superseded(archive')
            && forall k :: 0 <= k < |archive'| ==> Accounted(cfg, archive'[k], b.guesses)
  {
    UpdateAt(b.archive, Supersede(email, now));
    NoGuessesYet(b.guesses, |b.archive|);
    var archive' := Update(b.archive, Supersede(email, now)) + [token];
    forall k | 0 <= k < |archive'|
      ensures Accounted(cfg, archive'[k], b.guesses)
    {
      if k < |b.archive| {
        assert Accounted(cfg, b.archive[k], b.guesses);
      }
    }
  }

  lemma RequestKeepsRows(cfg: Config, b: Book, email: Email, token: Token, now: Time)
    requires b.rows == Kept(b.archive, b.cutoff) && b.cutoff <= now - cfg.retention && cfg.retention >= 0
    requires token.createdAt == now
    ensures Kept(Update(b.rows, Supersede(email, now)) + [token], now - cfg.retention)
         == Kept(Update(b.archive, Supersede(email, now)) + [token], Max(b.cutoff, now - cfg.retention))
  {
    var updated := Update(b.archive, Supersede(email, now));
    KeptUpdate(b.archive, Supersede(email, now), b.cutoff);
    KeptAppend(updated, token, b.cutoff);
    KeptTwice(updated + [token], b.cutoff, now - cfg.retention);
  }

  lemma RequestCreatesOne(cfg: Config, b: Book, email: Email, ip: Option<string>, hash: Hash, now: Time)
    ensures var b' := AfterRequest(cfg, b, email, ip, hash, now);
            if Limits(cfg, b.rows, email, ip, now) == Allowed then
              && |b'.archive| == |b.archive| + 1
              && b'.rows == Kept(Update(b.rows, Supersede(email, now))
                                 + [NewToken(cfg, |b.archive|, email, ip, hash, now)], now - cfg.retention)
            else b'.archive == b.archive && b'.rows == b.rows
  {
    UpdateAt(b.archive, Supersede(email, now));
  }

  lemma RoomAfterRequest(cfg: Config, archive: Rows, email: Email, ip: Option<string>, now: Time, token: Token, k: nat)
    requires forall i :: 0 <= i < |archive| ==> HadRoom(cfg, archive, i)
    requires Limits(cfg, archive, email, ip, now) == Allowed
    requires token.email == email && token.ip == ip && token.createdAt == now
    requires k <= |archive|
    ensures k < |Update(archive, Supersede(email, now)) + [token]|
    ensures HadRoom(cfg, Update(archive, Supersede(email, now)) + [token], k)
  {
    hide CountEmail, SumAttempts, CountIp, Update;
    var f := Supersede(email, now);
    var updated := Update(archive, f);
    var archive' := updated + [token];
    UpdateAt(archive, f);
    if k < |archive| {
      HadRoomStill(cfg, archive, archive', k);
    } else {
      assert archive'[..k] == updated;
      LimitsSame(cfg, archive, updated, email, ip, now);
    }
  }

  lemma {:induction false} NoGuessesYet(guesses: seq<Guess>, id: nat)
    requires forall g :: g in guesses ==> g.id < id
    ensures EffectiveGuesses(guesses, id) == EffectiveFails(guesses, id) == Misses(guesses, id) == 0
    decreases |guesses|
  {
    if guesses == [] {
    } else {
      NoGuessesYet(guesses[..|guesses| - 1], id);
    }
  }

  lemma GuessCounts(guesses: seq<Guess>, g: Guess, id: nat)
    ensures EffectiveGuesses(guesses + [g], id) == EffectiveGuesses(guesses, id)
            + (if g.id == id && g.effective then 1 else 0)
    ensures EffectiveFails(guesses + [g], id) == EffectiveFails(guesses, id)
            + (if g.id == id && g.effective && !g.matched then 1 else 0)
    ensures Misses(guesses + [g], id) == Misses(guesses, id)
            + (if g.id == id && !(g.effective && g.matched) then 1 else 0)
  {
    assert (guesses + [g])[..|guesses|] == guesses;
  }

  lemma VerifyKeeps(cfg: Config, b: Book, email: Email, hash: Hash, now: Time)
    requires ValidConfig(cfg) && Inv(cfg, b) && now >= b.clock
    ensures Inv(cfg, AfterVerify(cfg, b, email, hash, now).0)
  {
    hide Accounted, HadRoom, Superseded, Kept, Update, Effective;
    var found := NewestLive(b.rows, email);
    if found.Some? {
      var r := found.value;
      KeptIsPart(b.archive, b.cutoff);
      var archive' := Update(b.archive, Replace(r.id, Guessed(cfg, r, hash, now)));
      GuessKeepsRows(cfg, b, r, hash, now);
      GuessKeepsCodes(cfg, b.archive, b.clock, r, hash, now);
      forall k | 0 <= k < |archive'|
        ensures HadRoom(cfg, archive', k)
        ensures Accounted(cfg, archive'[k], b.guesses + [Guess(r.id, Effective(cfg, r, now), r.hash == hash)])
      {
        GuessKeepsRoom(cfg, b.archive, archive', r, Guessed(cfg, r, hash, now), k);
        GuessKeepsAccount(cfg, b.archive[k], b.guesses, r, hash, now);
      }
    }
  }

  lemma GuessKeepsRows(cfg: Config, b: Book, r: Token, hash: Hash, now: Time)
    requires Numbered(cfg, b.archive, b.clock) && r in b.archive && b.rows == Kept(b.archive, b.cutoff)
    ensures var f := Replace(r.id, Guessed(cfg, r, hash, now));
            Update(b.rows, f) == Kept(Update(b.archive, f), b.cutoff)
  {
    KeptUpdate(b.archive, Replace(r.id, Guessed(cfg, r, hash, now)), b.cutoff);
  }

  lemma GuessKeepsCodes(cfg: Config, archive: Rows, clock: Time, r: Token, hash: Hash, now: Time)
    requires Numbered(cfg, archive, clock) && clock <= now && Superseded(archive)
    requires r in archive && r.consumedAt.None?
    ensures var r' := Guessed(cfg, r, hash, now); var archive' := Update(archive, Replace(r.id, r'));
            && |archive'| == |archive| && r.id < |archive| && archive[r.id] == r
            && Numbered(cfg, archive', now) && Superseded(archive')
            && forall i :: 0 <= i < |archive| ==> archive'[i] == if i == r.id then r' else archive[i]
  {
    UpdateAt(archive, Replace(r.id, Guessed(cfg, r, hash, now)));
  }

  lemma GuessKeepsAccount(cfg: Config, a: Token, guesses: seq<Guess>, r: Token, hash: Hash, now: Time)
    requires Accounted(cfg, a, guesses) && r.consumedAt.None? && (a.id == r.id ==> a == r)
    ensures Accounted(cfg, if a.id == r.id then Guessed(cfg, r, hash, now) else a,
                      guesses + [Guess(r.id, Effective(cfg, r, now), r.hash == hash)])
  {
    GuessCounts(guesses, Guess(r.id, Effective(cfg, r, now), r.hash == hash), a.id);
  }

  /** Only the address's newest code can be live, so no count for a later code sees the guess. */
  lemma GuessKeepsRoom(cfg: Config, archive: Rows, archive': Rows, r: Token, r': Token, k: nat)
    requires Superseded(archive) && k < |archive| == |archive'| && HadRoom(cfg, archive, k)
    requires r.id < |archive| && archive[r.id] == r && r.consumedAt.None?
    requires forall i :: 0 <= i < |archive| ==> archive'[i] == if i == r.id then r' else archive[i]
    requires r'.email == r.email && r'.createdAt == r.createdAt && r'.ip == r.ip
    ensures HadRoom(cfg, archive', k)
  {
    HadRoomStill(cfg, archive, archive', k);
  }

  lemma EventKeeps(cfg: Config, b: Book, e: Event)
    requires ValidConfig(cfg) && Inv(cfg, b) && Timely(cfg, b, e)
    ensures Inv(cfg, After(cfg, b, e))
  {
    match e
    case RequestCode(email, ip, hash, at) => RequestKeeps(cfg, b, email, ip, hash, at);
    case VerifyCode(email, hash, at) => VerifyKeeps(cfg, b, email, hash, at);
    case SweepExpired(before, at) => KeptTwice(b.archive, b.cutoff, before);
  }

  lemma {:induction false} EventsKeep(cfg: Config, b: Book, events: seq<Event>)
    requires ValidConfig(cfg) && Inv(cfg, b) && TimelyAll(cfg, b, events)
    ensures Inv(cfg, AfterAll(cfg, b, events))
    decreases |events|
  {
    if events == [] {
    } else {
      EventKeeps(cfg, b, events[0]);
      EventsKeep(cfg, After(cfg, b, events[0]), events[1..]);
    }
  }

  // ----- What holds over every history -----

  /** The record of a history that starts with an empty table. */
  ghost predicate Recorded(cfg: Config, start: Time, events: seq<Event>, b: Book) {
    ValidConfig(cfg) && TimelyAll(cfg, EmptyBook(cfg, start), events)
      && b == AfterAll(cfg, EmptyBook(cfg, start), events)
  }

  lemma RecordedInv(cfg: Config, start: Time, events: seq<Event>, b: Book)
    requires Recorded(cfg, start, events, b)
    ensures Inv(cfg, b)
  {
    EventsKeep(cfg, EmptyBook(cfg, start), events);
  }

  lemma RoomAndAccount(cfg: Config, start: Time, events: seq<Event>, b: Book, k: nat)
    requires Recorded(cfg, start, events, b) && k < |b.archive|
    ensures HadRoom(cfg, b.archive, k) && Accounted(cfg, b.archive[k], b.guesses) && b.archive[k].id == k
  {
    RecordedInv(cfg, start, events, b);
  }

  /** When the `k`-th code was created, its window had room. */
  predicate RoomBefore(rows: Rows, k: nat, width: Time, most: nat)
    requires k < |rows|
  {
    CountEmail(rows[..k], rows[k].email, rows[k].createdAt - width) < most
  }

  lemma RoomBeforeInFront(rows: Rows, k: nat, width: Time, most: nat)
    requires k + 1 < |rows| && RoomBefore(rows, k, width, most)
    ensures RoomBefore(rows[..|rows| - 1], k, width, most)
  {
    hide CountEmail;
    assert rows[..|rows| - 1][..k] == rows[..k];
  }

  lemma {:induction false} WindowHolds(rows: Rows, email: Email, start: Time, width: Time, most: nat)
    requires forall k :: 0 <= k < |rows| ==> RoomBefore(rows, k, width, most)
    ensures CreatedIn(rows, email, start, width) <= most
    ensures CreatedIn(rows, email, start, width) <= CountEmail(rows, email, start)
    decreases |rows|
  {
    if rows == [] {
    } else {
      var init, r := rows[..|rows| - 1], rows[|rows| - 1];
      forall k | 0 <= k < |init|
        ensures RoomBefore(init, k, width, most)
      {
        RoomBeforeInFront(rows, k, width, most);
      }
      assert RoomBefore(rows, |rows| - 1, width, most);
      WindowHolds(init, email, start, width, most);
      if r.email == email && start < r.createdAt <= start + width {
        CountEmailGrows(init, email, r.createdAt - width, start);
      }
    }
  }

  lemma {:induction false} CountEmailGrows(rows: Rows, email: Email, earlier: Time, later: Time)
    requires earlier <= later
    ensures CountEmail(rows, email, later) <= CountEmail(rows, email, earlier)
    decreases |rows|
  {
    if rows == [] {
    } else {
      CountEmailGrows(rows[..|rows| - 1], email, earlier, later);
    }
  }

  /** In any short window, an address is sent at most `maxPerEmailFast` codes. */
  lemma CodesPerFastWindow(cfg: Config, start: Time, events: seq<Event>, b: Book, email: Email, from: Time)
    requires Recorded(cfg, start, events, b)
    ensures CreatedIn(b.archive, email, from, cfg.fastWindow) <= cfg.maxPerEmailFast
  {
    forall k | 0 <= k < |b.archive|
      ensures RoomBefore(b.archive, k, cfg.fastWindow, cfg.maxPerEmailFast)
    {
      RoomAndAccount(cfg, start, events, b, k);
    }
    WindowHolds(b.archive, email, from, cfg.fastWindow, cfg.maxPerEmailFast);
  }

  /** In any twenty-four hours, an address is sent at most `maxPerEmailDay` codes. */
  lemma CodesPerDay(cfg: Config, start: Time, events: seq<Event>, b: Book, email: Email, from: Time)
    requires Recorded(cfg, start, events, b)
    ensures CreatedIn(b.archive, email, from, DAY) <= cfg.maxPerEmailDay
  {
    forall k | 0 <= k < |b.archive|
      ensures RoomBefore(b.archive, k, DAY, cfg.maxPerEmailDay)
    {
      RoomAndAccount(cfg, start, events, b, k);
    }
    WindowHolds(b.archive, email, from, DAY, cfg.maxPerEmailDay);
  }

  lemma {:induction false} IpWindowHolds(rows: Rows, ip: string, start: Time, width: Time, most: nat)
    requires forall k :: 0 <= k < |rows| && rows[k].ip.Some? ==>
               CountIp(rows[..k], rows[k].ip, rows[k].createdAt - width) < most
    ensures CreatedFrom(rows, ip, start, width) <= most
    ensures CreatedFrom(rows, ip, start, width) <= CountIp(rows, Some(ip), start)
    decreases |rows|
  {
    if rows == [] {
    } else {
      var init, r := rows[..|rows| - 1], rows[|rows| - 1];
      forall k | 0 <= k < |init| && init[k].ip.Some?
        ensures CountIp(init[..k], init[k].ip, init[k].createdAt - width) < most
      {
        assert init[..k] == rows[..k];
      }
      IpWindowHolds(init, ip, start, width, most);
      assert rows[..|rows| - 1] == init;
      if r.ip == Some(ip) && start < r.createdAt <= start + width {
        CountIpGrows(init, Some(ip), r.createdAt - width, start);
      }
    }
  }

  lemma {:induction false} CountIpGrows(rows: Rows, ip: Option<string>, earlier: Time, later: Time)
    requires earlier <= later
    ensures CountIp(rows, ip, later) <= CountIp(rows, ip, earlier)
    decreases |rows|
  {
    if rows == [] {
    } else {
      CountIpGrows(rows[..|rows| - 1], ip, earlier, later);
    }
  }

  /** In any hour, one network address draws at most as many codes as its limit says. */
  lemma CodesPerAddressOfOrigin(cfg: Config, start: Time, events: seq<Event>, b: Book, ip: string, from: Time)
    requires Recorded(cfg, start, events, b)
    ensures CreatedFrom(b.archive, ip, from, HOUR) <= cfg.maxPerIP
  {
    forall k | 0 <= k < |b.archive| && b.archive[k].ip.Some?
      ensures CountIp(b.archive[..k], b.archive[k].ip, b.archive[k].createdAt - HOUR) < cfg.maxPerIP
    {
      RoomAndAccount(cfg, start, events, b, k);
    }
    IpWindowHolds(b.archive, ip, from, HOUR, cfg.maxPerIP);
  }

  /** No code is ever open to more than `maxAttempts` guesses. */
  lemma GuessesPerCode(cfg: Config, start: Time, events: seq<Event>, b: Book, id: nat)
    requires Recorded(cfg, start, events, b)
    ensures EffectiveGuesses(b.guesses, id) <= cfg.maxAttempts
  {
    if id < |b.archive| {
      RoomAndAccount(cfg, start, events, b, id);
    } else {
      RecordedInv(cfg, start, events, b);
      NoGuessesYet(b.guesses, id);
    }
  }

  lemma {:induction false} FailsHold(cfg: Config, rows: Rows, guesses: seq<Guess>, email: Email, start: Time)
    requires forall k :: 0 <= k < |rows| ==> HadRoom(cfg, rows, k) && Accounted(cfg, rows[k], guesses)
    requires cfg.maxFailsPerHour > 0
    ensures FailsIn(rows, guesses, email, start, HOUR) <= cfg.maxFailsPerHour - 1 + cfg.maxAttempts
    ensures FailsIn(rows, guesses, email, start, HOUR) <= SumAttempts(rows, email, start)
    decreases |rows|
  {
    if rows == [] {
    } else {
      var init, r := rows[..|rows| - 1], rows[|rows| - 1];
      forall k | 0 <= k < |init|
        ensures HadRoom(cfg, init, k) && Accounted(cfg, init[k], guesses)
      {
        RoomOfFront(cfg, rows, k);
      }
      RoomOfLast(cfg, rows, guesses);
      assert FailsIn(rows, guesses, email, start, HOUR) == FailsIn(init, guesses, email, start, HOUR)
          + (if r.email == email && start < r.createdAt <= start + HOUR then EffectiveFails(guesses, r.id) else 0);
      assert SumAttempts(rows, email, start) == SumAttempts(init, email, start)
             + (if r.email == email && r.createdAt > start then r.attempts else 0);
      hide HadRoom, Accounted, FailsIn, SumAttempts, EffectiveFails;
      FailsHold(cfg, init, guesses, email, start);
      if r.email == email && start < r.createdAt <= start + HOUR {
        SumAttemptsGrows(init, email, r.createdAt - HOUR, start);
      }
    }
  }

  lemma RoomOfFront(cfg: Config, rows: Rows, k: nat)
    requires k + 1 < |rows| && HadRoom(cfg, rows, k)
    ensures HadRoom(cfg, rows[..|rows| - 1], k)
  {
    hide CountEmail, SumAttempts, CountIp;
    assert rows[..|rows| - 1][..k] == rows[..k];
  }

  lemma RoomOfLast(cfg: Config, rows: Rows, guesses: seq<Guess>)
    requires rows != [] && HadRoom(cfg, rows, |rows| - 1) && Accounted(cfg, rows[|rows| - 1], guesses)
    ensures var r := rows[|rows| - 1];
            && SumAttempts(rows[..|rows| - 1], r.email, r.createdAt - HOUR) < cfg.maxFailsPerHour
            && EffectiveFails(guesses, r.id) <= r.attempts && EffectiveFails(guesses, r.id) <= cfg.maxAttempts
  {
  }

  lemma {:induction false} SumAttemptsGrows(rows: Rows, email: Email, earlier: Time, later: Time)
    requires earlier <= later
    ensures SumAttempts(rows, email, later) <= SumAttempts(rows, email, earlier)
    decreases |rows|
  {
    if rows == [] {
    } else {
      SumAttemptsGrows(rows[..|rows| - 1], email, earlier, later);
    }
  }

  /** The codes an address is sent within any hour absorb a bounded number of failed guesses, ever. */
  lemma FailsPerHour(cfg: Config, start: Time, events: seq<Event>, b: Book, email: Email, from: Time)
    requires Recorded(cfg, start, events, b)
    ensures FailsIn(b.archive, b.guesses, email, from, HOUR) <= cfg.maxFailsPerHour - 1 + cfg.maxAttempts
  {
    forall k | 0 <= k < |b.archive|
      ensures HadRoom(cfg, b.archive, k) && Accounted(cfg, b.archive[k], b.guesses)
    {
      RoomAndAccount(cfg, start, events, b, k);
    }
    FailsHold(cfg, b.archive, b.guesses, email, from);
  }

  lemma TimesGrows(m: nat, n: nat, k: nat)
    requires m <= n
    ensures m * k <= n * k
  {
    assert (n - m) * k >= 0;
  }

  lemma TimesNext(n: nat, k: nat)
    ensures (n + 1) * k == n * k + k
  {
  }

  lemma {:induction false} GuessesHold(cfg: Config, rows: Rows, guesses: seq<Guess>, email: Email, start: Time,
                                       width: Time)
    requires forall r :: r in rows ==> EffectiveGuesses(guesses, r.id) <= cfg.maxAttempts
    ensures GuessesIn(rows, guesses, email, start, width) <= CreatedIn(rows, email, start, width) * cfg.maxAttempts
    decreases |rows|
  {
    if rows == [] {
    } else {
      GuessesHold(cfg, rows[..|rows| - 1], guesses, email, start, width);
      assert rows[|rows| - 1] in rows;
      TimesNext(CreatedIn(rows[..|rows| - 1], email, start, width), cfg.maxAttempts);
    }
  }

  /** The codes an address is sent within any day are open to a bounded number of guesses, ever. */
  lemma GuessesPerDay(cfg: Config, start: Time, events: seq<Event>, b: Book, email: Email, from: Time)
    requires Recorded(cfg, start, events, b)
    ensures GuessesIn(b.archive, b.guesses, email, from, DAY) <= cfg.maxPerEmailDay * cfg.maxAttempts
  {
    forall r | r in b.archive
      ensures EffectiveGuesses(b.guesses, r.id) <= cfg.maxAttempts
    {
      GuessesPerCode(cfg, start, events, b, r.id);
    }
    GuessesHold(cfg, b.archive, b.guesses, email, from, DAY);
    CodesPerDay(cfg, start, events, b, email, from);
    TimesGrows(CreatedIn(b.archive, email, from, DAY), cfg.maxPerEmailDay, cfg.maxAttempts);
  }

  /** Only one code per address is ever live, and only the newest. */
  lemma OneLiveCode(cfg: Config, start: Time, events: seq<Event>, b: Book, r: Token, s: Token)
    requires Recorded(cfg, start, events, b)
    requires r in b.archive && s in b.archive && r.email == s.email && Live(r, r.email)
    ensures s.id <= r.id
    ensures Live(s, s.email) ==> s == r
  {
    RecordedInv(cfg, start, events, b);
    assert b.archive[r.id] == r && b.archive[s.id] == s;
  }

  /** A guess signs in exactly when it matches the address's one live code, in time and
      within budget, and then the address has no live code left. */
  lemma SignInSpendsTheCode(cfg: Config, start: Time, events: seq<Event>, b: Book, email: Email, hash: Hash, now: Time)
    requires Recorded(cfg, start, events, b) && now >= b.clock
    ensures var (b', verdict) := AfterVerify(cfg, b, email, hash, now);
            && (verdict == SignedIn <==> exists r ::
                r in b.rows && Live(r, email) && r.hash == hash && Effective(cfg, r, now))
            && (verdict == SignedIn ==> forall r :: r in b'.rows ==> !Live(r, email))
  {
    RecordedInv(cfg, start, events, b);
    KeptIsPart(b.archive, b.cutoff);
    var found := NewestLive(b.rows, email);
    if found.Some? {
      var r := found.value;
      forall s | s in b.rows && Live(s, email)
        ensures s == r
      {
        OneLiveCode(cfg, start, events, b, r, s);
      }
      UpdateAt(b.rows, Replace(r.id, Guessed(cfg, r, hash, now)));
    }
  }

  /** Nothing of the address is live once its codes are superseded and swept. */
  lemma SupersededAreDead(rows: Rows, email: Email, now: Time, cutoff: Time)
    ensures NewestLive(Kept(Update(rows, Supersede(email, now)), cutoff), email) == None
  {
    var updated := Update(rows, Supersede(email, now));
    UpdateAt(rows, Supersede(email, now));
    KeptIsPart(updated, cutoff);
    forall r | r in Kept(updated, cutoff)
      ensures !Live(r, email)
    {
      assert r in updated;
    }
  }

  lemma NewestIsLast(front: Rows, token: Token, email: Email)
    requires NewestLive(front, email) == None && Live(token, email)
    ensures NewestLive(front + [token], email) == Some(token)
  {
    assert (front + [token])[..|front|] == front;
  }

  /** A code that was sent signs its address in until it expires, whatever codes came before it. */
  lemma FreshCodeSignsIn(cfg: Config, b: Book, email: Email, ip: Option<string>, hash: Hash, now: Time, later: Time)
    requires ValidConfig(cfg) && Limits(cfg, b.rows, email, ip, now) == Allowed && now <= later < now + cfg.codeTTL
    ensures AfterVerify(cfg, AfterRequest(cfg, b, email, ip, hash, now), email, hash, later).1 == SignedIn
  {
    hide Limits, NewestLive, Update, Kept, Supersede;
    var token := NewToken(cfg, |b.archive|, email, ip, hash, now);
    var updated, cutoff := Update(b.rows, Supersede(email, now)), now - cfg.retention;
    RequestCreatesOne(cfg, b, email, ip, hash, now);
    SupersededAreDead(b.rows, email, now, cutoff);
    KeptAppend(updated, token, cutoff);
    NewestIsLast(Kept(updated, cutoff), token, email);
  }

  lemma EventKeepsConsumed(cfg: Config, b: Book, e: Event, id: nat)
    requires ValidConfig(cfg) && Inv(cfg, b) && Timely(cfg, b, e)
    requires id < |b.archive| && b.archive[id].consumedAt.Some?
    ensures id < |After(cfg, b, e).archive| && After(cfg, b, e).archive[id] == b.archive[id]
  {
    match e
    case RequestCode(email, ip, hash, at) => UpdateAt(b.archive, Supersede(email, at));
    case VerifyCode(email, hash, at) =>
      KeptIsPart(b.archive, b.cutoff);
      var found := NewestLive(b.rows, email);
      if found.Some? {
        assert b.archive[found.value.id] == found.value;
        UpdateAt(b.archive, Replace(found.value.id, Guessed(cfg, found.value, hash, at)));
      }
    case SweepExpired(_, _) =>
  }

  /** A code once consumed, by a sign-in or by a newer code, stays as it is for ever. */
  lemma {:induction false} ConsumedStaysConsumed(cfg: Config, b: Book, events: seq<Event>, id: nat)
    requires ValidConfig(cfg) && Inv(cfg, b) && TimelyAll(cfg, b, events)
    requires id < |b.archive| && b.archive[id].consumedAt.Some?
    ensures id < |AfterAll(cfg, b, events).archive| && AfterAll(cfg, b, events).archive[id] == b.archive[id]
    decreases |events|
  {
    if events == [] {
    } else {
      EventKeepsConsumed(cfg, b, events[0], id);
      EventKeeps(cfg, b, events[0]);
      ConsumedStaysConsumed(cfg, After(cfg, b, events[0]), events[1..], id);
    }
  }

  // ----- What is decided, exactly -----

  /** The counts a decision rests on are those of the windows that end now. */
  lemma {:induction false} CountsAreWindows(cfg: Config, rows: Rows, guesses: seq<Guess>, email: Email, ip: string,
                                            now: Time, width: Time)
    requires forall r :: r in rows ==> r.createdAt <= now && Accounted(cfg, r, guesses)
    ensures CountEmail(rows, email, now - width) == CreatedIn(rows, email, now - width, width)
    ensures SumAttempts(rows, email, now - width) == MissesIn(rows, guesses, email, now - width, width)
    ensures CountIp(rows, Some(ip), now - width) == CreatedFrom(rows, ip, now - width, width)
    decreases |rows|
  {
    if rows == [] {
    } else {
      CountsAreWindows(cfg, rows[..|rows| - 1], guesses, email, ip, now, width);
      assert rows[|rows| - 1] in rows;
    }
  }

  /** The decision that the windows ending now call for: the first limit they have reached, or none.
      The windows are over everything ever created and guessed, swept or not. */
  predicate IsDecision(cfg: Config, b: Book, email: Email, ip: Option<string>, now: Time, d: Decision) {
    var recent := CreatedIn(b.archive, email, now - cfg.fastWindow, cfg.fastWindow);
    var today := CreatedIn(b.archive, email, now - 86_400, 86_400);
    var misses := MissesIn(b.archive, b.guesses, email, now - 3_600, 3_600);
    var here := if ip.None? then 0 else CreatedFrom(b.archive, ip.value, now - 3_600, 3_600);
    && (d == TooManyFast <==> recent >= cfg.maxPerEmailFast)
    && (d == TooManyToday <==> recent < cfg.maxPerEmailFast && today >= cfg.maxPerEmailDay)
    && (d == TooManyFails <==>
          recent < cfg.maxPerEmailFast && today < cfg.maxPerEmailDay && misses >= cfg.maxFailsPerHour)
    && (d == TooManyFromIP <==>
          && recent < cfg.maxPerEmailFast && today < cfg.maxPerEmailDay && misses < cfg.maxFailsPerHour
          && here >= cfg.maxPerIP)
    && (d == Allowed <==>
          && recent < cfg.maxPerEmailFast && today < cfg.maxPerEmailDay && misses < cfg.maxFailsPerHour
          && here < cfg.maxPerIP)
  }

  lemma WindowsDecide(cfg: Config, b: Book, email: Email, ip: Option<string>, now: Time)
    requires ValidConfig(cfg) && Inv(cfg, b) && now >= b.clock
    ensures Limits(cfg, b.archive, email, ip, now) == Limits(cfg, b.rows, email, ip, now)
    ensures IsDecision(cfg, b, email, ip, now, Limits(cfg, b.rows, email, ip, now))
  {
    hide Accounted, HadRoom;
    assert forall r :: r in b.archive ==> r.createdAt <= b.clock && Accounted(cfg, r, b.guesses);
    hide Inv, CountEmail, SumAttempts, CountIp, CreatedIn, CreatedFrom, MissesIn;
    var origin := if ip.Some? then ip.value else "";
    CountsAreWindows(cfg, b.archive, b.guesses, email, origin, now, cfg.fastWindow);
    CountsAreWindows(cfg, b.archive, b.guesses, email, origin, now, DAY);
    CountsAreWindows(cfg, b.archive, b.guesses, email, origin, now, HOUR);
    SweepingKeepsLimits(cfg, b.archive, b.cutoff, email, ip, now);
  }

  /** After any history a request is refused for the first limit that the windows ending now have
      reached, and is allowed exactly when there is none. */
  lemma RequestsAreDecidedByWindows(cfg: Config, start: Time, events: seq<Event>, b: Book, email: Email,
                                    ip: Option<string>, now: Time)
    requires Recorded(cfg, start, events, b) && now >= b.clock
    ensures IsDecision(cfg, b, email, ip, now, Limits(cfg, b.rows, email, ip, now))
  {
    RecordedInv(cfg, start, events, b);
    WindowsDecide(cfg, b, email, ip, now);
  }

  /** Sweeping keeps the rows created at the cutoff or later, and no others. */
  lemma {:induction false} KeptExactly(rows: Rows, cutoff: Time)
    ensures forall r :: r in Kept(rows, cutoff) <==> r in rows && r.createdAt >= cutoff
    decreases |rows|
  {
    if rows == [] {
    } else {
      KeptExactly(rows[..|rows| - 1], cutoff);
    }
  }

  /** An allowed request records a fresh code with all its columns and leaves no other code of the
      address live; a refused one changes nothing. */
  lemma RequestsAreRecorded(cfg: Config, b: Book, email: Email, ip: Option<string>, hash: Hash, now: Time)
    ensures var b' := AfterRequest(cfg, b, email, ip, hash, now);
            if Limits(cfg, b.rows, email, ip, now) == Allowed then
              && |b'.archive| == |b.archive| + 1
              && b'.archive[|b.archive|] == Token(|b.archive|, email, hash, ip, 0, now, now + cfg.codeTTL, None)
              && forall i :: 0 <= i < |b.archive| ==>
                   b'.archive[i] == if b.archive[i].email == email && b.archive[i].consumedAt.None? then
                                      b.archive[i].(consumedAt := Some(now))
                                    else b.archive[i]
            else b' == b.(clock := now)
  {
    hide Limits, Kept;
    UpdateAt(b.archive, Supersede(email, now));
  }

  /** After an allowed request the table holds its code and the codes of other addresses, as they were,
      and nothing that the retention no longer covers. */
  lemma RowsAfterRequest(cfg: Config, b: Book, email: Email, ip: Option<string>, hash: Hash, now: Time)
    requires ValidConfig(cfg) && Limits(cfg, b.rows, email, ip, now) == Allowed
    ensures var rows := AfterRequest(cfg, b, email, ip, hash, now).rows;
            && Token(|b.archive|, email, hash, ip, 0, now, now + cfg.codeTTL, None) in rows
            && (forall r :: r in rows ==> r.createdAt >= now - cfg.retention)
            && (forall r :: r in b.rows && r.createdAt >= now - cfg.retention && r.email != email ==> r in rows)
  {
    hide Limits, Kept, Update;
    var updated, token := Update(b.rows, Supersede(email, now)), NewToken(cfg, |b.archive|, email, ip, hash, now);
    RequestCreatesOne(cfg, b, email, ip, hash, now);
    UpdateAt(b.rows, Supersede(email, now));
    KeptExactly(updated + [token], now - cfg.retention);
    assert (updated + [token])[|updated|] == token;
    forall r | r in b.rows && r.email != email
      ensures r in updated
    {
      var i :| 0 <= i < |b.rows| && b.rows[i] == r;
      assert updated[i] == r;
    }
  }

  /** A guess that does not sign in costs the live code an attempt and is told the first of these that
      is so: too many have missed, the code has expired, or it was wrong. */
  lemma RefusalsNameTheirReason(cfg: Config, start: Time, events: seq<Event>, b: Book, email: Email, hash: Hash,
                                now: Time, r: Token)
    requires Recorded(cfg, start, events, b) && now >= b.clock
    requires r in b.rows && Live(r, email) && AfterVerify(cfg, b, email, hash, now).1 != SignedIn
    ensures var (b', verdict) := AfterVerify(cfg, b, email, hash, now);
            && Misses(b'.guesses, r.id) == r.attempts + 1
            && r.(attempts := r.attempts + 1) in b'.rows
            && verdict == if Misses(b'.guesses, r.id) >= cfg.maxAttempts then TooManyAttempts
                          else if r.expiresAt <= now then CodeExpired
                          else Incorrect
  {
    RecordedInv(cfg, start, events, b);
    KeptIsPart(b.archive, b.cutoff);
    var found := NewestLive(b.rows, email).value;
    OneLiveCode(cfg, start, events, b, found, r);
    assert b.archive[r.id] == r && Accounted(cfg, r, b.guesses);
    GuessCounts(b.guesses, Guess(r.id, Effective(cfg, r, now), r.hash == hash), r.id);
    var f := Replace(r.id, Guessed(cfg, r, hash, now));
    UpdateAt(b.rows, f);
    var i :| 0 <= i < |b.rows| && b.rows[i] == r;
    assert Update(b.rows, f)[i] == f(r);
  }

  /** With no code of the address live a guess is wrong, and changes nothing. */
  lemma NothingToGuess(cfg: Config, b: Book, email: Email, hash: Hash, now: Time)
    requires forall r :: r in b.rows ==> !Live(r, email)
    ensures AfterVerify(cfg, b, email, hash, now) == (b.(clock := now), Incorrect)
  {
  }

  // ----- The store -----

  /** How addresses and codes are read, and how a code is hashed for its address. */
  datatype Ports = Ports(parseEmail: string -> Option<Email>, parseCode: string -> Option<string>,
                         hash: (Email, string) -> Hash)

  datatype Sent = BadAddress | Limited(why: Decision) | CodeSent

  datatype Entry = InvalidEmail | InvalidCode | Refused(why: Verdict) | SignedInAs(user: nat)

  /** The account of an address, and no other account touched. */
  predicate Upserted(users: map<Email, nat>, email: Email, users': map<Email, nat>, user: nat) {
    && users' == users[email := user]
    && (email in users ==> user == users[email])
    && (email !in users ==> user !in users.Values)
  }

  /** The token table and the accounts, updated in place.  What is ghost remembers the rows that
      sweeping deletes. */
  class TokenStore {
    const cfg: Config
    var rows: Rows
    var nextId: nat
    var users: map<Email, nat>
    ghost var book: Book

    ghost predicate Valid()
      reads this
    {
      && ValidConfig(cfg) && Inv(cfg, book) && rows == book.rows && nextId == |book.archive|
      && forall e :: e in users ==> users[e] < |users|
    }

    constructor (cfg: Config, start: Time)
      requires ValidConfig(cfg)
      ensures Valid() && this.cfg == cfg && book == EmptyBook(cfg, start)
    {
      this.cfg := cfg;
      rows, users := [], map[];
      nextId := 0;
      book := EmptyBook(cfg, start);
    }

    /** Deletes the codes created before the cutoff. */
    method Sweep(before: Time)
      requires Valid() && before <= book.clock - cfg.retention
      modifies this`rows, this`book
      ensures Valid() && book == AfterSweep(old(book), before)
    {
      KeptTwice(book.archive, book.cutoff, before);
      rows := Kept(rows, before);
      book := AfterSweep(book, before);
    }

    /** Decides from the rows that are left what the whole record would decide. */
    method RequestCode(email: Email, ip: Option<string>, hash: Hash, now: Time) returns (d: Decision)
      requires Valid() && now >= book.clock
      modifies this`rows, this`nextId, this`book
      ensures Valid() && book == AfterRequest(cfg, old(book), email, ip, hash, now)
      ensures d == Limits(cfg, old(book).archive, email, ip, now) && IsDecision(cfg, old(book), email, ip, now, d)
      ensures d != Allowed ==> rows == old(rows)
    {
      hide IsDecision, Inv, Limits, ValidConfig;
      WindowsDecide(cfg, book, email, ip, now);
      RequestKeeps(cfg, book, email, ip, hash, now);
      RequestCreatesOne(cfg, book, email, ip, hash, now);
      d := Limits(cfg, rows, email, ip, now);
      book := AfterRequest(cfg, book, email, ip, hash, now);
      if d == Allowed {
        var created := Update(rows, Supersede(email, now)) + [NewToken(cfg, nextId, email, ip, hash, now)];
        rows, nextId := Kept(created, now - cfg.retention), nextId + 1;
      }
    }

    method VerifyCode(email: Email, hash: Hash, now: Time) returns (v: Verdict)
      requires Valid() && now >= book.clock
      modifies this`rows, this`book
      ensures Valid() && book == AfterVerify(cfg, old(book), email, hash, now).0
      ensures v == AfterVerify(cfg, old(book), email, hash, now).1
    {
      VerifyKeeps(cfg, book, email, hash, now);
      ghost var after := AfterVerify(cfg, book, email, hash, now).0;
      var found := NewestLive(rows, email);
      v := Incorrect;
      if found.Some? {
        var r' := Guessed(cfg, found.value, hash, now);
        UpdateAt(book.archive, Replace(found.value.id, r'));
        rows := Update(rows, Replace(found.value.id, r'));
        v := VerdictOf(cfg, r', now);
      }
      book := after;
    }

    /** The account of an address, created on its first sign-in. */
    method UpsertUser(email: Email) returns (user: nat)
      requires Valid()
      modifies this`users
      ensures Valid() && Upserted(old(users), email, users, user)
    {
      if email in users {
        user := users[email];
        assert users == users[email := user];
      } else {
        user := |users|;
        users := users[email := user];
      }
    }

    /** A request as it arrives: the code is new, and only its hash is kept. */
    method SendCode(ports: Ports, rawEmail: string, ip: Option<string>, code: string, now: Time) returns (r: Sent)
      requires Valid() && now >= book.clock
      modifies this`rows, this`nextId, this`book
      ensures Valid()
      ensures match ports.parseEmail(rawEmail)
              case None => r == BadAddress && book == old(book)
              case Some(email) =>
                && book == AfterRequest(cfg, old(book), email, ip, ports.hash(email, code), now)
                && r == (var d := Limits(cfg, old(book).archive, email, ip, now); if d == Allowed then CodeSent
                         else Limited(d))
    {
      var email := ports.parseEmail(rawEmail);
      if email.None? {
        return BadAddress;
      }
      var d := RequestCode(email.value, ip, ports.hash(email.value, code), now);
      r := if d == Allowed then CodeSent else Limited(d);
    }

    /** A guess as it arrives: a malformed one costs no attempt, and a right one yields the account. */
    method SignIn(ports: Ports, rawEmail: string, rawCode: string, now: Time) returns (r: Entry)
      requires Valid() && now >= book.clock
      modifies this`rows, this`book, this`users
      ensures Valid()
      ensures match (ports.parseEmail(rawEmail), ports.parseCode(rawCode))
              case (None, _) => r == InvalidEmail && book == old(book) && users == old(users)
              case (Some(_), None) => r == InvalidCode && book == old(book) && users == old(users)
              case (Some(email), Some(code)) =>
                var (book', verdict) := AfterVerify(cfg, old(book), email, ports.hash(email, code), now);
                && book == book'
                && if verdict == SignedIn then r.SignedInAs? && Upserted(old(users), email, users, r.user)
                   else r == Refused(verdict) && users == old(users)
    {
      var email := ports.parseEmail(rawEmail);
      if email.None? {
        return InvalidEmail;
      }
      var code := ports.parseCode(rawCode);
      if code.None? {
        return InvalidCode;
      }
      var verdict := VerifyCode(email.value, ports.hash(email.value, code.value), now);
      if verdict == SignedIn {
        var user := UpsertUser(email.value);
        return SignedInAs(user);
      }
      r := Refused(verdict);
    }
  }
}
