/** The second opinion, internal/play/judging.go: a judge may turn a rejected answer into an
    accepted one, its verdicts are kept, and what it accepts becomes an alias.

    Everything here is about one question; the tables are keyed by question.  Calls are
    serialized, writes succeed, and no operator edits the question meanwhile. */
module Judging {
  import opened Wrappers
  import opened Grading
  import opened QuestionImport

  type RunId = int

  const MAX_JUDGED_RUNES: nat := 80

  datatype Scores = Scores(acceptable: real, namesOtherThing: real, tooVague: real)

  datatype Thresholds = Thresholds(minAcceptable: real, maxNamesOtherThing: real, maxTooVague: real)

  /** Without a judge there is no second opinion. */
  datatype Jury = Off | On(limits: Thresholds)

  predicate Accepts(s: Scores, t: Thresholds) {
    s.acceptable >= t.minAcceptable && s.namesOtherThing <= t.maxNamesOtherThing && s.tooVague <= t.maxTooVague
  }

  /** What a run's row for the question says; a row made by revealing the options counts as touched. */
  datatype Row = Typed(star: bool) | Touched

  /** `aliases` are normalized; `verdicts` maps a normalized text to whether it was accepted. */
  datatype Bench = Bench(aliases: set<string>, verdicts: map<string, bool>, answers: map<RunId, Row>)

  /** A submission comes with what the judge would say to it, or None should it fail or time out. */
  datatype Event = Submit(run: RunId, text: string, opinion: Option<Scores>) | Touch(run: RunId)

  /** A text worth a second opinion, given how it was graded. */
  predicate WouldJudge(lx: Lexicon, jury: Jury, text: string, readsAsWrong: bool) {
    jury.On? && !readsAsWrong && lx.normalize(text) != "" && |text| <= MAX_JUDGED_RUNES
  }

  /** The judge is consulted. */
  ghost predicate Asked(lx: Lexicon, wrong: set<string>, jury: Jury, b: Bench, ev: Event) {
    && ev.Submit?
    && !IsCorrect(lx, ev.text, b.aliases, wrong)
    && WouldJudge(lx, jury, ev.text, ReadsAsWrong(lx, ev.text, wrong))
    && ev.run !in b.answers
    && lx.normalize(ev.text) !in b.verdicts
  }

  ghost predicate JudgedRight(lx: Lexicon, wrong: set<string>, jury: Jury, b: Bench, ev: Event) {
    Asked(lx, wrong, jury, b, ev) && ev.opinion.Some? && Accepts(ev.opinion.value, jury.limits)
  }

  /** The row of a run that has none yet. */
  ghost function Answered(lx: Lexicon, wrong: set<string>, jury: Jury, b: Bench, ev: Event): Row {
    if ev.Touch? then Touched
    else Typed(IsCorrect(lx, ev.text, b.aliases, wrong) || JudgedRight(lx, wrong, jury, b, ev))
  }

  ghost function Next(lx: Lexicon, wrong: set<string>, jury: Jury, b: Bench, ev: Event): Bench {
    var n := if ev.Submit? then lx.normalize(ev.text) else "";
    Bench(
      if JudgedRight(lx, wrong, jury, b, ev) then b.aliases + {n} else b.aliases,
      if Asked(lx, wrong, jury, b, ev) && ev.opinion.Some? then
        b.verdicts[n := Accepts(ev.opinion.value, jury.limits)]
      else b.verdicts,
      if ev.run in b.answers then b.answers else b.answers[ev.run := Answered(lx, wrong, jury, b, ev)])
  }

  // ----- The tables -----

  class QuestionTables {
    const lx: Lexicon
    const distractors: seq<string>
    var aliases: seq<string>
    var verdicts: map<string, bool>
    var answers: map<RunId, Row>

    constructor (lx: Lexicon, distractors: seq<string>, aliases: seq<string>)
      ensures this.lx == lx && this.distractors == distractors
      ensures Current() == Bench(Texts(aliases), map[], map[])
    {
      this.lx, this.distractors, this.aliases, this.verdicts, this.answers := lx, distractors, aliases, map[], map[];
    }

    ghost function Current(): Bench
      reads this
    {
      Bench(Texts(aliases), verdicts, answers)
    }

    ghost function Wrong(): set<string> {
      Norms(lx, distractors)
    }

    /** Distractors are stored raw and normalized on the way to grading. */
    method GradeText(text: string) returns (r: Result)
      ensures IsVerdict(lx, text, Texts(aliases), Wrong(), r)
    {
      var normalized: seq<string> := [];
      for i := 0 to |distractors|
        invariant Texts(normalized) == Norms(lx, distractors[..i])
      {
        NormsGrow(lx, distractors, i);
        ghost var before := normalized;
        normalized := normalized + [lx.normalize(distractors[i])];
        assert normalized[..|before|] == before && normalized[..|before| + 1] == normalized;
        TextsGrow(normalized, |before|);
      }
      assert distractors[..|distractors|] == distractors;
      r := Grade(lx, text, aliases, normalized);
    }

    /** Untouched questions only, earlier verdicts are final, and a failure accepts nothing. */
    method SecondOpinion(limits: Thresholds, touched: bool, text: string, opinion: Option<Scores>)
      returns (accept: bool)
      modifies this`aliases, this`verdicts
      ensures var n, unjudged := lx.normalize(text), !touched && lx.normalize(text) !in old(verdicts);
              && (accept <==> unjudged && opinion.Some? && Accepts(opinion.value, limits))
              && verdicts == (if unjudged && opinion.Some? then old(verdicts)[n := accept] else old(verdicts))
              && Texts(aliases) == (if accept then Texts(old(aliases)) + {n} else Texts(old(aliases)))
    {
      var normalized := lx.normalize(text);
      if touched {
        return false;
      }
      if normalized in verdicts {
        return false;
      }
      if opinion.None? {
        return false;
      }
      accept := Accepts(opinion.value, limits);
      verdicts := verdicts[normalized := accept];
      if accept && normalized !in aliases {
        TextsGrow(aliases + [normalized], |aliases|);
        assert (aliases + [normalized])[..|aliases|] == aliases;
        assert (aliases + [normalized])[..|aliases| + 1] == aliases + [normalized];
        aliases := aliases + [normalized];
      }
    }

    /** One typed answer; the first row a run has for the question stands. */
    method AnswerFreeText(jury: Jury, run: RunId, text: string, opinion: Option<Scores>) returns (recorded: bool)
      modifies this`aliases, this`verdicts, this`answers
      ensures Current() == old(Next(lx, Wrong(), jury, Current(), Submit(run, text, opinion)))
      ensures recorded <==> run !in old(answers)
    {
      hide IsCorrect, IsNearMiss, ReadsAsWrong, Accepts, IsMatch;
      var r := GradeText(text);
      var correct := r.correct;
      if !correct && WouldJudge(lx, jury, text, r.readsAsWrongOption) {
        correct := SecondOpinion(jury.limits, run in answers, text, opinion);
      }
      recorded := run !in answers;
      if recorded {
        answers := answers[run := Typed(correct)];
      }
    }
  }

  // ----- What is always true of the tables -----

  /** Every verdict is on a real text that is no wrong option, and what was accepted is an alias. */
  ghost predicate Inv(wrong: set<string>, b: Bench) {
    forall n :: n in b.verdicts ==> n != "" && n !in wrong && (b.verdicts[n] ==> n in b.aliases)
  }

  lemma StepKeeps(lx: Lexicon, wrong: set<string>, jury: Jury, b: Bench, ev: Event)
    requires Inv(wrong, b)
    ensures Inv(wrong, Next(lx, wrong, jury, b, ev))
  {
    hide IsCorrect, Accepts;
    if Asked(lx, wrong, jury, b, ev) {
      var n := lx.normalize(ev.text);
      if n in wrong {
        WrongOptionIsSettled(lx, ev.text, b.aliases, wrong);
      }
    }
  }

  ghost predicate EventAt(lx: Lexicon, wrong: set<string>, jury: Jury, states: seq<Bench>, events: seq<Event>, k: nat)
    requires k < |events| && |states| == |events| + 1
  {
    states[k + 1] == Next(lx, wrong, jury, states[k], events[k])
  }

  /** A history from a question nobody has met, whatever its aliases. */
  ghost predicate IsHistory(lx: Lexicon, wrong: set<string>, jury: Jury, states: seq<Bench>, events: seq<Event>) {
    && |states| == |events| + 1 && states[0].verdicts == map[] && states[0].answers == map[]
    && forall k :: 0 <= k < |events| ==> EventAt(lx, wrong, jury, states, events, k)
  }

  lemma {:induction false} HistoryKeeps(lx: Lexicon, wrong: set<string>, jury: Jury, states: seq<Bench>,
                                        events: seq<Event>, k: nat)
    requires IsHistory(lx, wrong, jury, states, events) && k < |states|
    ensures Inv(wrong, states[k])
  {
    if k == 0 {
    } else {
      hide Next;
      HistoryKeeps(lx, wrong, jury, states, events, k - 1);
      assert EventAt(lx, wrong, jury, states, events, k - 1);
      StepKeeps(lx, wrong, jury, states[k - 1], events[k - 1]);
    }
  }

  // ----- What every history promises -----

  /** A verdict, once recorded, stands; aliases and answers are never lost or changed. */
  lemma {:induction false} NothingIsTakenBack(lx: Lexicon, wrong: set<string>, jury: Jury, states: seq<Bench>,
                                              events: seq<Event>, k: nat, m: nat)
    requires IsHistory(lx, wrong, jury, states, events) && k <= m < |states|
    ensures forall n :: n in states[k].verdicts ==>
              n in states[m].verdicts && states[m].verdicts[n] == states[k].verdicts[n]
    ensures forall run :: run in states[k].answers ==>
              run in states[m].answers && states[m].answers[run] == states[k].answers[run]
    ensures states[k].aliases <= states[m].aliases
    decreases m
  {
    if k == m {
    } else {
      hide IsCorrect, Accepts, WouldJudge;
      NothingIsTakenBack(lx, wrong, jury, states, events, k, m - 1);
      assert EventAt(lx, wrong, jury, states, events, m - 1);
    }
  }

  /** After a verdict on a text the judge is never asked about any spelling of it again. */
  lemma NeverJudgedTwice(lx: Lexicon, wrong: set<string>, jury: Jury, states: seq<Bench>, events: seq<Event>, k: nat,
                         m: nat)
    requires IsHistory(lx, wrong, jury, states, events) && k < m < |events|
    requires Asked(lx, wrong, jury, states[k], events[k]) && events[k].opinion.Some?
    requires events[m].Submit? && lx.normalize(events[m].text) == lx.normalize(events[k].text)
    ensures !Asked(lx, wrong, jury, states[m], events[m])
  {
    assert EventAt(lx, wrong, jury, states, events, k);
    assert lx.normalize(events[k].text) in states[k + 1].verdicts;
    hide IsCorrect, Accepts, WouldJudge, Next;
    NothingIsTakenBack(lx, wrong, jury, states, events, k + 1, m);
  }

  /** A text accepted once is correct for ever after, by grading alone. */
  lemma AcceptedForEver(lx: Lexicon, wrong: set<string>, jury: Jury, states: seq<Bench>, events: seq<Event>, k: nat,
                        m: nat, typed: string)
    requires IsHistory(lx, wrong, jury, states, events) && k <= m < |states|
    requires lx.normalize(typed) in states[k].verdicts && states[k].verdicts[lx.normalize(typed)]
    ensures IsCorrect(lx, typed, states[m].aliases, wrong)
  {
    hide Next;
    NothingIsTakenBack(lx, wrong, jury, states, events, k, m);
    HistoryKeeps(lx, wrong, jury, states, events, m);
    LiteralMatch(lx, typed, states[m].aliases, wrong);
  }

  /** An alias that was not there to begin with is one the judge accepted. */
  lemma {:induction false} LearnedMeansAccepted(lx: Lexicon, wrong: set<string>, jury: Jury, states: seq<Bench>,
                                                events: seq<Event>, k: nat, n: string)
    requires IsHistory(lx, wrong, jury, states, events) && k < |states|
    ensures n in states[k].aliases <==> n in states[0].aliases || (n in states[k].verdicts && states[k].verdicts[n])
  {
    if k == 0 {
    } else {
      hide IsCorrect, Accepts, WouldJudge;
      LearnedMeansAccepted(lx, wrong, jury, states, events, k - 1, n);
      assert EventAt(lx, wrong, jury, states, events, k - 1);
    }
  }

  /** Typing a wrong option never earns a star, whatever has been learned. */
  lemma WrongOptionsNeverStar(lx: Lexicon, wrong: set<string>, jury: Jury, b: Bench, ev: Event)
    requires ev.Submit? && lx.normalize(ev.text) in wrong && ev.run !in b.answers
    ensures Next(lx, wrong, jury, b, ev).answers[ev.run] == Typed(false)
    ensures Next(lx, wrong, jury, b, ev).aliases == b.aliases && Next(lx, wrong, jury, b, ev).verdicts == b.verdicts
  {
    hide IsCorrect, Accepts;
    WrongOptionIsSettled(lx, ev.text, b.aliases, wrong);
  }

  /** Same rows, and every star on the left is a star on the right. */
  ghost predicate NoFewerStars(a: map<RunId, Row>, b: map<RunId, Row>) {
    && a.Keys == b.Keys
    && forall run :: run in a ==>
         && (a[run].Touched? <==> b[run].Touched?)
         && (a[run].Typed? && a[run].star ==> b[run].Typed? && b[run].star)
  }

  lemma NoAnswersYet()
    ensures NoFewerStars(map[], map[])
  {
  }

  lemma StepGainsStars(lx: Lexicon, wrong: set<string>, jury: Jury, plain: Bench, judged: Bench, ev: Event)
    requires plain.aliases <= judged.aliases && NoFewerStars(plain.answers, judged.answers)
    ensures var p, j := Next(lx, wrong, Off, plain, ev), Next(lx, wrong, jury, judged, ev);
            p.aliases <= j.aliases && NoFewerStars(p.answers, j.answers)
  {
    hide IsCorrect, Accepts;
    if ev.Submit? && IsCorrect(lx, ev.text, plain.aliases, wrong) {
      CorrectGrowsWithAliases(lx, ev.text, plain.aliases, judged.aliases, wrong);
    }
  }

  /** Over the same submissions, whoever earns a star without the judge earns it with the judge. */
  lemma {:induction false} TheJudgeOnlyAddsStars(lx: Lexicon, wrong: set<string>, jury: Jury,
                                                 plain: seq<Bench>, judged: seq<Bench>, events: seq<Event>, k: nat)
    requires IsHistory(lx, wrong, Off, plain, events) && IsHistory(lx, wrong, jury, judged, events)
    requires plain[0].aliases == judged[0].aliases && k <= |events|
    ensures plain[k].aliases <= judged[k].aliases && NoFewerStars(plain[k].answers, judged[k].answers)
  {
    NoAnswersYet();
    hide Next, NoFewerStars;
    if k == 0 {
    } else {
      TheJudgeOnlyAddsStars(lx, wrong, jury, plain, judged, events, k - 1);
      assert EventAt(lx, wrong, Off, plain, events, k - 1) && EventAt(lx, wrong, jury, judged, events, k - 1);
      StepGainsStars(lx, wrong, jury, plain[k - 1], judged[k - 1], events[k - 1]);
    }
  }

  // ----- What earns a star, and what a verdict says -----

  /** The scores clear all three limits: none falls short by anything. */
  predicate ClearsLimits(s: Scores, t: Thresholds) {
    && !(s.acceptable < t.minAcceptable) && !(s.namesOtherThing > t.maxNamesOtherThing)
    && !(s.tooVague > t.maxTooVague)
  }

  /** The judge has been asked about the text and has given scores: there is a judge, the text is a
      short answer that reads as nothing known, nobody has been judged on it, and the run has no row yet. */
  ghost predicate Scored(lx: Lexicon, wrong: set<string>, jury: Jury, b: Bench, ev: Event) {
    && jury.On? && ev.Submit? && ev.opinion.Some? && ev.run !in b.answers && 0 <= |ev.text| <= 80
    && var n := lx.normalize(ev.text);
       && n != "" && n !in b.verdicts
       && !IsCorrect(lx, ev.text, b.aliases, wrong) && !ReadsAsAny(lx, n, wrong)
  }

  ghost predicate FirstOf(events: seq<Event>, j: nat, run: RunId) {
    j < |events| && events[j].run == run && forall i :: 0 <= i < j ==> events[i].run != run
  }

  lemma StepAnswers(lx: Lexicon, wrong: set<string>, jury: Jury, b: Bench, ev: Event)
    ensures var b' := Next(lx, wrong, jury, b, ev);
            && b'.answers.Keys == b.answers.Keys + {ev.run}
            && (forall run :: run in b.answers ==> b'.answers[run] == b.answers[run])
            && (ev.run !in b.answers ==>
                  b'.answers[ev.run]
                  == if ev.Touch? then Touched
                     else Typed(IsCorrect(lx, ev.text, b.aliases, wrong)
                                || (Scored(lx, wrong, jury, b, ev) && ClearsLimits(ev.opinion.value, jury.limits))))
  {
    hide IsCorrect, ReadsAsAny;
  }

  /** What a run has is what its first submission earned: a star if it was correct by the aliases of
      that moment, or if the judge scored it and its scores clear every limit, and otherwise none. */
  lemma {:induction false} StarsAreEarned(lx: Lexicon, wrong: set<string>, jury: Jury, states: seq<Bench>,
                                          events: seq<Event>, k: nat, run: RunId)
    returns (j: nat)
    requires IsHistory(lx, wrong, jury, states, events) && k < |states| && run in states[k].answers
    ensures j < k && FirstOf(events, j, run)
    ensures var ev := events[j];
            states[k].answers[run]
            == if ev.Touch? then Touched
               else Typed(IsCorrect(lx, ev.text, states[j].aliases, wrong)
                          || (&& Scored(lx, wrong, jury, states[j], ev)
                              && ClearsLimits(ev.opinion.value, jury.limits)))
  {
    hide IsCorrect, Scored, Next, ClearsLimits;
    if k == 0 {
      assert false;
    } else {
      assert EventAt(lx, wrong, jury, states, events, k - 1);
      StepAnswers(lx, wrong, jury, states[k - 1], events[k - 1]);
      if run in states[k - 1].answers {
        j := StarsAreEarned(lx, wrong, jury, states, events, k - 1, run);
      } else {
        j := k - 1;
        NoRowYet(lx, wrong, jury, states, events, k - 1, run);
      }
    }
  }

  lemma {:induction false} NoRowYet(lx: Lexicon, wrong: set<string>, jury: Jury, states: seq<Bench>,
                                    events: seq<Event>, k: nat, run: RunId)
    requires IsHistory(lx, wrong, jury, states, events) && k < |states|
    ensures run !in states[k].answers <==> forall i :: 0 <= i < k ==> events[i].run != run
  {
    hide IsCorrect, Next;
    if k == 0 {
    } else {
      NoRowYet(lx, wrong, jury, states, events, k - 1, run);
      assert EventAt(lx, wrong, jury, states, events, k - 1);
      StepAnswers(lx, wrong, jury, states[k - 1], events[k - 1]);
    }
  }

  lemma StepVerdicts(lx: Lexicon, wrong: set<string>, jury: Jury, b: Bench, ev: Event)
    ensures var b' := Next(lx, wrong, jury, b, ev);
            b'.verdicts == if Scored(lx, wrong, jury, b, ev) then
                             b.verdicts[lx.normalize(ev.text) := ClearsLimits(ev.opinion.value, jury.limits)]
                           else b.verdicts
  {
    hide IsCorrect, ReadsAsAny;
  }

  /** A text the judge scored, and what the limits made of the scores. */
  ghost predicate GivenAt(lx: Lexicon, wrong: set<string>, jury: Jury, states: seq<Bench>, events: seq<Event>, j: nat,
                          n: string, accepted: bool)
    requires |states| == |events| + 1
  {
    && j < |events| && Scored(lx, wrong, jury, states[j], events[j]) && lx.normalize(events[j].text) == n
    && (accepted <==> ClearsLimits(events[j].opinion.value, jury.limits))
  }

  /** A text has a verdict if and only if the judge has scored it, and the verdict is what the limits
      make of those scores. */
  lemma {:induction false} VerdictsAreGiven(lx: Lexicon, wrong: set<string>, jury: Jury, states: seq<Bench>,
                                            events: seq<Event>, k: nat, n: string, accepted: bool)
    requires IsHistory(lx, wrong, jury, states, events) && k < |states|
    ensures n in states[k].verdicts && states[k].verdicts[n] == accepted
            <==> exists j: nat :: j < k && GivenAt(lx, wrong, jury, states, events, j, n, accepted)
  {
    hide IsCorrect, ReadsAsAny, Next, ClearsLimits;
    if k == 0 {
    } else {
      VerdictsAreGiven(lx, wrong, jury, states, events, k - 1, n, accepted);
      VerdictsAreGiven(lx, wrong, jury, states, events, k - 1, n, !accepted);
      assert EventAt(lx, wrong, jury, states, events, k - 1);
      StepVerdicts(lx, wrong, jury, states[k - 1], events[k - 1]);
      if Scored(lx, wrong, jury, states[k - 1], events[k - 1]) && lx.normalize(events[k - 1].text) == n {
        var a := ClearsLimits(events[k - 1].opinion.value, jury.limits);
        assert GivenAt(lx, wrong, jury, states, events, k - 1, n, a);
      }
    }
  }
}
