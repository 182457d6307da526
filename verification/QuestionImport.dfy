/** From an author's question to a graded answer: validation (internal/content/seed.go), storage
    (internal/content/store.go) and what players can then score (internal/play/play.go). */
module QuestionImport {
  import opened Wrappers
  import opened Distance
  import opened Grading

  /** A question as written.  Validation may add to its aliases. */
  class SeedQuestion {
    const rating: int
    const prompt: string
    const answer: string
    var aliases: seq<string>
    const distractors: seq<string>

    constructor (rating: int, prompt: string, answer: string, aliases: seq<string>, distractors: seq<string>)
      ensures this.rating == rating && this.prompt == prompt && this.answer == answer
      ensures this.aliases == aliases && this.distractors == distractors
    {
      this.rating, this.prompt, this.answer := rating, prompt, answer;
      this.aliases, this.distractors := aliases, distractors;
    }

    function Text(): Draft
      reads this
    {
      Draft(rating, prompt, answer, aliases, distractors)
    }
  }

  datatype Draft = Draft(rating: int, prompt: string, answer: string, aliases: seq<string>, distractors: seq<string>)

  datatype Band = EasyBand | MediumBand | HardBand

  function BandForRating(rating: int): Option<Band> {
    if 1 <= rating <= 4 then Some(EasyBand)
    else if 5 <= rating <= 7 then Some(MediumBand)
    else if 8 <= rating <= 10 then Some(HardBand)
    else None
  }

  /** The ratings of a band. */
  function Rated(band: Band): set<int> {
    set r | -1 <= r <= 11 && BandForRating(r) == Some(band)
  }

  /** The scale has ten ratings, in three bands from the bottom up. */
  lemma BandsSplitTheScale(rating: int)
    ensures Rated(EasyBand) == {1, 2, 3, 4} && Rated(MediumBand) == {5, 6, 7} && Rated(HardBand) == {8, 9, 10}
    ensures BandForRating(rating).Some? <==> rating in Rated(EasyBand) + Rated(MediumBand) + Rated(HardBand)
  {
  }

  datatype Problem =
    | BadRating
    | NoPrompt
    | NoAnswer
    | AnswerIsBlank
    | AliasIsBlank(alias: string)
    | DistractorIsAccepted(distractor: string)
    | TooFewDistractors(distinct: nat)

  /** The normalized forms of the texts. */
  function Norms(lx: Lexicon, texts: seq<string>): set<string> {
    set t | t in texts :: lx.normalize(t)
  }

  lemma NormsGrow(lx: Lexicon, texts: seq<string>, i: nat)
    requires i < |texts|
    ensures Norms(lx, texts[..i + 1]) == Norms(lx, texts[..i]) + {lx.normalize(texts[i])}
  {
    assert texts[..i + 1] == texts[..i] + [texts[i]];
  }

  /** Every spelling that will be marked correct outright. */
  function Accepted(lx: Lexicon, d: Draft): set<string> {
    {lx.normalize(d.answer)} + Norms(lx, d.aliases)
  }

  /** A question that can reach a board. */
  predicate Passes(lx: Lexicon, d: Draft) {
    && 1 <= d.rating <= 10 && d.prompt != "" && d.answer != ""
    && "" !in Accepted(lx, d)
    && Norms(lx, d.distractors) !! Accepted(lx, d)
    && |Norms(lx, d.distractors)| >= 3
  }

  /** The first text of the list whose normalized form is in the set. */
  predicate IsFirstIn(lx: Lexicon, texts: seq<string>, forms: set<string>, text: string) {
    exists k :: 0 <= k < |texts| && texts[k] == text && lx.normalize(text) in forms && Norms(lx, texts[..k]) !! forms
  }

  /** The problem is really there, and nothing checked before it was wrong. */
  predicate IsProblem(lx: Lexicon, d: Draft, p: Problem) {
    var rated := 1 <= d.rating <= 10;
    var written := rated && d.prompt != "" && d.answer != "";
    match p
    case BadRating => !rated
    case NoPrompt => rated && d.prompt == ""
    case NoAnswer => rated && d.prompt != "" && d.answer == ""
    case AnswerIsBlank => written && lx.normalize(d.answer) == ""
    case AliasIsBlank(alias) => written && lx.normalize(d.answer) != "" && IsFirstIn(lx, d.aliases, {""}, alias)
    case DistractorIsAccepted(distractor) =>
      written && "" !in Accepted(lx, d) && IsFirstIn(lx, d.distractors, Accepted(lx, d), distractor)
    case TooFewDistractors(distinct) =>
      && written && "" !in Accepted(lx, d) && Norms(lx, d.distractors) !! Accepted(lx, d)
      && distinct == |Norms(lx, d.distractors)| < 3
  }

  /** The first alias that normalizes to nothing, or every form accepted. */
  method CollectAccepted(lx: Lexicon, answer: string, aliases: seq<string>)
    returns (blank: Option<string>, accepted: set<string>, hasAnswerAlias: bool)
    requires lx.normalize(answer) != ""
    ensures blank.Some? ==> IsFirstIn(lx, aliases, {""}, blank.value)
    ensures blank.None? ==> "" !in Norms(lx, aliases) && accepted == {lx.normalize(answer)} + Norms(lx, aliases)
    ensures blank.None? ==> (hasAnswerAlias <==> lx.normalize(answer) in Norms(lx, aliases))
  {
    var answerKey := lx.normalize(answer);
    accepted, hasAnswerAlias := {answerKey}, false;
    for i := 0 to |aliases|
      invariant "" !in Norms(lx, aliases[..i])
      invariant accepted == {answerKey} + Norms(lx, aliases[..i])
      invariant hasAnswerAlias <==> answerKey in Norms(lx, aliases[..i])
    {
      var key := lx.normalize(aliases[i]);
      if key == "" {
        return Some(aliases[i]), accepted, hasAnswerAlias;
      }
      NormsGrow(lx, aliases, i);
      accepted := accepted + {key};
      if key == answerKey {
        hasAnswerAlias := true;
      }
    }
    assert aliases[..|aliases|] == aliases;
    blank := None;
  }

  /** The first distractor that is an accepted answer, or the distinct forms of them all. */
  method CollectDistractors(lx: Lexicon, distractors: seq<string>, accepted: set<string>)
    returns (clash: Option<string>, keys: set<string>)
    ensures clash.Some? ==> IsFirstIn(lx, distractors, accepted, clash.value)
    ensures clash.None? ==> keys == Norms(lx, distractors) && keys !! accepted
  {
    keys := {};
    for i := 0 to |distractors|
      invariant keys == Norms(lx, distractors[..i]) && keys !! accepted
    {
      var key := lx.normalize(distractors[i]);
      if key in accepted {
        return Some(distractors[i]), keys;
      }
      NormsGrow(lx, distractors, i);
      keys := keys + {key};
    }
    assert distractors[..|distractors|] == distractors;
    clash := None;
  }

  method ValidateQuestion(lx: Lexicon, q: SeedQuestion) returns (problem: Option<Problem>)
    modifies q`aliases
    ensures problem.None? <==> Passes(lx, old(q.Text()))
    ensures problem.Some? ==> IsProblem(lx, old(q.Text()), problem.value) && q.aliases == old(q.aliases)
    ensures problem.None? ==>
              q.aliases == if lx.normalize(q.answer) in Norms(lx, old(q.aliases)) then old(q.aliases)
                           else [q.answer] + old(q.aliases)
  {
    if BandForRating(q.rating).None? {
      return Some(BadRating);
    }
    if q.prompt == "" {
      return Some(NoPrompt);
    }
    if q.answer == "" {
      return Some(NoAnswer);
    }
    if lx.normalize(q.answer) == "" {
      return Some(AnswerIsBlank);
    }
    var blank, accepted, hasAnswerAlias := CollectAccepted(lx, q.answer, q.aliases);
    if blank.Some? {
      return Some(AliasIsBlank(blank.value));
    }
    var clash, keys := CollectDistractors(lx, q.distractors, accepted);
    if clash.Some? {
      return Some(DistractorIsAccepted(clash.value));
    }
    if |keys| < 3 {
      return Some(TooFewDistractors(|keys|));
    }
    if !hasAnswerAlias {
      q.aliases := [q.answer] + q.aliases;
    }
    problem := None;
  }

  /** The draft as validation leaves it. */
  function Validated(lx: Lexicon, d: Draft): Draft {
    if lx.normalize(d.answer) in Norms(lx, d.aliases) then d else d.(aliases := [d.answer] + d.aliases)
  }

  lemma ValidatedAccepts(lx: Lexicon, d: Draft)
    ensures Norms(lx, Validated(lx, d).aliases) == Accepted(lx, d)
  {
    if lx.normalize(d.answer) !in Norms(lx, d.aliases) {
      var all := [d.answer] + d.aliases;
      forall n | n in Accepted(lx, d)
        ensures n in Norms(lx, all)
      {
        if n == lx.normalize(d.answer) {
          assert all[0] in all;
        } else {
          var t :| t in d.aliases && lx.normalize(t) == n;
          assert t in all;
        }
      }
    }
  }

  // ----- Storage -----

  datatype AliasRow = AliasRow(alias: string, normalized: string)

  predicate NoRepeats(s: seq<string>) {
    forall i, j :: 0 <= i < j < |s| ==> s[i] != s[j]
  }

  function Normalized(rows: seq<AliasRow>): seq<string> {
    seq(|rows|, i requires 0 <= i < |rows| => rows[i].normalized)
  }

  /** The rows hold each non-empty normalized form once, with a spelling it came from. */
  ghost predicate AliasesStored(lx: Lexicon, aliases: seq<string>, rows: seq<AliasRow>) {
    && (forall i :: 0 <= i < |rows| ==> rows[i].alias in aliases && rows[i].normalized == lx.normalize(rows[i].alias))
    && NoRepeats(Normalized(rows))
    && Texts(Normalized(rows)) == Norms(lx, aliases) - {""}
  }

  /** The rows hold each non-empty option once. */
  predicate DistractorsStored(options: seq<string>, rows: seq<string>) {
    NoRepeats(rows) && Texts(rows) == Texts(options) - {""}
  }

  lemma RepeatsNothing(s: seq<string>, t: string)
    requires NoRepeats(s) && t !in Texts(s)
    ensures NoRepeats(s + [t]) && Texts(s + [t]) == Texts(s) + {t}
  {
    forall i, j | 0 <= i < j < |s + [t]|
      ensures (s + [t])[i] != (s + [t])[j]
    {
      assert s[i] in Texts(s);
    }
  }

  /** The rows of one question. */
  class QuestionRows {
    var aliases: seq<AliasRow>
    var distractors: seq<string>

    constructor ()
      ensures aliases == [] && distractors == []
    {
      aliases, distractors := [], [];
    }

    method ReplaceAliases(lx: Lexicon, texts: seq<string>)
      modifies this`aliases
      ensures AliasesStored(lx, texts, aliases)
    {
      aliases := [];
      var seen: set<string> := {};
      for i := 0 to |texts|
        invariant AliasesStored(lx, texts[..i], aliases) && seen == Texts(Normalized(aliases))
      {
        var normalized := lx.normalize(texts[i]);
        NormsGrow(lx, texts, i);
        if normalized == "" || normalized in seen {
          continue;
        }
        ghost var before := Normalized(aliases);
        seen := seen + {normalized};
        RepeatsNothing(before, normalized);
        aliases := aliases + [AliasRow(texts[i], normalized)];
        assert Normalized(aliases) == before + [normalized];
      }
      assert texts[..|texts|] == texts;
    }

    method ReplaceDistractors(options: seq<string>)
      modifies this`distractors
      ensures DistractorsStored(options, distractors)
    {
      distractors := [];
      var seen: set<string> := {};
      for i := 0 to |options|
        invariant DistractorsStored(options[..i], distractors) && seen == Texts(distractors)
      {
        TextsGrow(options, i);
        if options[i] == "" || options[i] in seen {
          continue;
        }
        RepeatsNothing(distractors, options[i]);
        seen := seen + {options[i]};
        distractors := distractors + [options[i]];
      }
      assert options[..|options|] == options;
    }
  }

  // ----- What an imported question promises its players -----

  /** The rows were written from a question that passed validation. */
  ghost predicate Imported(lx: Lexicon, d: Draft, aliases: seq<AliasRow>, distractors: seq<string>) {
    && Passes(lx, d)
    && AliasesStored(lx, Validated(lx, d).aliases, aliases)
    && DistractorsStored(d.distractors, distractors)
  }

  /** The aliases answers are graded against. */
  function Keys(rows: seq<AliasRow>): set<string> {
    Texts(Normalized(rows))
  }

  lemma StoredSides(lx: Lexicon, d: Draft, aliases: seq<AliasRow>, distractors: seq<string>)
    requires Imported(lx, d, aliases, distractors)
    ensures Keys(aliases) == Accepted(lx, d)
    ensures Norms(lx, distractors) <= Norms(lx, d.distractors) && Norms(lx, distractors) !! Keys(aliases)
  {
    ValidatedAccepts(lx, d);
    forall n | n in Norms(lx, distractors)
      ensures n in Norms(lx, d.distractors)
    {
      var t :| t in distractors && lx.normalize(t) == n;
      assert t in Texts(distractors);
    }
  }

  /** The answer and every alias, as written, are marked correct. */
  lemma AnswersAreCorrect(lx: Lexicon, d: Draft, aliases: seq<AliasRow>, distractors: seq<string>, typed: string)
    requires Imported(lx, d, aliases, distractors) && (typed == d.answer || typed in d.aliases)
    ensures IsCorrect(lx, typed, Keys(aliases), Norms(lx, distractors))
  {
    StoredSides(lx, d, aliases, distractors);
    assert lx.normalize(typed) in Accepted(lx, d);
    LiteralMatch(lx, typed, Keys(aliases), Norms(lx, distractors));
  }

  /** No wrong option on offer is ever marked correct, or near, when typed. */
  lemma WrongOptionsAreWrong(lx: Lexicon, d: Draft, aliases: seq<AliasRow>, distractors: seq<string>, typed: string)
    requires Imported(lx, d, aliases, distractors) && typed in distractors
    ensures !IsCorrect(lx, typed, Keys(aliases), Norms(lx, distractors))
    ensures !IsNearMiss(lx, typed, Keys(aliases), Norms(lx, distractors))
  {
    WrongOptionIsSettled(lx, typed, Keys(aliases), Norms(lx, distractors));
  }

  // ----- The options -----

  lemma {:induction false} CardOfTexts(s: seq<string>)
    requires NoRepeats(s)
    ensures |Texts(s)| == |s|
  {
    if s == [] {
    } else {
      var front := s[..|s| - 1];
      CardOfTexts(front);
      TextsGrow(s, |s| - 1);
      assert s[..|s|] == s;
      assert s[|s| - 1] !in Texts(front);
    }
  }

  lemma {:induction false} ImageIsNoLarger(lx: Lexicon, texts: seq<string>, n: nat)
    requires n <= |texts|
    ensures |Norms(lx, texts[..n])| <= |Texts(texts[..n])|
  {
    if n == 0 {
    } else {
      ImageIsNoLarger(lx, texts, n - 1);
      NormsGrow(lx, texts, n - 1);
      TextsGrow(texts, n - 1);
      if texts[n - 1] in Texts(texts[..n - 1]) {
        assert Texts(texts[..n]) == Texts(texts[..n - 1]) && Norms(lx, texts[..n]) == Norms(lx, texts[..n - 1]);
      }
    }
  }

  /** Validation counts normalized forms, storage drops the empty text: three wrong options are
      stored unless the empty text was one of exactly three. */
  lemma EnoughOptionsStored(lx: Lexicon, d: Draft, aliases: seq<AliasRow>, distractors: seq<string>)
    requires Imported(lx, d, aliases, distractors)
    ensures |distractors| >= 3 <==> !("" in d.distractors && |Texts(d.distractors)| == 3)
    ensures |distractors| >= 2
  {
    CardOfTexts(distractors);
    ImageIsNoLarger(lx, d.distractors, |d.distractors|);
    assert d.distractors[..|d.distractors|] == d.distractors;
    if "" in d.distractors {
      assert Texts(distractors) + {""} == Texts(d.distractors);
    } else {
      assert Texts(distractors) == Texts(d.distractors);
    }
  }

  /** Such a question passes validation and can never reach a board. */
  lemma AShortQuestionPasses(lx: Lexicon)
    requires lx.normalize("") == "" && lx.normalize("a") == "a" && lx.normalize("b") == "b" && lx.normalize("c") == "c"
    ensures Passes(lx, Draft(1, "q", "a", ["a"], ["", "b", "c"]))
    ensures forall rows :: DistractorsStored(["", "b", "c"], rows) ==> |rows| == 2
  {
    var d := Draft(1, "q", "a", ["a"], ["", "b", "c"]);
    var texts := ["", "b", "c"];
    assert Norms(lx, ["a"]) == {"a"};
    assert texts[0] in texts && texts[1] in texts && texts[2] in texts;
    assert Norms(lx, texts) == {"", "b", "c"};
    forall rows | DistractorsStored(texts, rows)
      ensures |rows| == 2
    {
      CardOfTexts(rows);
      assert Texts(texts) == {"", "b", "c"};
      assert Texts(rows) == {"b", "c"};
    }
  }

  /** The canonical answer and the wrong options, in whatever order they are shown. */
  ghost predicate IsReveal(canonical: string, distractors: seq<string>, shown: seq<string>) {
    multiset(shown) == multiset([canonical] + distractors)
  }

  /** A pressed option reaches the scorer with its outer blanks trimmed. */
  predicate ScoresCircle(trim: string -> string, canonical: string, option: string) {
    trim(option) == canonical
  }

  lemma DistractorsDiffer(lx: Lexicon, d: Draft, aliases: seq<AliasRow>, distractors: seq<string>, option: string)
    requires Imported(lx, d, aliases, distractors) && option in distractors
    ensures lx.normalize(option) != lx.normalize(d.answer)
  {
    StoredSides(lx, d, aliases, distractors);
    assert lx.normalize(option) in Norms(lx, distractors);
  }

  /** Exactly one option shown is the canonical answer, whatever the shuffle. */
  lemma OneOptionIsTheAnswer(lx: Lexicon, d: Draft, aliases: seq<AliasRow>, distractors: seq<string>,
                             shown: seq<string>) returns (at: nat)
    requires Imported(lx, d, aliases, distractors) && IsReveal(d.answer, distractors, shown)
    ensures |shown| == 1 + |distractors| && at < |shown|
    ensures forall i :: 0 <= i < |shown| ==> (shown[i] == d.answer <==> i == at)
    ensures forall i :: 0 <= i < |shown| && i != at ==> shown[i] in distractors
  {
    if d.answer in distractors {
      DistractorsDiffer(lx, d, aliases, distractors, d.answer);
    }
    var all := [d.answer] + distractors;
    assert d.answer in multiset(distractors) <==> d.answer in distractors;
    assert multiset(all) == multiset{d.answer} + multiset(distractors);
    assert multiset(shown)[d.answer] == 1;
    assert |multiset(shown)| == |multiset(all)|;
    assert d.answer in shown;
    at :| 0 <= at < |shown| && shown[at] == d.answer;
    forall i | 0 <= i < |shown| && i != at
      ensures shown[i] != d.answer && shown[i] in distractors
    {
      if shown[i] == d.answer {
        CountedTwice(shown, at, i);
      }
      assert shown[i] in multiset(shown);
    }
  }

  lemma CountedTwice(s: seq<string>, i: nat, j: nat)
    requires i < |s| && j < |s| && i != j && s[i] == s[j]
    ensures multiset(s)[s[i]] >= 2
  {
    var lo, hi := if i < j then i else j, if i < j then j else i;
    assert s == s[..lo] + [s[lo]] + s[lo + 1..hi] + [s[hi]] + s[hi + 1..];
  }

  /** Over HTTP exactly the canonical answer's option scores a circle, and it does so exactly
      when the canonical answer has no outer blanks: otherwise no option on the board can. */
  lemma OneOptionScores(lx: Lexicon, trim: string -> string, d: Draft, aliases: seq<AliasRow>,
                        distractors: seq<string>, shown: seq<string>) returns (at: nat)
    requires Imported(lx, d, aliases, distractors) && IsReveal(d.answer, distractors, shown)
    requires forall s :: lx.normalize(trim(s)) == lx.normalize(s)
    ensures at < |shown| && shown[at] == d.answer
    ensures forall i :: 0 <= i < |shown| ==>
              (ScoresCircle(trim, d.answer, shown[i]) <==> i == at && trim(d.answer) == d.answer)
  {
    at := OneOptionIsTheAnswer(lx, d, aliases, distractors, shown);
    forall i | 0 <= i < |shown| && i != at
      ensures !ScoresCircle(trim, d.answer, shown[i])
    {
      DistractorsDiffer(lx, d, aliases, distractors, shown[i]);
    }
  }

  // ----- A question nobody can score by pressing -----

  const BLANK_ANSWER: Draft := Draft(1, "q", " a", [" a"], ["b", "c", "d"])

  lemma BlankAnswerIsImported(lx: Lexicon)
    requires lx.normalize(" a") == "a" && lx.normalize("b") == "b" && lx.normalize("c") == "c"
             && lx.normalize("d") == "d"
    ensures Imported(lx, BLANK_ANSWER, [AliasRow(" a", "a")], ["b", "c", "d"])
  {
    var options, aliases, rows := ["b", "c", "d"], [" a"], [AliasRow(" a", "a")];
    assert options[0] in options && options[1] in options && options[2] in options && aliases[0] in aliases;
    assert Norms(lx, aliases) == {"a"} && Norms(lx, options) == {"b", "c", "d"};
    assert Normalized(rows) == ["a"] && Texts(["a"]) == {"a"};
    assert Norms(lx, aliases) - {""} == {"a"};
    assert "" !in Texts(options) by {
      assert options[0] != "" && options[1] != "" && options[2] != "";
    }
  }

  /** An imported question whose answer starts with a blank: whatever the shuffle, no option scores. */
  lemma ABlankAnswerCannotScore(trim: string -> string, shown: seq<string>)
    requires trim(" a") == "a" && trim("b") == "b" && trim("c") == "c" && trim("d") == "d"
    requires IsReveal(BLANK_ANSWER.answer, BLANK_ANSWER.distractors, shown)
    ensures forall i :: 0 <= i < |shown| ==> !ScoresCircle(trim, BLANK_ANSWER.answer, shown[i])
  {
    var all := [" a"] + ["b", "c", "d"];
    forall i | 0 <= i < |shown|
      ensures !ScoresCircle(trim, " a", shown[i])
    {
      assert shown[i] in multiset(shown);
      assert shown[i] in multiset(all) && all == [" a", "b", "c", "d"];
    }
  }
}
