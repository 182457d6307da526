/** Free-text answer grading, internal/grading/grade.go.

    Unicode is kept abstract: a `Lexicon` says how a text is normalized, which
    characters are digits and which are blanks.  Grading is a pair of loops;
    it is proved against a verdict that speaks only of the sets of aliases and
    wrong options, and never of their order. */
module Grading {
  import opened Distance

  datatype Lexicon = Lexicon(normalize: string -> string, isDigit: char -> bool, isSpace: char -> bool)

  datatype Result = Result(correct: bool, nearMiss: bool, matched: string, distance: int, readsAsWrongOption: bool)

  const MAX_TOLERANCE: nat := 6

  const REPLACEMENT: char := '\U{FFFD}'

  // ----- The gates -----

  predicate HasDigit(lx: Lexicon, s: string) {
    exists k :: 0 <= k < |s| && lx.isDigit(s[k])
  }

  function TokenLength(lx: Lexicon, s: string): (n: nat)
    ensures n <= |s|
    ensures s != [] && !lx.isSpace(s[0]) ==> n > 0
  {
    if s == [] || lx.isSpace(s[0]) then 0 else 1 + TokenLength(lx, s[1..])
  }

  /** The maximal runs of characters that are not blank. */
  function Fields(lx: Lexicon, s: string): seq<string>
    decreases |s|
  {
    if s == [] then []
    else if lx.isSpace(s[0]) then Fields(lx, s[1..])
    else var n := TokenLength(lx, s); [s[..n]] + Fields(lx, s[n..])
  }

  predicate IsRomanNumeralToken(token: string) {
    token != "" && forall k :: 0 <= k < |token| ==> token[k] in "ivxlcdm"
  }

  /** The alias has several tokens and the last is spelled in Roman digits. */
  predicate EndsInNumeral(lx: Lexicon, alias: string) {
    var tokens := Fields(lx, alias);
    |tokens| > 1 && IsRomanNumeralToken(tokens[|tokens| - 1])
  }

  function ToleranceFor(lx: Lexicon, alias: string): nat {
    if HasDigit(lx, alias) then 0
    else if EndsInNumeral(lx, alias) then 0
    else if |alias| <= 4 then 1
    else if |alias| <= 8 then 3
    else if |alias| <= 12 then 5
    else MAX_TOLERANCE
  }

  function FirstRune(s: string): char {
    if s == "" then REPLACEMENT else s[0]
  }

  predicate SameFirstRune(input: string, alias: string) {
    FirstRune(input) != REPLACEMENT && FirstRune(input) == FirstRune(alias)
  }

  function NetAdditions(input: string, alias: string): nat {
    if |input| < |alias| then 0 else |input| - |alias|
  }

  function AllowedAdditions(distance: nat): nat {
    if distance / 3 > 1 then distance / 3 else 1
  }

  predicate Acceptable(lx: Lexicon, input: string, alias: string, distance: nat) {
    || distance == 0
    || (&& distance <= ToleranceFor(lx, alias)
        && SameFirstRune(input, alias)
        && NetAdditions(input, alias) <= AllowedAdditions(distance))
  }

  // ----- The verdict, over sets -----

  /** The text reads as a spelling of the alias. */
  ghost predicate ReadsAs(lx: Lexicon, n: string, alias: string) {
    Acceptable(lx, n, alias, EditDistance(n, alias))
  }

  ghost function Slack(lx: Lexicon, n: string, alias: string): int {
    EditDistance(n, alias) - ToleranceFor(lx, alias)
  }

  /** Every wrong option that is compared at all lies strictly further off than `distance`. */
  ghost predicate CloserThanWrong(n: string, distance: int, wrong: set<string>) {
    forall d :: d in wrong && d != "" ==> distance < EditDistance(n, d)
  }

  ghost predicate IsCorrect(lx: Lexicon, input: string, aliases: set<string>, wrong: set<string>) {
    var n := lx.normalize(input);
    n != "" && exists a :: a in aliases && ReadsAs(lx, n, a) && CloserThanWrong(n, EditDistance(n, a), wrong)
  }

  ghost predicate ReadsAsAny(lx: Lexicon, n: string, wrong: set<string>) {
    exists d :: d in wrong && d != "" && ReadsAs(lx, n, d)
  }

  ghost predicate ReadsAsWrong(lx: Lexicon, input: string, wrong: set<string>) {
    lx.normalize(input) != "" && ReadsAsAny(lx, lx.normalize(input), wrong)
  }

  ghost predicate NoneReads(lx: Lexicon, n: string, aliases: set<string>) {
    forall a :: a in aliases ==> !ReadsAs(lx, n, a)
  }

  /** `a` misses its own tolerance by least, nearest first among equals. */
  ghost predicate IsClosestMiss(lx: Lexicon, n: string, aliases: set<string>, a: string) {
    && a in aliases
    && forall b :: b in aliases ==>
         Slack(lx, n, a) < Slack(lx, n, b)
         || (Slack(lx, n, a) == Slack(lx, n, b) && EditDistance(n, a) <= EditDistance(n, b))
  }

  ghost predicate IsNearMiss(lx: Lexicon, input: string, aliases: set<string>, wrong: set<string>) {
    var n := lx.normalize(input);
    && n != ""
    && NoneReads(lx, n, aliases)
    && exists a ::
         IsClosestMiss(lx, n, aliases, a) && Slack(lx, n, a) <= 1 && CloserThanWrong(n, EditDistance(n, a), wrong)
  }

  /** The alias a result may name: the nearest that reads, or else the closest miss. */
  ghost predicate IsMatch(lx: Lexicon, n: string, aliases: set<string>, a: string) {
    if NoneReads(lx, n, aliases) then IsClosestMiss(lx, n, aliases, a)
    else
      && a in aliases && ReadsAs(lx, n, a)
      && forall b :: b in aliases && ReadsAs(lx, n, b) ==> EditDistance(n, a) <= EditDistance(n, b)
  }

  ghost predicate IsVerdict(lx: Lexicon, input: string, aliases: set<string>, wrong: set<string>, r: Result) {
    var n := lx.normalize(input);
    && (r.correct <==> IsCorrect(lx, input, aliases, wrong))
    && (r.nearMiss <==> IsNearMiss(lx, input, aliases, wrong))
    && (r.readsAsWrongOption <==> ReadsAsWrong(lx, input, wrong))
    && (if n == "" || aliases == {} then r.distance == -1 && r.matched == ""
        else IsMatch(lx, n, aliases, r.matched) && r.distance == EditDistance(n, r.matched))
  }

  function Texts(s: seq<string>): set<string> {
    set t | t in s
  }

  lemma TextsGrow(s: seq<string>, i: nat)
    requires i < |s|
    ensures Texts(s[..i + 1]) == Texts(s[..i]) + {s[i]}
  {
    assert s[..i + 1] == s[..i] + [s[i]];
  }

  // ----- The algorithm -----

  /** How far off the nearest wrong option is, or -1 when there is none to compare. */
  ghost predicate IsNearest(n: string, wrong: set<string>, nearest: int) {
    && (nearest == -1 || exists d :: d in wrong && d != "" && nearest == EditDistance(n, d))
    && (forall d :: d in wrong && d != "" ==> 0 <= nearest <= EditDistance(n, d))
  }

  lemma NearestDecides(n: string, wrong: set<string>, nearest: int, distance: int)
    requires IsNearest(n, wrong, nearest)
    ensures CloserThanWrong(n, distance, wrong) <==> !(nearest >= 0 && nearest <= distance)
  {
  }

  lemma NearestOfMore(n: string, wrong: set<string>, nearest: int, d: string)
    requires IsNearest(n, wrong, nearest)
    ensures IsNearest(n, wrong + {d},
                      if d != "" && (nearest < 0 || EditDistance(n, d) < nearest) then EditDistance(n, d) else nearest)
  {
  }

  lemma ReadsAsOneMore(lx: Lexicon, n: string, wrong: set<string>, d: string)
    ensures ReadsAsAny(lx, n, wrong + {d}) <==> ReadsAsAny(lx, n, wrong) || (d != "" && ReadsAs(lx, n, d))
  {
  }

  /** The first loop: the nearest wrong option, and whether the text reads as one. */
  method ScanWrongOptions(lx: Lexicon, n: string, distractors: seq<string>)
    returns (nearest: int, settled: bool)
    ensures IsNearest(n, Texts(distractors), nearest)
    ensures settled <==> ReadsAsAny(lx, n, Texts(distractors))
  {
    nearest, settled := -1, false;
    assert IsNearest(n, Texts(distractors[..0]), -1) && !ReadsAsAny(lx, n, Texts(distractors[..0]));
    hide IsNearest, ReadsAsAny, Acceptable, Texts;
    for i := 0 to |distractors|
      invariant IsNearest(n, Texts(distractors[..i]), nearest)
      invariant settled <==> ReadsAsAny(lx, n, Texts(distractors[..i]))
    {
      var distractor := distractors[i];
      TextsGrow(distractors, i);
      NearestOfMore(n, Texts(distractors[..i]), nearest, distractor);
      ReadsAsOneMore(lx, n, Texts(distractors[..i]), distractor);
      if distractor != "" {
        var d := DamerauLevenshtein(n, distractor);
        if nearest < 0 || d < nearest {
          nearest := d;
        }
        if Acceptable(lx, n, distractor, d) {
          settled := true;
        }
      }
    }
    assert distractors[..|distractors|] == distractors;
  }

  /** The nearest alias seen so far that reads, if any does. */
  ghost predicate KeepsAccepted(lx: Lexicon, n: string, seen: set<string>, have: bool, kept: Result) {
    if have then
      && kept.matched in seen && ReadsAs(lx, n, kept.matched)
      && kept.distance == EditDistance(n, kept.matched)
      && (forall b :: b in seen && ReadsAs(lx, n, b) ==> kept.distance <= EditDistance(n, b))
    else NoneReads(lx, n, seen)
  }

  /** The closest miss seen so far, if there was a miss. */
  ghost predicate KeepsMiss(lx: Lexicon, n: string, seen: set<string>, have: bool, kept: Result, slack: int) {
    if have then
      && kept.matched in seen && !ReadsAs(lx, n, kept.matched)
      && kept.distance == EditDistance(n, kept.matched) && slack == Slack(lx, n, kept.matched)
      && (forall b :: b in seen && !ReadsAs(lx, n, b) ==>
            slack < Slack(lx, n, b) || (slack == Slack(lx, n, b) && kept.distance <= EditDistance(n, b)))
    else
      kept == NOTHING && forall b :: b in seen ==> ReadsAs(lx, n, b)
  }

  const NOTHING: Result := Result(false, false, "", -1, false)

  /** The second loop, which keeps the best of both kinds in one pass. */
  method ScanAliases(lx: Lexicon, n: string, aliases: seq<string>)
    returns (haveAccepted: bool, accepted: Result, haveBest: bool, best: Result, bestSlack: int)
    ensures KeepsAccepted(lx, n, Texts(aliases), haveAccepted, accepted)
    ensures KeepsMiss(lx, n, Texts(aliases), haveBest, best, bestSlack)
    ensures !accepted.nearMiss && !best.correct && !best.nearMiss
  {
    haveAccepted, accepted := false, NOTHING;
    haveBest, best, bestSlack := false, NOTHING, 0;
    for i := 0 to |aliases|
      invariant KeepsAccepted(lx, n, Texts(aliases[..i]), haveAccepted, accepted)
      invariant KeepsMiss(lx, n, Texts(aliases[..i]), haveBest, best, bestSlack)
      invariant !accepted.nearMiss && !best.correct && !best.nearMiss
    {
      var alias := aliases[i];
      TextsGrow(aliases, i);
      ghost var seen := Texts(aliases[..i]);
      var distance := DamerauLevenshtein(n, alias);
      if Acceptable(lx, n, alias, distance) {
        if !haveAccepted || distance < accepted.distance {
          haveAccepted, accepted := true, Result(false, false, alias, distance, false);
        }
        assert KeepsAccepted(lx, n, seen + {alias}, haveAccepted, accepted);
        assert KeepsMiss(lx, n, seen + {alias}, haveBest, best, bestSlack);
      } else {
        var slack := distance - ToleranceFor(lx, alias);
        if !haveBest || slack < bestSlack || (slack == bestSlack && distance < best.distance) {
          haveBest, best, bestSlack := true, Result(false, false, alias, distance, false), slack;
        }
        assert KeepsAccepted(lx, n, seen + {alias}, haveAccepted, accepted);
        assert KeepsMiss(lx, n, seen + {alias}, haveBest, best, bestSlack);
      }
    }
    assert aliases[..|aliases|] == aliases;
  }

  method Grade(lx: Lexicon, input: string, aliases: seq<string>, distractors: seq<string>) returns (r: Result)
    ensures IsVerdict(lx, input, Texts(aliases), Texts(distractors), r)
  {
    var n := lx.normalize(input);
    if n == "" {
      return NOTHING;
    }
    var nearest, settled := ScanWrongOptions(lx, n, distractors);
    var haveAccepted, accepted, haveBest, best, bestSlack := ScanAliases(lx, n, aliases);
    if haveAccepted {
      NearestDecides(n, Texts(distractors), nearest, accepted.distance);
      AcceptedDecides(lx, input, Texts(aliases), Texts(distractors), accepted.matched);
      return accepted.(correct := !(nearest >= 0 && nearest <= accepted.distance), readsAsWrongOption := settled);
    }
    r := best.(readsAsWrongOption := settled);
    if haveBest {
      NearestDecides(n, Texts(distractors), nearest, best.distance);
      MissDecides(lx, input, Texts(aliases), Texts(distractors), best.matched);
      if bestSlack <= 1 && !(nearest >= 0 && nearest <= best.distance) {
        r := r.(nearMiss := true);
      }
    } else {
      assert forall b :: b in Texts(aliases) ==> !ReadsAs(lx, n, b) && ReadsAs(lx, n, b);
      assert Texts(aliases) == {};
    }
  }

  /** The nearest alias that reads settles correctness on its own. */
  lemma AcceptedDecides(lx: Lexicon, input: string, aliases: set<string>, wrong: set<string>, a: string)
    requires lx.normalize(input) != "" && !NoneReads(lx, lx.normalize(input), aliases)
    requires IsMatch(lx, lx.normalize(input), aliases, a)
    ensures IsCorrect(lx, input, aliases, wrong) <==>
              CloserThanWrong(lx.normalize(input), EditDistance(lx.normalize(input), a), wrong)
    ensures !IsNearMiss(lx, input, aliases, wrong)
  {
  }

  /** When no alias reads, the closest miss settles whether it was near. */
  lemma MissDecides(lx: Lexicon, input: string, aliases: set<string>, wrong: set<string>, a: string)
    requires lx.normalize(input) != "" && NoneReads(lx, lx.normalize(input), aliases)
    requires IsMatch(lx, lx.normalize(input), aliases, a)
    ensures !IsCorrect(lx, input, aliases, wrong)
    ensures var n := lx.normalize(input);
            IsNearMiss(lx, input, aliases, wrong) <==>
              Slack(lx, n, a) <= 1 && CloserThanWrong(n, EditDistance(n, a), wrong)
  {
  }

  // ----- What grading promises -----

  /** Order and repetition of aliases and wrong options never matter: the same sets have one verdict. */
  lemma VerdictIsUnique(lx: Lexicon, input: string, aliases: seq<string>, distractors: seq<string>,
                        aliases': seq<string>, distractors': seq<string>)
    requires Texts(aliases) == Texts(aliases') && Texts(distractors) == Texts(distractors')
    ensures forall r, r' ::
              && IsVerdict(lx, input, Texts(aliases), Texts(distractors), r)
              && IsVerdict(lx, input, Texts(aliases'), Texts(distractors'), r') ==>
              && r.correct == r'.correct && r.nearMiss == r'.nearMiss
              && r.distance == r'.distance && r.readsAsWrongOption == r'.readsAsWrongOption
  {
    hide Texts, IsCorrect, IsNearMiss, ReadsAsWrong, ReadsAs;
  }

  lemma CorrectGrowsWithAliases(lx: Lexicon, input: string, aliases: set<string>, more: set<string>, wrong: set<string>)
    requires aliases <= more && IsCorrect(lx, input, aliases, wrong)
    ensures IsCorrect(lx, input, more, wrong)
  {
  }

  lemma CorrectShrinksWithWrongOptions(lx: Lexicon, input: string, aliases: set<string>, wrong: set<string>,
                                       more: set<string>)
    requires wrong <= more && IsCorrect(lx, input, aliases, more)
    ensures IsCorrect(lx, input, aliases, wrong)
  {
  }

  /** A literal match is correct exactly when it is not also a wrong option. */
  lemma LiteralMatch(lx: Lexicon, input: string, aliases: set<string>, wrong: set<string>)
    requires lx.normalize(input) != "" && lx.normalize(input) in aliases
    ensures IsCorrect(lx, input, aliases, wrong) <==> lx.normalize(input) !in wrong
  {
    var n := lx.normalize(input);
    ZeroIffEqual(n, n);
    forall d
      ensures EditDistance(n, d) == 0 <==> n == d
    {
      ZeroIffEqual(n, d);
    }
    if n !in wrong {
      assert ReadsAs(lx, n, n) && CloserThanWrong(n, EditDistance(n, n), wrong);
    }
  }

  /** Typing a wrong option is settled: never right, never near, never worth a second opinion. */
  lemma WrongOptionIsSettled(lx: Lexicon, input: string, aliases: set<string>, wrong: set<string>)
    requires lx.normalize(input) in wrong
    ensures !IsCorrect(lx, input, aliases, wrong)
    ensures !IsNearMiss(lx, input, aliases, wrong)
    ensures lx.normalize(input) != "" ==> ReadsAsWrong(lx, input, wrong)
  {
    var n := lx.normalize(input);
    ZeroIffEqual(n, n);
    if n != "" {
      assert ReadsAs(lx, n, n);
      assert forall dist: nat :: !CloserThanWrong(n, dist, wrong);
    }
  }

  /** Promoting a near miss to an alias makes it an accepted answer. */
  lemma NearMissCanBePromoted(lx: Lexicon, input: string, aliases: set<string>, wrong: set<string>)
    requires IsNearMiss(lx, input, aliases, wrong)
    ensures IsCorrect(lx, input, aliases + {lx.normalize(input)}, wrong)
    ensures !IsCorrect(lx, input, aliases, wrong)
  {
    var n := lx.normalize(input);
    if n in wrong {
      WrongOptionIsSettled(lx, input, aliases, wrong);
    }
    LiteralMatch(lx, input, aliases + {n}, wrong);
  }

  /** A number is never forgiven: such an alias accepts only its own spelling. */
  lemma NumbersAreLiteral(lx: Lexicon, n: string, alias: string)
    requires HasDigit(lx, alias) || EndsInNumeral(lx, alias)
    ensures ReadsAs(lx, n, alias) <==> n == alias
  {
    ZeroIffEqual(n, alias);
  }

  /** An alias accepts its own spelling only, if and only if it is a number, ends in one or has
      no first letter to match: any other forgives at least one more letter at its end. */
  lemma ForgivesUnlessNumber(lx: Lexicon, alias: string)
    ensures (forall n :: ReadsAs(lx, n, alias) ==> n == alias)
            <==> alias == "" || alias[0] == REPLACEMENT || HasDigit(lx, alias) || EndsInNumeral(lx, alias)
  {
    forall n
      ensures EditDistance(n, alias) == 0 <==> n == alias
    {
      ZeroIffEqual(n, alias);
    }
    if alias != "" && alias[0] != REPLACEMENT && !HasDigit(lx, alias) && !EndsInNumeral(lx, alias) {
      var n := alias + ['a'];
      OneMoreLetter(alias, 'a');
      assert ReadsAs(lx, n, alias) && n != alias;
    }
  }

  lemma OneMoreLetter(alias: string, c: char)
    ensures EditDistance(alias + [c], alias) <= 1
  {
    ZeroIffEqual(alias, alias);
    var s := LeastScript(alias, alias);
    assert Rewrites(Then(s, Insert(c)), alias, alias + [c]);
    EditDistanceIsLeast(alias, alias + [c]);
    Symmetric(alias, alias + [c]);
  }

  // ----- When answers are the same answer -----

  /** Typing either answer is correct where the other is the canonical one. */
  ghost predicate MarkedAlike(lx: Lexicon, answer: string, wrong: set<string>, other: string, wrong': set<string>) {
    IsCorrect(lx, other, {lx.normalize(answer)}, wrong) && IsCorrect(lx, answer, {lx.normalize(other)}, wrong')
  }

  /** Answers with one key are marked alike, unless that key is a wrong option of one of them. */
  lemma SameKeyIsMarkedAlike(lx: Lexicon, answer: string, wrong: set<string>, other: string, wrong': set<string>)
    requires lx.normalize(answer) == lx.normalize(other) != ""
    ensures MarkedAlike(lx, answer, wrong, other, wrong') <==> lx.normalize(answer) !in wrong + wrong'
  {
    LiteralMatch(lx, other, {lx.normalize(answer)}, wrong);
    LiteralMatch(lx, answer, {lx.normalize(other)}, wrong');
  }

  /** The key forgives no misspelling: it is a number, ends in one or has no first letter to match. */
  predicate IsLiteral(lx: Lexicon, key: string) {
    key == "" || key[0] == REPLACEMENT || HasDigit(lx, key) || EndsInNumeral(lx, key)
  }

  /** Only answers with its key are ever marked alike with this one. */
  ghost predicate KeyDecides(lx: Lexicon, answer: string) {
    forall other, wrong, wrong' :: MarkedAlike(lx, answer, wrong, other, wrong') ==>
      lx.normalize(other) == lx.normalize(answer)
  }

  lemma LiteralKeysDecide(lx: Lexicon, answer: string)
    requires IsLiteral(lx, lx.normalize(answer))
    ensures KeyDecides(lx, answer)
  {
    var key := lx.normalize(answer);
    forall other, wrong, wrong' | MarkedAlike(lx, answer, wrong, other, wrong')
      ensures lx.normalize(other) == key
    {
      assert ReadsAs(lx, lx.normalize(other), key);
      ZeroIffEqual(lx.normalize(other), key);
    }
  }

  /** An answer whose key is one letter longer is marked alike, if neither forbids misspellings. */
  lemma LongerIsMarkedAlike(lx: Lexicon, answer: string, longer: string, c: char)
    requires lx.normalize(longer) == lx.normalize(answer) + [c]
    requires !IsLiteral(lx, lx.normalize(answer)) && !IsLiteral(lx, lx.normalize(longer))
    ensures MarkedAlike(lx, answer, {}, longer, {}) && lx.normalize(longer) != lx.normalize(answer)
  {
    var key, key' := lx.normalize(answer), lx.normalize(longer);
    OneMoreLetter(key, c);
    Symmetric(key, key');
    assert ReadsAs(lx, key', key) && ReadsAs(lx, key, key');
  }

  /** An answer's key decides what is marked alike if and only if the key forgives no misspelling,
      as soon as some answer's key is one ordinary letter longer. */
  lemma KeyDecidesIffLiteral(lx: Lexicon, answer: string, longer: string, c: char)
    requires lx.normalize(longer) == lx.normalize(answer) + [c]
    requires !lx.isDigit(c) && !lx.isSpace(c) && !IsRomanNumeralToken([c])
    ensures KeyDecides(lx, answer) <==> IsLiteral(lx, lx.normalize(answer))
  {
    var key := lx.normalize(answer);
    if IsLiteral(lx, key) {
      LiteralKeysDecide(lx, answer);
    } else {
      OrdinaryEnding(lx, key, c);
      assert (key + [c])[0] == key[0];
      assert forall k :: 0 <= k < |key| + 1 ==> (key + [c])[k] == if k < |key| then key[k] else c;
      LongerIsMarkedAlike(lx, answer, longer, c);
    }
  }

  /** A text that ends in an ordinary letter does not end in a numeral. */
  lemma {:induction false} LastField(lx: Lexicon, s: string, c: char)
    requires !lx.isSpace(c)
    ensures Fields(lx, s + [c]) != []
    ensures var last := Fields(lx, s + [c])[|Fields(lx, s + [c])| - 1]; last != [] && last[|last| - 1] == c
    decreases |s|
  {
    var all := s + [c];
    if s == [] {
      assert all[1..] == [] && TokenLength(lx, all) == 1;
      assert Fields(lx, all[1..]) == [];
    } else if lx.isSpace(s[0]) {
      assert all[1..] == s[1..] + [c];
      LastField(lx, s[1..], c);
    } else {
      var n := TokenLength(lx, all);
      if n == |all| {
        assert all[n..] == [] && Fields(lx, all[n..]) == [];
      } else {
        assert all[n..] == s[n..] + [c];
        LastField(lx, s[n..], c);
      }
    }
  }

  lemma OrdinaryEnding(lx: Lexicon, s: string, c: char)
    requires !lx.isSpace(c) && !IsRomanNumeralToken([c])
    ensures !EndsInNumeral(lx, s + [c])
  {
    LastField(lx, s, c);
    var tokens := Fields(lx, s + [c]);
    var last := tokens[|tokens| - 1];
    assert last[|last| - 1] == c && [c][0] == c;
  }

  /** Two answers with different keys that are marked alike. */
  lemma MangosAreMangoes(lx: Lexicon)
    requires lx.normalize("mango") == "mango" && lx.normalize("mangos") == "mangos"
    requires forall c :: c in "mangos" ==> !lx.isDigit(c) && !lx.isSpace(c)
    ensures MarkedAlike(lx, "mango", {}, "mangos", {}) && lx.normalize("mango") != lx.normalize("mangos")
    ensures !KeyDecides(lx, "mango")
  {
    assert "mangos" == "mango" + ['s'] && "mango" == "mang" + ['o'];
    OrdinaryEnding(lx, "mang", 'o');
    OrdinaryEnding(lx, "mango", 's');
    assert forall k :: 0 <= k < 6 ==> "mangos"[k] in "mangos";
    assert forall k :: 0 <= k < 5 ==> "mango"[k] == "mangos"[k];
    LongerIsMarkedAlike(lx, "mango", "mangos", 's');
  }

  /** However it was typed, an accepted text was made from the alias by edits of
      which at least `NetAdditions` insert a character, and at most two are net. */
  lemma AcceptedAddsLittle(lx: Lexicon, n: string, alias: string, s: Script)
    requires ReadsAs(lx, n, alias)
    requires Rewrites(s, alias, n)
    ensures EditDistance(n, alias) <= MAX_TOLERANCE && EditDistance(n, alias) <= Cost(s)
    ensures NetAdditions(n, alias) <= Insertions(s)
    ensures NetAdditions(n, alias) <= AllowedAdditions(EditDistance(n, alias)) <= 2
    ensures n != alias ==> n != "" && alias != "" && n[0] == alias[0]
  {
    InsertionsCoverGrowth(s);
    EditDistanceIsLeast(alias, n);
    Symmetric(alias, n);
    ZeroIffEqual(n, alias);
  }

  // ----- What the tolerance buys -----

  /** An alias forgives within four budgets by its length, keeps its first letter, and takes one
      letter more than it has, or a third of the edits when that is more. */
  lemma ReadsAsMeans(lx: Lexicon, n: string, alias: string)
    ensures ReadsAs(lx, n, alias) <==>
              || n == alias
              || (&& !IsLiteral(lx, alias) && n != "" && n[0] == alias[0]
                  && (|n| <= |alias| + 1 || 3 * (|n| - |alias|) <= EditDistance(n, alias))
                  && (exists s: Script :: Rewrites(s, alias, n) && Cost(s) <= Budget(|alias|)))
  {
    ZeroIffEqual(n, alias);
    Symmetric(n, alias);
    EditDistanceIsLeast(alias, n);
    if ReadsAs(lx, n, alias) && n != alias {
      var s := LeastScript(alias, n);
      assert Rewrites(s, alias, n) && Cost(s) <= Budget(|alias|);
    }
  }

  /** One edit up to four letters, three up to eight, five up to twelve, six beyond. */
  function Budget(length: nat): nat {
    if length > 12 then 6 else if length > 8 then 5 else if length > 4 then 3 else 1
  }

  lemma {:induction false} MoreLetters(s: string, tail: string)
    ensures EditDistance(s, s + tail) == |tail|
  {
    Bounds(s, s + tail);
    if tail == "" {
      assert s + tail == s;
      ZeroIffEqual(s, s);
    } else {
      var front, c := tail[..|tail| - 1], tail[|tail| - 1];
      MoreLetters(s, front);
      var script := LeastScript(s, s + front);
      assert s + tail == s + front + [c];
      assert Rewrites(Then(script, Insert(c)), s, s + tail);
      EditDistanceIsLeast(s, s + tail);
    }
  }

  /** Leaving out letters at the end is forgiven exactly up to the budget, and one more is a near miss. */
  lemma EndingsLeftOut(lx: Lexicon, input: string, alias: string, t: nat)
    requires !IsLiteral(lx, alias) && 1 <= t < |alias| && lx.normalize(input) == alias[..|alias| - t]
    ensures IsCorrect(lx, input, {alias}, {}) <==> t <= Budget(|alias|)
    ensures IsNearMiss(lx, input, {alias}, {}) <==> t == Budget(|alias|) + 1
  {
    var n := alias[..|alias| - t];
    MoreLetters(n, alias[|alias| - t..]);
    assert n + alias[|alias| - t..] == alias;
    assert IsClosestMiss(lx, n, {alias}, alias);
    assert ReadsAs(lx, n, alias) <==> t <= Budget(|alias|);
  }

  /** Of letters added at the end one is forgiven and no more. */
  lemma EndingsAdded(lx: Lexicon, input: string, alias: string, tail: string)
    requires !IsLiteral(lx, alias) && tail != "" && lx.normalize(input) == alias + tail
    ensures IsCorrect(lx, input, {alias}, {}) <==> |tail| == 1
  {
    MoreLetters(alias, tail);
    Symmetric(alias, alias + tail);
    assert ReadsAs(lx, alias + tail, alias) <==> |tail| == 1;
  }
}
