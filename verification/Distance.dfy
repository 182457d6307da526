/** The edit distance of internal/grading/distance.go.

    An edit script is a list of edits, each of which consumes a piece of one
    text and produces a piece of another.  Because every character belongs to
    exactly one edit, these are the scripts of optimal string alignment: a
    swapped pair is never edited again.  The dynamic program is proved to
    return the least cost of any script between the two texts. */
module Distance {

  datatype Edit =
    | Keep(c: char)
    | Substitute(was: char, now: char)
    | Insert(added: char)
    | Delete(dropped: char)
    | Transpose(first: char, second: char)

  datatype Script = Empty | Then(front: Script, last: Edit)

  function Consumed(e: Edit): string {
    match e
    case Keep(c) => [c]
    case Substitute(c, _) => [c]
    case Insert(_) => []
    case Delete(c) => [c]
    case Transpose(c, d) => [c, d]
  }

  function Produced(e: Edit): string {
    match e
    case Keep(c) => [c]
    case Substitute(_, d) => [d]
    case Insert(c) => [c]
    case Delete(_) => []
    case Transpose(c, d) => [d, c]
  }

  function EditCost(e: Edit): nat {
    if e.Keep? then 0 else 1
  }

  /** The text a script starts from. */
  function Source(s: Script): string {
    if s.Empty? then [] else Source(s.front) + Consumed(s.last)
  }

  /** The text a script ends with. */
  function Target(s: Script): string {
    if s.Empty? then [] else Target(s.front) + Produced(s.last)
  }

  function Cost(s: Script): nat {
    if s.Empty? then 0 else Cost(s.front) + EditCost(s.last)
  }

  /** How many characters a script adds. */
  function Insertions(s: Script): nat {
    if s.Empty? then 0 else Insertions(s.front) + (if s.last.Insert? then 1 else 0)
  }

  ghost predicate Rewrites(s: Script, a: string, b: string) {
    Source(s) == a && Target(s) == b
  }

  /** What the distance means: the least cost of any script from `a` to `b`. */
  ghost predicate IsLeastCost(d: nat, a: string, b: string) {
    && (exists s: Script :: Rewrites(s, a, b) && Cost(s) == d)
    && (forall s: Script :: Rewrites(s, a, b) ==> d <= Cost(s))
  }

  // ----- The recurrence the table is filled by -----

  function Min(x: nat, y: nat): nat {
    if x <= y then x else y
  }

  /** One entry from the entries to its left, above it, diagonally above it and,
      where the texts end in a swapped pair, two rows and columns back. */
  function Entry(left: nat, above: nat, diagonal: nat, cost: nat, swapped: bool, corner: nat): nat {
    var plain := Min(Min(left + 1, above + 1), diagonal + cost);
    if swapped && corner + 1 < plain then corner + 1 else plain
  }

  function Mismatch(a: string, b: string, i: nat, j: nat): nat
    requires 0 < i <= |a| && 0 < j <= |b|
  {
    if a[i - 1] == b[j - 1] then 0 else 1
  }

  predicate EndsSwapped(a: string, b: string, i: nat, j: nat)
    requires i <= |a| && j <= |b|
  {
    i > 1 && j > 1 && a[i - 1] == b[j - 2] && a[i - 2] == b[j - 1]
  }

  /** The distance between the first `i` characters of `a` and the first `j` of `b`. */
  function Prefixes(a: string, b: string, i: nat, j: nat): nat
    requires i <= |a| && j <= |b|
  {
    if i == 0 then j
    else if j == 0 then i
    else
      Entry(Prefixes(a, b, i, j - 1), Prefixes(a, b, i - 1, j), Prefixes(a, b, i - 1, j - 1),
            Mismatch(a, b, i, j), EndsSwapped(a, b, i, j),
            if EndsSwapped(a, b, i, j) then Prefixes(a, b, i - 2, j - 2) else 0)
  }

  function Osa(a: string, b: string): nat {
    Prefixes(a, b, |a|, |b|)
  }

  // ----- The recurrence is the cost of the cheapest script -----

  /** An edit fits when it consumes the last characters of one prefix and produces those of the other. */
  ghost predicate Fits(e: Edit, a: string, b: string, i: nat, j: nat)
    requires i <= |a| && j <= |b|
  {
    match e
    case Keep(c) => i > 0 && j > 0 && a[i - 1] == c == b[j - 1]
    case Substitute(c, d) => i > 0 && j > 0 && a[i - 1] == c && b[j - 1] == d
    case Insert(c) => j > 0 && b[j - 1] == c
    case Delete(c) => i > 0 && a[i - 1] == c
    case Transpose(c, d) => EndsSwapped(a, b, i, j) && a[i - 2] == c && a[i - 1] == d
  }

  lemma FitsMeans(e: Edit, a: string, b: string, i: nat, j: nat)
    requires i <= |a| && j <= |b| && Fits(e, a, b, i, j)
    ensures |Consumed(e)| <= i && |Produced(e)| <= j && |Consumed(e)| + |Produced(e)| > 0
    ensures a[..i] == a[..i - |Consumed(e)|] + Consumed(e)
    ensures b[..j] == b[..j - |Produced(e)|] + Produced(e)
  {
  }

  /** Every edit that fits bounds the entry. */
  lemma EntryAtMost(e: Edit, a: string, b: string, i: nat, j: nat)
    requires i <= |a| && j <= |b| && Fits(e, a, b, i, j)
    ensures |Consumed(e)| <= i && |Produced(e)| <= j
    ensures Prefixes(a, b, i, j) <= Prefixes(a, b, i - |Consumed(e)|, j - |Produced(e)|) + EditCost(e)
  {
  }

  /** An entry is the least of its neighbours, so one of them attains it. */
  lemma EntryIsSome(left: nat, above: nat, diagonal: nat, cost: nat, swapped: bool, corner: nat)
    ensures var entry := Entry(left, above, diagonal, cost, swapped, corner);
            entry == left + 1 || entry == above + 1 || entry == diagonal + cost || (swapped && entry == corner + 1)
  {
  }

  ghost predicate Attains(e: Edit, a: string, b: string, i: nat, j: nat, entry: nat)
    requires i <= |a| && j <= |b|
  {
    && Fits(e, a, b, i, j)
    && |Consumed(e)| <= i && |Produced(e)| <= j
    && entry == Prefixes(a, b, i - |Consumed(e)|, j - |Produced(e)|) + EditCost(e)
  }

  /** Some edit that fits attains the entry. */
  lemma EntryAttained(a: string, b: string, i: nat, j: nat) returns (e: Edit)
    requires i <= |a| && j <= |b| && i + j > 0
    ensures Attains(e, a, b, i, j, Prefixes(a, b, i, j))
  {
    hide Entry;
    var entry := Prefixes(a, b, i, j);
    if i == 0 || (j > 0 && entry == Prefixes(a, b, i, j - 1) + 1) {
      e := Insert(b[j - 1]);
      assert Attains(e, a, b, i, j, entry);
    } else if j == 0 || entry == Prefixes(a, b, i - 1, j) + 1 {
      e := Delete(a[i - 1]);
      assert Attains(e, a, b, i, j, entry);
    } else if entry == Prefixes(a, b, i - 1, j - 1) + Mismatch(a, b, i, j) {
      e := if a[i - 1] == b[j - 1] then Keep(a[i - 1]) else Substitute(a[i - 1], b[j - 1]);
      assert Attains(e, a, b, i, j, entry);
    } else {
      EntryIsSome(Prefixes(a, b, i, j - 1), Prefixes(a, b, i - 1, j), Prefixes(a, b, i - 1, j - 1),
                  Mismatch(a, b, i, j), EndsSwapped(a, b, i, j),
                  if EndsSwapped(a, b, i, j) then Prefixes(a, b, i - 2, j - 2) else 0);
      e := Transpose(a[i - 2], a[i - 1]);
      assert Attains(e, a, b, i, j, entry);
    }
  }

  lemma {:induction false} CheapestScript(a: string, b: string, i: nat, j: nat) returns (s: Script)
    requires i <= |a| && j <= |b|
    ensures Rewrites(s, a[..i], b[..j])
    ensures Cost(s) == Prefixes(a, b, i, j)
    decreases i + j
  {
    if i + j == 0 {
      s := Empty;
    } else {
      var e := EntryAttained(a, b, i, j);
      FitsMeans(e, a, b, i, j);
      var t := CheapestScript(a, b, i - |Consumed(e)|, j - |Produced(e)|);
      s := Then(t, e);
    }
  }

  lemma LastPiece(a: string, i: nat, front: string, piece: string)
    requires i <= |a| && a[..i] == front + piece
    ensures i == |front| + |piece| && a[..|front|] == front
    ensures forall k :: |front| <= k < i ==> a[k] == piece[k - |front|]
  {
    assert a[..|front|] == a[..i][..|front|];
    assert forall k :: 0 <= k < i ==> a[k] == a[..i][k];
  }

  lemma LastEditFits(e: Edit, front: string, made: string, a: string, b: string, i: nat, j: nat)
    requires i <= |a| && j <= |b|
    requires a[..i] == front + Consumed(e) && b[..j] == made + Produced(e)
    ensures Fits(e, a, b, i, j)
    ensures a[..|front|] == front && b[..|made|] == made
  {
    LastPiece(a, i, front, Consumed(e));
    LastPiece(b, j, made, Produced(e));
  }

  lemma {:induction false} NoneCheaper(s: Script, a: string, b: string, i: nat, j: nat)
    requires i <= |a| && j <= |b|
    requires Rewrites(s, a[..i], b[..j])
    ensures Prefixes(a, b, i, j) <= Cost(s)
  {
    if s.Empty? {
    } else {
      var e, front, made := s.last, Source(s.front), Target(s.front);
      LastEditFits(e, front, made, a, b, i, j);
      NoneCheaper(s.front, a, b, |front|, |made|);
      EntryAtMost(e, a, b, i, j);
    }
  }

  lemma OsaIsLeastCost(a: string, b: string)
    ensures IsLeastCost(Osa(a, b), a, b)
  {
    assert a[..|a|] == a && b[..|b|] == b;
    var s := CheapestScript(a, b, |a|, |b|);
    forall t: Script | Rewrites(t, a, b)
      ensures Osa(a, b) <= Cost(t)
    {
      NoneCheaper(t, a, b, |a|, |b|);
    }
  }

  /** The distance, defined by what it means rather than by how it is computed. */
  ghost function EditDistance(a: string, b: string): nat {
    OsaIsLeastCost(a, b);
    var d: nat :| IsLeastCost(d, a, b);
    d
  }

  lemma EditDistanceIsLeast(a: string, b: string)
    ensures IsLeastCost(EditDistance(a, b), a, b)
    ensures EditDistance(a, b) == Osa(a, b)
  {
    OsaIsLeastCost(a, b);
    var d := EditDistance(a, b);
    assert IsLeastCost(d, a, b);
  }

  // ----- The algorithm -----

  /** `row[j]` is the entry of the table in row `i` and column `j`. */
  ghost predicate IsRow(row: seq<nat>, a: string, b: string, i: nat)
    requires i <= |a|
  {
    |row| == |b| + 1 && forall j :: 0 <= j <= |b| ==> row[j] == Prefixes(a, b, i, j)
  }

  /** Three rows of the table, rotated in place. */
  method DamerauLevenshtein(a: string, b: string) returns (d: nat)
    ensures d == EditDistance(a, b)
  {
    EditDistanceIsLeast(a, b);
    var la, lb := |a|, |b|;
    if la == 0 {
      return lb;
    }
    if lb == 0 {
      return la;
    }
    var twoBack := new nat[lb + 1](_ => 0);
    var prev := new nat[lb + 1](_ => 0);
    var curr := new nat[lb + 1](_ => 0);
    for j := 0 to lb + 1
      invariant forall k :: 0 <= k < j ==> prev[k] == k
    {
      prev[j] := j;
    }
    for i := 1 to la + 1
      invariant twoBack.Length == prev.Length == curr.Length == lb + 1
      invariant twoBack != prev && prev != curr && twoBack != curr
      invariant fresh(twoBack) && fresh(prev) && fresh(curr)
      invariant IsRow(prev[..], a, b, i - 1)
      invariant i > 1 ==> IsRow(twoBack[..], a, b, i - 2)
    {
      FillRow(a, b, i, twoBack, prev, curr);
      twoBack, prev, curr := prev, curr, twoBack;
    }
    assert prev[lb] == prev[..][lb];
    d := prev[lb];
  }

  /** The inner loop: row `i` from the two rows above it, written over the row three above. */
  method FillRow(a: string, b: string, i: nat, twoBack: array<nat>, prev: array<nat>, curr: array<nat>)
    requires 1 <= i <= |a|
    requires curr != prev && curr != twoBack && curr.Length == |b| + 1
    requires IsRow(prev[..], a, b, i - 1)
    requires i > 1 ==> IsRow(twoBack[..], a, b, i - 2)
    modifies curr
    ensures IsRow(curr[..], a, b, i)
  {
    ghost var above, corner := prev[..], twoBack[..];
    curr[0] := i;
    for j := 1 to |b| + 1
      invariant FilledTo(curr[..], a, b, i, j)
      invariant prev[..] == above && twoBack[..] == corner
    {
      ghost var filled := curr[..];
      var cost := if a[i - 1] == b[j - 1] then 0 else 1;
      var entry := Min(Min(curr[j - 1] + 1, prev[j] + 1), prev[j - 1] + cost);
      curr[j] := entry;
      if i > 1 && j > 1 && a[i - 1] == b[j - 2] && a[i - 2] == b[j - 1] {
        var transposed := twoBack[j - 2] + 1;
        if transposed < curr[j] {
          curr[j] := transposed;
        }
      }
      assert curr[j] == Entry(filled[j - 1], above[j], above[j - 1], cost, EndsSwapped(a, b, i, j),
                              if EndsSwapped(a, b, i, j) then corner[j - 2] else 0);
      assert curr[..] == filled[j := curr[j]];
      EntryFills(filled, above, corner, a, b, i, j, curr[j]);
    }
  }

  ghost predicate FilledTo(row: seq<nat>, a: string, b: string, i: nat, j: nat)
    requires i <= |a|
  {
    |row| == |b| + 1 && j <= |b| + 1 && forall k :: 0 <= k < j ==> row[k] == Prefixes(a, b, i, k)
  }

  lemma EntryFills(filled: seq<nat>, above: seq<nat>, corner: seq<nat>, a: string, b: string, i: nat, j: nat,
                   entry: nat)
    requires 1 <= i <= |a| && 1 <= j <= |b|
    requires FilledTo(filled, a, b, i, j)
    requires IsRow(above, a, b, i - 1)
    requires i > 1 ==> IsRow(corner, a, b, i - 2)
    requires entry == Entry(filled[j - 1], above[j], above[j - 1], Mismatch(a, b, i, j), EndsSwapped(a, b, i, j),
                            if EndsSwapped(a, b, i, j) then corner[j - 2] else 0)
    ensures FilledTo(filled[j := entry], a, b, i, j + 1)
  {
    assert entry == Prefixes(a, b, i, j);
  }

  // ----- What the distance promises -----

  function Inverse(e: Edit): Edit {
    match e
    case Keep(c) => Keep(c)
    case Substitute(c, d) => Substitute(d, c)
    case Insert(c) => Delete(c)
    case Delete(c) => Insert(c)
    case Transpose(c, d) => Transpose(d, c)
  }

  function Undo(s: Script): Script {
    if s.Empty? then Empty else Then(Undo(s.front), Inverse(s.last))
  }

  lemma {:induction false} UndoSwaps(s: Script)
    ensures Rewrites(Undo(s), Target(s), Source(s)) && Cost(Undo(s)) == Cost(s)
  {
    if s.Empty? {
    } else {
      UndoSwaps(s.front);
    }
  }

  lemma LeastScript(a: string, b: string) returns (s: Script)
    ensures Rewrites(s, a, b) && Cost(s) == EditDistance(a, b)
  {
    EditDistanceIsLeast(a, b);
    s :| Rewrites(s, a, b) && Cost(s) == EditDistance(a, b);
  }

  lemma AtMostReversed(a: string, b: string)
    ensures EditDistance(a, b) <= EditDistance(b, a)
  {
    var s := LeastScript(b, a);
    UndoSwaps(s);
    EditDistanceIsLeast(a, b);
  }

  lemma Symmetric(a: string, b: string)
    ensures EditDistance(a, b) == EditDistance(b, a)
  {
    AtMostReversed(a, b);
    AtMostReversed(b, a);
  }

  lemma {:induction false} FreeScriptKeeps(s: Script)
    requires Cost(s) == 0
    ensures Source(s) == Target(s)
  {
    if s.Empty? {
    } else {
      FreeScriptKeeps(s.front);
    }
  }

  lemma {:induction false} DiagonalZero(a: string, i: nat)
    requires i <= |a|
    ensures Prefixes(a, a, i, i) == 0
  {
    if i > 0 {
      DiagonalZero(a, i - 1);
    }
  }

  lemma ZeroIffEqual(a: string, b: string)
    ensures EditDistance(a, b) == 0 <==> a == b
  {
    if EditDistance(a, b) == 0 {
      var s := LeastScript(a, b);
      FreeScriptKeeps(s);
    }
    EditDistanceIsLeast(a, b);
    DiagonalZero(a, |a|);
  }

  /** A script grows its text only by inserting, and pays for every insertion. */
  lemma {:induction false} InsertionsCoverGrowth(s: Script)
    ensures |Target(s)| <= |Source(s)| + Insertions(s)
    ensures Insertions(s) <= Cost(s)
  {
    if s.Empty? {
    } else {
      InsertionsCoverGrowth(s.front);
    }
  }

  function Longer(m: nat, n: nat): nat {
    if m >= n then m else n
  }

  lemma {:induction false} AtMostLonger(a: string, b: string, i: nat, j: nat)
    requires i <= |a| && j <= |b|
    ensures Prefixes(a, b, i, j) <= Longer(i, j)
  {
    if i > 0 && j > 0 {
      AtMostLonger(a, b, i - 1, j - 1);
    }
  }

  lemma Bounds(a: string, b: string)
    ensures |a| - |b| <= EditDistance(a, b)
    ensures |b| - |a| <= EditDistance(a, b)
    ensures EditDistance(a, b) <= Longer(|a|, |b|)
  {
    AtMostLonger(a, b, |a|, |b|);
    EditDistanceIsLeast(a, b);
    var s := LeastScript(a, b);
    InsertionsCoverGrowth(s);
    Symmetric(a, b);
    var t := LeastScript(b, a);
    InsertionsCoverGrowth(t);
  }

  /** The triangle inequality is not among the promises. */
  lemma BreaksTriangle()
    ensures EditDistance("CA", "AC") == 1 && EditDistance("AC", "ABC") == 1 && EditDistance("CA", "ABC") == 3
  {
    OneEdit(Then(Empty, Transpose('C', 'A')), "CA", "AC");
    OneEdit(Then(Then(Then(Empty, Keep('A')), Insert('B')), Keep('C')), "AC", "ABC");
    ThreeEdits("CA", "ABC");
  }

  lemma OneEdit(s: Script, a: string, b: string)
    requires Rewrites(s, a, b) && Cost(s) == 1 && a != b
    ensures EditDistance(a, b) == 1
  {
    EditDistanceIsLeast(a, b);
    ZeroIffEqual(a, b);
  }

  lemma ThreeEdits(a: string, b: string)
    requires |a| == 2 && |b| == 3
    requires a[0] == 'C' && a[1] == 'A' && b[0] == 'A' && b[1] == 'B' && b[2] == 'C'
    ensures EditDistance(a, b) == 3
  {
    EditDistanceIsLeast(a, b);
    assert Prefixes(a, b, 1, 1) == 1;
    assert Prefixes(a, b, 1, 2) == 2;
    assert Prefixes(a, b, 1, 3) == 2;
    assert Prefixes(a, b, 2, 1) == 1;
    assert Prefixes(a, b, 2, 2) == 2;
  }
}
