/** The paste repairer of internal/content/paste.go, on runes.

    A pasted document is a concrete JSON tree (RFC 8259, sections 2 and 7) in
    which every string remembers the two marks it was typed between.  Scanning
    its text is proved to give back the same tree with straight marks, exactly
    when no mark inside a string looks like the end of one. */
module Paste {

  const LEFT: char := '\U{201C}'
  const RIGHT: char := '\U{201D}'
  const QUOTE: char := '"'

  predicate IsCurly(c: char) {
    c == LEFT || c == RIGHT
  }

  predicate IsMark(c: char) {
    c == QUOTE || IsCurly(c)
  }

  predicate IsBlank(c: char) {
    c == ' ' || c == '\t' || c == '\r' || c == '\n'
  }

  predicate IsStructural(c: char) {
    c == ',' || c == ':' || c == '}' || c == ']'
  }

  /** What the text goes on with, past blanks, is structural or nothing at all. */
  predicate StructuralNext(s: string) {
    if s == [] then true
    else if IsBlank(s[0]) then StructuralNext(s[1..])
    else IsStructural(s[0])
  }

  /** The first `n` characters are spaces, tabs or line breaks, and then comes a comma, a colon, a
      closing brace or bracket, or the end. */
  predicate GoesOnAfter(s: string, n: nat) {
    && n <= |s| && (forall k :: 0 <= k < n ==> s[k] in " \t\r\n")
    && (n == |s| || s[n] in ",:}]")
  }

  /** The lookahead skips any number of blanks and accepts just those four characters or the end. */
  lemma {:induction false} LookaheadMeans(s: string)
    ensures StructuralNext(s) <==> exists n: nat :: GoesOnAfter(s, n)
  {
    if s == [] {
      assert GoesOnAfter(s, 0);
    } else if IsBlank(s[0]) {
      LookaheadMeans(s[1..]);
      if n: nat :| GoesOnAfter(s[1..], n) {
        assert GoesOnAfter(s, n + 1);
      }
      if n: nat :| GoesOnAfter(s, n) {
        assert n > 0;
        assert GoesOnAfter(s[1..], n - 1);
      }
    } else {
      assert GoesOnAfter(s, 0) <==> IsStructural(s[0]);
    }
  }

  // ----- The scanner -----

  datatype Mode = Outside | Inside | Escaped

  /** What one rune becomes, given what follows it. */
  function Written(m: Mode, c: char, rest: string): char {
    match m
    case Escaped => c
    case Inside => if IsCurly(c) && StructuralNext(rest) then QUOTE else c
    case Outside => if IsCurly(c) then QUOTE else c
  }

  function After(m: Mode, c: char, rest: string): Mode {
    match m
    case Escaped => Inside
    case Inside =>
      if c == '\\' then Escaped
      else if c == QUOTE || (IsCurly(c) && StructuralNext(rest)) then Outside
      else Inside
    case Outside => if IsMark(c) then Inside else Outside
  }

  function Scan(m: Mode, s: string): string
    decreases s
  {
    if s == [] then [] else [Written(m, s[0], s[1..])] + Scan(After(m, s[0], s[1..]), s[1..])
  }

  function Straighten(s: string): string {
    Scan(Outside, s)
  }

  method LooksStructural(runes: string, i: nat) returns (b: bool)
    requires i <= |runes|
    ensures b == StructuralNext(runes[i..])
  {
    for k := i to |runes|
      invariant StructuralNext(runes[i..]) == StructuralNext(runes[k..])
    {
      var c := runes[k];
      assert runes[k..][0] == c && runes[k..][1..] == runes[k + 1..];
      if !IsBlank(c) {
        return IsStructural(c);
      }
    }
    return true;
  }

  method StraightenDelimiters(runes: string) returns (out: string)
    ensures out == Straighten(runes)
  {
    out := [];
    var inString, escaped := false, false;
    for i := 0 to |runes|
      invariant escaped ==> inString
      invariant Straighten(runes) == out + Scan(ModeOf(inString, escaped), runes[i..])
    {
      var r := runes[i];
      OneRune(runes, i, out, ModeOf(inString, escaped));
      if escaped {
        escaped := false;
        out := out + [r];
      } else if inString && r == '\\' {
        escaped := true;
        out := out + [r];
      } else if inString && r == QUOTE {
        inString := false;
        out := out + [r];
      } else if inString && IsCurly(r) {
        var closing := LooksStructural(runes, i + 1);
        if closing {
          inString := false;
          out := out + [QUOTE];
        } else {
          out := out + [r];
        }
      } else if !inString && r == QUOTE {
        inString := true;
        out := out + [r];
      } else if !inString && IsCurly(r) {
        inString := true;
        out := out + [QUOTE];
      } else {
        out := out + [r];
      }
    }
  }

  /** The two flags of the loop as one mode. */
  function ModeOf(inString: bool, escaped: bool): Mode {
    if escaped then Escaped else if inString then Inside else Outside
  }

  lemma OneRune(runes: string, i: nat, out: string, m: Mode)
    requires i < |runes|
    ensures var r, rest := runes[i], runes[i + 1..];
            out + Scan(m, runes[i..]) == (out + [Written(m, r, rest)]) + Scan(After(m, r, rest), rest)
  {
    assert runes[i..][0] == runes[i] && runes[i..][1..] == runes[i + 1..];
  }

  // ----- On every input at all -----

  lemma {:induction false} OnlyCurlyMarksChange(m: Mode, s: string)
    ensures |Scan(m, s)| == |s|
    ensures forall k :: 0 <= k < |s| && Scan(m, s)[k] != s[k] ==> IsCurly(s[k]) && Scan(m, s)[k] == QUOTE
    decreases s
  {
    if s == [] {
    } else {
      OnlyCurlyMarksChange(After(m, s[0], s[1..]), s[1..]);
    }
  }

  /** Scanning never changes what a later lookahead sees. */
  lemma {:induction false} LookaheadSurvives(m: Mode, s: string)
    ensures StructuralNext(Scan(m, s)) == StructuralNext(s)
    decreases s
  {
    if s != [] && IsBlank(s[0]) {
      LookaheadSurvives(After(m, s[0], s[1..]), s[1..]);
    }
  }

  lemma {:induction false} ScanTwice(m: Mode, s: string)
    ensures Scan(m, Scan(m, s)) == Scan(m, s)
    decreases s
  {
    if s == [] {
    } else {
      var m' := After(m, s[0], s[1..]);
      LookaheadSurvives(m', s[1..]);
      ScanTwice(m', s[1..]);
      assert After(m, Written(m, s[0], s[1..]), Scan(m', s[1..])) == m';
    }
  }

  lemma StraightenIsIdempotent(s: string)
    ensures Straighten(Straighten(s)) == Straighten(s)
  {
    ScanTwice(Outside, s);
  }

  // ----- JSON documents -----

  /** A string between the marks it was typed with. */
  datatype Quoted = Quoted(open: char, body: string, close: char)

  datatype Value =
    | Scalar(text: string)
    | Str(q: Quoted)
    | EmptyArray(blank: string)
    | Array(items: Items)
    | EmptyObject(blank: string)
    | Object(members: Members)

  datatype Spaced = Spaced(before: string, value: Value, after: string)

  datatype Items = LastItem(item: Spaced) | MoreItems(item: Spaced, rest: Items)

  datatype Member = Member(before: string, key: Quoted, after: string, item: Spaced)

  datatype Members = LastMember(member: Member) | MoreMembers(member: Member, others: Members)

  predicate Blanks(s: string) {
    forall k :: 0 <= k < |s| ==> IsBlank(s[k])
  }

  predicate IsHex(c: char) {
    '0' <= c <= '9' || 'a' <= c <= 'f' || 'A' <= c <= 'F'
  }

  /** The inside of a JSON string: unescaped characters and escapes. */
  predicate IsBody(s: string) {
    if s == [] then true
    else if s[0] == '\\' then
      if |s| > 1 && s[1] == 'u' then
        |s| > 5 && IsHex(s[2]) && IsHex(s[3]) && IsHex(s[4]) && IsHex(s[5]) && IsBody(s[6..])
      else |s| > 1 && s[1] in "\"\\/bfnrt" && IsBody(s[2..])
    else s[0] != QUOTE && s[0] >= ' ' && IsBody(s[1..])
  }

  /** Numbers and the three names are spelled with these characters. */
  predicate IsScalarChar(c: char) {
    '0' <= c <= '9' || 'a' <= c <= 'z' || c == 'E' || c == '+' || c == '-' || c == '.'
  }

  predicate IsScalar(s: string) {
    s != [] && forall k :: 0 <= k < |s| ==> IsScalarChar(s[k])
  }

  predicate IsQuoted(q: Quoted) {
    IsMark(q.open) && IsMark(q.close) && IsBody(q.body)
  }

  predicate IsValue(v: Value) {
    match v
    case Scalar(text) => IsScalar(text)
    case Str(q) => IsQuoted(q)
    case EmptyArray(blank) => Blanks(blank)
    case Array(items) => AreItems(items)
    case EmptyObject(blank) => Blanks(blank)
    case Object(members) => AreMembers(members)
  }

  predicate IsSpaced(e: Spaced) {
    Blanks(e.before) && IsValue(e.value) && Blanks(e.after)
  }

  predicate AreItems(items: Items) {
    IsSpaced(items.item) && (items.MoreItems? ==> AreItems(items.rest))
  }

  predicate IsMember(m: Member) {
    Blanks(m.before) && IsQuoted(m.key) && Blanks(m.after) && IsSpaced(m.item)
  }

  predicate AreMembers(ms: Members) {
    IsMember(ms.member) && (ms.MoreMembers? ==> AreMembers(ms.others))
  }

  /** The text of a string: as typed, or between straight marks. */
  function QuotedText(q: Quoted, typed: bool): string {
    [if typed then q.open else QUOTE] + q.body + [if typed then q.close else QUOTE]
  }

  function ValueText(v: Value, typed: bool): string {
    match v
    case Scalar(text) => text
    case Str(q) => QuotedText(q, typed)
    case EmptyArray(blank) => "[" + blank + "]"
    case Array(items) => "[" + ItemsText(items, typed) + "]"
    case EmptyObject(blank) => "{" + blank + "}"
    case Object(members) => "{" + MembersText(members, typed) + "}"
  }

  function SpacedText(e: Spaced, typed: bool): string {
    e.before + ValueText(e.value, typed) + e.after
  }

  function ItemsText(items: Items, typed: bool): string {
    match items
    case LastItem(item) => SpacedText(item, typed)
    case MoreItems(item, rest) => SpacedText(item, typed) + ("," + ItemsText(rest, typed))
  }

  function MemberText(m: Member, typed: bool): string {
    m.before + QuotedText(m.key, typed) + m.after + ":" + SpacedText(m.item, typed)
  }

  function MembersText(ms: Members, typed: bool): string {
    match ms
    case LastMember(m) => MemberText(m, typed)
    case MoreMembers(m, others) => MemberText(m, typed) + ("," + MembersText(others, typed))
  }

  // ----- When a document can be repaired -----

  /** Past blanks, the string itself goes on with a structural character. */
  predicate StructuralInside(s: string) {
    s != [] && (if IsBlank(s[0]) then StructuralInside(s[1..]) else IsStructural(s[0]))
  }

  /** No unescaped curly mark in the string looks like the end of it. */
  predicate CalmBody(s: string) {
    if s == [] then true
    else if s[0] == '\\' && |s| > 1 then CalmBody(s[2..])
    else (IsCurly(s[0]) ==> !StructuralInside(s[1..])) && CalmBody(s[1..])
  }

  predicate CalmValue(v: Value) {
    match v
    case Scalar(_) => true
    case Str(q) => CalmBody(q.body)
    case EmptyArray(_) => true
    case Array(items) => CalmItems(items)
    case EmptyObject(_) => true
    case Object(members) => CalmMembers(members)
  }

  predicate CalmItems(items: Items) {
    CalmValue(items.item.value) && (items.MoreItems? ==> CalmItems(items.rest))
  }

  predicate CalmMember(m: Member) {
    CalmBody(m.key.body) && CalmValue(m.item.value)
  }

  predicate CalmMembers(ms: Members) {
    CalmMember(ms.member) && (ms.MoreMembers? ==> CalmMembers(ms.others))
  }

  /** The scanner, meeting `typed` outside any string and `rest` after it, either
      writes `plain` and carries on outside, or writes something else. */
  ghost predicate Gives(typed: string, plain: string, rest: string, calm: bool) {
    if calm then Scan(Outside, typed + rest) == plain + Scan(Outside, rest)
    else !(plain <= Scan(Outside, typed + rest))
  }

  lemma GivesBoth(t1: string, p1: string, calm1: bool, t2: string, p2: string, calm2: bool, rest: string)
    requires Gives(t1, p1, t2 + rest, calm1) && Gives(t2, p2, rest, calm2)
    ensures Gives(t1 + t2, p1 + p2, rest, calm1 && calm2)
  {
    assert (t1 + t2) + rest == t1 + (t2 + rest);
    var out := Scan(Outside, t1 + (t2 + rest));
    if calm1 {
      var out2 := Scan(Outside, t2 + rest);
      assert p1 + (p2 + Scan(Outside, rest)) == (p1 + p2) + Scan(Outside, rest);
      if p1 + p2 <= out {
        assert out[|p1|..] == out2;
        assert (p1 + p2)[|p1|..] == p2 <= out2;
      }
    } else {
      assert p1 <= p1 + p2;
    }
  }

  predicate Unmarked(s: string) {
    forall k :: 0 <= k < |s| ==> !IsMark(s[k])
  }

  lemma {:induction false} GivesUnmarked(s: string, rest: string)
    requires Unmarked(s)
    ensures Gives(s, s, rest, true)
  {
    if s == [] {
      assert s + rest == rest;
    } else {
      GivesUnmarked(s[1..], rest);
      assert (s + rest)[1..] == s[1..] + rest;
      assert s == [s[0]] + s[1..];
    }
  }

  lemma {:induction false} BlanksThenStructural(blank: string, rest: string)
    requires Blanks(blank) && StructuralNext(rest)
    ensures StructuralNext(blank + rest)
  {
    if blank == [] {
      assert blank + rest == rest;
    } else {
      BlanksThenStructural(blank[1..], rest);
      assert (blank + rest)[1..] == blank[1..] + rest;
    }
  }

  /** Before its closing mark, a string is followed by what it holds and nothing else. */
  lemma {:induction false} LookaheadStaysInside(s: string, close: char, rest: string)
    requires IsMark(close)
    ensures StructuralNext(s + [close] + rest) == StructuralInside(s)
  {
    var all := s + [close] + rest;
    if s == [] {
      assert all[0] == close;
    } else {
      assert all[1..] == s[1..] + [close] + rest;
      if IsBlank(s[0]) {
        LookaheadStaysInside(s[1..], close, rest);
      }
    }
  }

  /** The inside of a string, up to and including its closing mark. */
  ghost predicate GivesInside(body: string, close: char, rest: string, calm: bool) {
    var out := Scan(Inside, body + [close] + rest);
    if calm then out == body + [QUOTE] + Scan(Outside, rest) else !(body <= out)
  }

  lemma CopyInside(c: char, body: string, close: char, rest: string, calm: bool)
    requires GivesInside(body, close, rest, calm)
    requires Written(Inside, c, body + [close] + rest) == c && After(Inside, c, body + [close] + rest) == Inside
    ensures GivesInside([c] + body, close, rest, calm)
  {
    var all := [c] + body + [close] + rest;
    assert all[0] == c && all[1..] == body + [close] + rest;
    var out, out' := Scan(Inside, all), Scan(Inside, all[1..]);
    assert out == [c] + out';
    if [c] + body <= out {
      assert ([c] + body)[1..] == body && out[1..] == out';
    }
  }

  lemma CopyEscape(c: char, body: string, close: char, rest: string, calm: bool)
    requires GivesInside(body, close, rest, calm)
    ensures GivesInside(['\\', c] + body, close, rest, calm)
  {
    var tail := body + [close] + rest;
    var all := ['\\', c] + body + [close] + rest;
    assert all[1..] == [c] + tail && all[1..][1..] == tail;
    var out, out' := Scan(Inside, all), Scan(Inside, tail);
    assert Scan(Escaped, [c] + tail) == [c] + out';
    assert out == ['\\'] + ([c] + out') == ['\\', c] + out';
    if ['\\', c] + body <= out {
      assert (['\\', c] + body)[2..] == body && out[2..] == out';
    }
  }

  lemma {:induction false} ScanBody(body: string, close: char, rest: string)
    requires IsBody(body) && IsMark(close)
    requires StructuralNext(rest)
    ensures GivesInside(body, close, rest, CalmBody(body))
    decreases |body|
  {
    if body == [] {
      assert body + [close] + rest == [close] + rest;
      assert ([close] + rest)[1..] == rest;
    } else if body[0] == '\\' {
      var c, tail := body[1], body[2..];
      assert body == ['\\', c] + tail;
      if c == 'u' {
        ScanHex(tail, close, rest);
      } else {
        ScanBody(tail, close, rest);
      }
      CopyEscape(c, tail, close, rest, CalmBody(tail));
    } else {
      var c, tail := body[0], body[1..];
      assert body == [c] + tail;
      ScanBody(tail, close, rest);
      LookaheadStaysInside(tail, close, rest);
      if IsCurly(c) && StructuralInside(tail) {
        assert (body + [close] + rest)[1..] == tail + [close] + rest;
        assert Scan(Inside, body + [close] + rest)[0] == QUOTE;
      } else {
        CopyInside(c, tail, close, rest, CalmBody(tail));
      }
    }
  }

  /** The four digits of a \u escape are copied like any other characters. */
  lemma ScanHex(s: string, close: char, rest: string)
    requires |s| >= 4 && IsHex(s[0]) && IsHex(s[1]) && IsHex(s[2]) && IsHex(s[3]) && IsBody(s[4..])
    requires IsMark(close) && StructuralNext(rest)
    ensures GivesInside(s, close, rest, CalmBody(s))
    decreases |s|, 0
  {
    ScanBody(s[4..], close, rest);
    HexIsCopied(s[3..], close, rest);
    HexIsCopied(s[2..], close, rest);
    HexIsCopied(s[1..], close, rest);
    HexIsCopied(s, close, rest);
  }

  lemma HexIsCopied(s: string, close: char, rest: string)
    requires s != [] && IsHex(s[0])
    requires GivesInside(s[1..], close, rest, CalmBody(s[1..]))
    ensures GivesInside(s, close, rest, CalmBody(s))
  {
    assert s == [s[0]] + s[1..];
    CopyInside(s[0], s[1..], close, rest, CalmBody(s[1..]));
  }

  lemma StaysPrefix(s: string, more: string, out: string, c: char)
    ensures [c] + s + more <= [c] + out ==> s <= out
  {
    if [c] + s + more <= [c] + out {
      forall k | 0 <= k < |s|
        ensures s[k] == out[k]
      {
        assert ([c] + s + more)[k + 1] == ([c] + out)[k + 1];
      }
    }
  }

  lemma ScanQuoted(q: Quoted, rest: string)
    requires IsQuoted(q) && StructuralNext(rest)
    ensures Gives(QuotedText(q, true), QuotedText(q, false), rest, CalmBody(q.body))
  {
    ScanBody(q.body, q.close, rest);
    var inner := q.body + [q.close] + rest;
    var all := QuotedText(q, true) + rest;
    assert all == [q.open] + inner && all[1..] == inner;
    var out, out' := Scan(Outside, all), Scan(Inside, inner);
    assert out == [QUOTE] + out';
    if CalmBody(q.body) {
      assert out == QuotedText(q, false) + Scan(Outside, rest);
    } else {
      StaysPrefix(q.body, [QUOTE], out', QUOTE);
      assert QuotedText(q, false) == [QUOTE] + q.body + [QUOTE];
    }
  }

  lemma BracketedBlank(open: char, blank: string, close: char)
    requires Blanks(blank) && !IsMark(open) && !IsMark(close)
    ensures Unmarked([open] + blank + [close])
  {
  }

  lemma {:induction false} ScanValue(v: Value, rest: string)
    requires IsValue(v) && StructuralNext(rest)
    ensures Gives(ValueText(v, true), ValueText(v, false), rest, CalmValue(v))
    decreases v, 0
  {
    match v
    case Scalar(text) =>
      assert Unmarked(text);
      GivesUnmarked(text, rest);
    case Str(q) => ScanQuoted(q, rest);
    case EmptyArray(blank) =>
      BracketedBlank('[', blank, ']');
      GivesUnmarked("[" + blank + "]", rest);
    case EmptyObject(blank) =>
      BracketedBlank('{', blank, '}');
      GivesUnmarked("{" + blank + "}", rest);
    case Array(items) =>
      ScanItems(items, "]" + rest);
      Bracketed("[", ItemsText(items, true), ItemsText(items, false), "]", rest, CalmItems(items));
    case Object(members) =>
      ScanMembers(members, "}" + rest);
      Bracketed("{", MembersText(members, true), MembersText(members, false), "}", rest, CalmMembers(members));
  }

  lemma Bracketed(open: string, typed: string, plain: string, close: string, rest: string, calm: bool)
    requires Unmarked(open) && Unmarked(close)
    requires Gives(typed, plain, close + rest, calm)
    ensures Gives(open + typed + close, open + plain + close, rest, calm)
  {
    GivesUnmarked(close, rest);
    GivesBoth(typed, plain, calm, close, close, true, rest);
    GivesUnmarked(open, (typed + close) + rest);
    GivesBoth(open, open, true, typed + close, plain + close, calm, rest);
    assert open + (typed + close) == open + typed + close;
    assert open + (plain + close) == open + plain + close;
  }

  lemma ScanSpaced(e: Spaced, rest: string)
    requires IsSpaced(e) && StructuralNext(rest)
    ensures Gives(SpacedText(e, true), SpacedText(e, false), rest, CalmValue(e.value))
    decreases e, 1
  {
    BlanksThenStructural(e.after, rest);
    ScanValue(e.value, e.after + rest);
    Bracketed(e.before, ValueText(e.value, true), ValueText(e.value, false), e.after, rest, CalmValue(e.value));
  }

  lemma {:induction false} ScanItems(items: Items, rest: string)
    requires AreItems(items) && StructuralNext(rest)
    ensures Gives(ItemsText(items, true), ItemsText(items, false), rest, CalmItems(items))
    decreases items, 2
  {
    match items
    case LastItem(item) => ScanSpaced(item, rest);
    case MoreItems(item, more) =>
      var typed, plain := "," + ItemsText(more, true), "," + ItemsText(more, false);
      ScanItems(more, rest);
      GivesUnmarked(",", ItemsText(more, true) + rest);
      GivesBoth(",", ",", true, ItemsText(more, true), ItemsText(more, false), CalmItems(more), rest);
      ScanSpaced(item, typed + rest);
      GivesBoth(SpacedText(item, true), SpacedText(item, false), CalmValue(item.value), typed, plain, CalmItems(more),
                rest);
  }

  lemma ScanMember(m: Member, rest: string)
    requires IsMember(m) && StructuralNext(rest)
    ensures Gives(MemberText(m, true), MemberText(m, false), rest, CalmMember(m))
    decreases m, 1
  {
    var typed, plain := SpacedText(m.item, true), SpacedText(m.item, false);
    var colon := m.after + ":";
    ScanSpaced(m.item, rest);
    assert colon + (typed + rest) == m.after + (":" + (typed + rest));
    BlanksThenStructural(m.after, ":" + (typed + rest));
    ScanQuoted(m.key, colon + (typed + rest));
    Bracketed(m.before, QuotedText(m.key, true), QuotedText(m.key, false), colon, typed + rest, CalmBody(m.key.body));
    GivesBoth(m.before + QuotedText(m.key, true) + colon, m.before + QuotedText(m.key, false) + colon,
              CalmBody(m.key.body),
              typed, plain, CalmValue(m.item.value), rest);
    assert m.before + QuotedText(m.key, true) + colon + typed == MemberText(m, true);
    assert m.before + QuotedText(m.key, false) + colon + plain == MemberText(m, false);
  }

  lemma {:induction false} ScanMembers(ms: Members, rest: string)
    requires AreMembers(ms) && StructuralNext(rest)
    ensures Gives(MembersText(ms, true), MembersText(ms, false), rest, CalmMembers(ms))
    decreases ms, 2
  {
    match ms
    case LastMember(m) => ScanMember(m, rest);
    case MoreMembers(m, others) =>
      var typed, plain := "," + MembersText(others, true), "," + MembersText(others, false);
      ScanMembers(others, rest);
      GivesUnmarked(",", MembersText(others, true) + rest);
      GivesBoth(",", ",", true, MembersText(others, true), MembersText(others, false), CalmMembers(others), rest);
      ScanMember(m, typed + rest);
      GivesBoth(MemberText(m, true), MemberText(m, false), CalmMember(m), typed, plain, CalmMembers(others), rest);
  }

  /** A typed document is restored exactly when none of its strings misleads. */
  lemma StraightenRestores(doc: Spaced)
    requires IsSpaced(doc)
    ensures Straighten(SpacedText(doc, true)) == SpacedText(doc, false) <==> CalmValue(doc.value)
  {
    ScanSpaced(doc, "");
    assert SpacedText(doc, true) + "" == SpacedText(doc, true);
    assert SpacedText(doc, false) + "" == SpacedText(doc, false);
  }

  /** A quotation with a comma after it looks like the end of its string, and the document is not restored. */
  lemma AnInnerMarkMisleads()
    ensures var doc := Spaced("", Str(Quoted(LEFT, ['a', RIGHT, ',', 'b'], RIGHT)), "");
            IsSpaced(doc) && Straighten(SpacedText(doc, true)) != SpacedText(doc, false)
  {
    var body := ['a', RIGHT, ',', 'b'];
    var doc := Spaced("", Str(Quoted(LEFT, body, RIGHT)), "");
    assert body[1..] == [RIGHT, ',', 'b'] && body[1..][1..] == [',', 'b'] && [',', 'b'][1..] == ['b']
           && ['b'][1..] == [];
    assert IsBody(['b']) && IsBody([',', 'b']) && IsBody([RIGHT, ',', 'b']) && IsBody(body);
    assert StructuralInside([',', 'b']) && !CalmBody([RIGHT, ',', 'b']) && !CalmBody(body);
    StraightenRestores(doc);
  }

  // ----- The Markdown fence and the whole repair -----

  /** The white space that trimming removes. */
  predicate IsSpace(c: char) {
    || '\t' <= c <= '\r' || c == ' ' || c == '\U{85}' || c == '\U{A0}' || c == '\U{1680}'
    || '\U{2000}' <= c <= '\U{200A}' || c == '\U{2028}' || c == '\U{2029}' || c == '\U{202F}'
    || c == '\U{205F}' || c == '\U{3000}'
  }

  function TrimLeft(s: string): string {
    if s != [] && IsSpace(s[0]) then TrimLeft(s[1..]) else s
  }

  function TrimRight(s: string): string {
    if s != [] && IsSpace(s[|s| - 1]) then TrimRight(s[..|s| - 1]) else s
  }

  function TrimSpace(s: string): string {
    TrimRight(TrimLeft(s))
  }

  const FENCE: string := "```"

  /** The first place `c` occurs, or -1. */
  function IndexOf(s: string, c: char): (k: int)
    ensures -1 <= k < |s|
  {
    if s == [] then -1
    else if s[0] == c then 0
    else var k := IndexOf(s[1..], c); if k < 0 then -1 else k + 1
  }

  /** The last place a fence starts at or before `k`, or -1. */
  function LastFence(s: string, k: int): (j: int)
    requires k <= |s| - |FENCE|
    ensures j == -1 || 0 <= j <= k
    decreases k + 1
  {
    if k < 0 then -1 else if s[k..k + |FENCE|] == FENCE then k else LastFence(s, k - 1)
  }

  function StripCodeFence(data: string): string {
    var trimmed := TrimSpace(data);
    if !(FENCE <= trimmed) then data
    else
      var nl := IndexOf(trimmed, '\n');
      if nl < 0 then data
      else
        var body := trimmed[nl + 1..];
        var end := LastFence(body, |body| - |FENCE|);
        TrimSpace(if end >= 0 then body[..end] else body)
  }

  function RepairPaste(valid: string -> bool, data: string): string {
    if valid(data) then data else Straighten(StripCodeFence(data))
  }

  predicate Spaces(s: string) {
    forall k :: 0 <= k < |s| ==> IsSpace(s[k])
  }

  lemma {:induction false} TrimLeftDrops(lead: string, s: string)
    requires Spaces(lead) && s != [] && !IsSpace(s[0])
    ensures TrimLeft(lead + s) == s
  {
    if lead == [] {
      assert lead + s == s;
    } else {
      TrimLeftDrops(lead[1..], s);
      assert (lead + s)[1..] == lead[1..] + s;
    }
  }

  lemma {:induction false} TrimRightDrops(s: string, trail: string)
    requires Spaces(trail) && s != [] && !IsSpace(s[|s| - 1])
    ensures TrimRight(s + trail) == s
  {
    if trail == [] {
      assert s + trail == s;
    } else {
      TrimRightDrops(s, trail[..|trail| - 1]);
      assert (s + trail)[..|s + trail| - 1] == s + trail[..|trail| - 1];
    }
  }

  lemma TrimAround(lead: string, s: string, trail: string)
    requires Spaces(lead) && Spaces(trail) && s != [] && !IsSpace(s[0]) && !IsSpace(s[|s| - 1])
    ensures TrimSpace(lead + s + trail) == s
  {
    assert lead + s + trail == lead + (s + trail);
    TrimLeftDrops(lead, s + trail);
    TrimRightDrops(s, trail);
  }

  lemma ValueIsTight(v: Value, typed: bool)
    requires IsValue(v)
    ensures var t := ValueText(v, typed); t != [] && !IsSpace(t[0]) && !IsSpace(t[|t| - 1])
  {
    if v.Scalar? {
      assert IsScalarChar(v.text[0]) && IsScalarChar(v.text[|v.text| - 1]);
    }
  }

  lemma {:induction false} FirstNewline(line: string, rest: string)
    requires '\n' !in line
    ensures IndexOf(line + ['\n'] + rest, '\n') == |line|
  {
    var all := line + ['\n'] + rest;
    if line == [] {
      assert all[0] == '\n';
    } else {
      assert all[1..] == line[1..] + ['\n'] + rest;
      FirstNewline(line[1..], rest);
    }
  }

  lemma FenceComesOff(lead: string, tag: string, inside: string, trail: string)
    requires Spaces(lead) && Spaces(trail) && '\n' !in tag
    ensures StripCodeFence(lead + (FENCE + tag + ['\n'] + inside + FENCE) + trail) == TrimSpace(inside)
  {
    hide TrimLeft, TrimRight;
    var fenced := FENCE + tag + ['\n'] + inside + FENCE;
    assert fenced[0] == '`' && fenced[|fenced| - 1] == '`';
    TrimAround(lead, fenced, trail);
    var line, body := FENCE + tag, inside + FENCE;
    assert fenced == line + ['\n'] + body;
    FirstNewline(line, body);
    assert FENCE <= fenced;
    assert fenced[|line| + 1..] == body;
    assert body[|inside|..|inside| + |FENCE|] == FENCE && body[..|inside|] == inside;
  }

  /** A fenced answer, copied with whatever white space surrounds it, is
      restored exactly when none of its strings misleads. */
  lemma RepairRestoresFenced(valid: string -> bool, doc: Spaced, lead: string, tag: string, trail: string)
    requires IsSpaced(doc) && Spaces(lead) && Spaces(trail) && '\n' !in tag
    requires !valid(lead + (FENCE + tag + ['\n'] + SpacedText(doc, true) + FENCE) + trail)
    ensures RepairPaste(valid, lead + (FENCE + tag + ['\n'] + SpacedText(doc, true) + FENCE) + trail)
            == ValueText(doc.value, false)
            <==> CalmValue(doc.value)
  {
    FenceComesOff(lead, tag, SpacedText(doc, true), trail);
    ValueIsTight(doc.value, true);
    assert Spaces(doc.before) && Spaces(doc.after);
    TrimAround(doc.before, ValueText(doc.value, true), doc.after);
    var tight := Spaced("", doc.value, "");
    StraightenRestores(tight);
    assert SpacedText(tight, true) == ValueText(doc.value, true);
    assert SpacedText(tight, false) == ValueText(doc.value, false);
  }

  /** A bare answer is restored too, its own white space included. */
  lemma RepairRestoresBare(valid: string -> bool, doc: Spaced)
    requires IsSpaced(doc) && !valid(SpacedText(doc, true))
    ensures RepairPaste(valid, SpacedText(doc, true)) == SpacedText(doc, false) <==> CalmValue(doc.value)
  {
    ValueIsTight(doc.value, true);
    assert Spaces(doc.before) && Spaces(doc.after);
    TrimAround(doc.before, ValueText(doc.value, true), doc.after);
    StartsPlainly(doc.value);
    StraightenRestores(doc);
  }

  /** A file that is already valid comes back as it is, whatever it says. */
  lemma ValidFilesAreUntouched(valid: string -> bool, data: string)
    requires valid(data)
    ensures RepairPaste(valid, data) == data
  {
  }

  /** So a document with straight marks is safe, even one whose strings would mislead the scanner. */
  lemma StraightDocumentsAreUntouched(valid: string -> bool, doc: Spaced)
    requires IsSpaced(doc) && valid(SpacedText(doc, false))
    ensures RepairPaste(valid, SpacedText(doc, false)) == SpacedText(doc, false)
  {
    ValidFilesAreUntouched(valid, SpacedText(doc, false));
  }

  /** What does not start with a fence, or has nothing after the fence's line, is left as it is. */
  lemma NoFenceNoChange(data: string)
    requires !(FENCE <= TrimSpace(data)) || '\n' !in TrimSpace(data)
    ensures StripCodeFence(data) == data
  {
    if FENCE <= TrimSpace(data) {
      NoNewline(TrimSpace(data));
    }
  }

  lemma {:induction false} NoNewline(s: string)
    requires '\n' !in s
    ensures IndexOf(s, '\n') == -1
  {
    if s == [] {
    } else {
      assert s[0] in s;
      NoNewline(s[1..]);
    }
  }

  predicate FenceAt(s: string, i: nat) {
    i + |FENCE| <= |s| && s[i..i + |FENCE|] == FENCE
  }

  lemma {:induction false} NoFenceFound(s: string, k: int)
    requires -1 <= k <= |s| - |FENCE|
    requires forall i: nat :: i <= k ==> !FenceAt(s, i)
    ensures LastFence(s, k) == -1
    decreases k + 1
  {
    if k < 0 {
    } else {
      assert !FenceAt(s, k);
      NoFenceFound(s, k - 1);
    }
  }

  /** A fence that is never closed comes off all the same, and everything after its line stays. */
  lemma UnclosedFenceComesOff(lead: string, tag: string, inside: string, trail: string)
    requires Spaces(lead) && Spaces(trail) && '\n' !in tag
    requires inside != [] && !IsSpace(inside[|inside| - 1])
    requires forall i: nat :: !FenceAt(inside, i)
    ensures StripCodeFence(lead + (FENCE + tag + ['\n'] + inside) + trail) == TrimSpace(inside)
  {
    hide TrimLeft, TrimRight;
    var fenced := FENCE + tag + ['\n'] + inside;
    assert fenced[0] == '`' && fenced[|fenced| - 1] == inside[|inside| - 1];
    TrimAround(lead, fenced, trail);
    FirstNewline(FENCE + tag, inside);
    assert FENCE <= fenced;
    assert fenced == FENCE + tag + ['\n'] + inside && fenced[|FENCE + tag| + 1..] == inside;
    if |inside| >= |FENCE| {
      NoFenceFound(inside, |inside| - |FENCE|);
    }
  }

  lemma StartsPlainly(v: Value)
    requires IsValue(v)
    ensures !(FENCE <= ValueText(v, true))
  {
    var t := ValueText(v, true);
    if v.Scalar? {
      assert IsScalarChar(v.text[0]);
    }
    assert t != [] && t[0] != '`';
    assert FENCE[0] == '`';
  }
}
