/** Ranks and streaks, internal/httpapi/alltime.go and internal/httpapi/server.go. */
module Standings {
  import opened Wrappers

  type UserId = int

  // ----- Ranks -----

  /** Averages are exact fractions, or hundredths where the list shows them rounded. */
  datatype Entry = Entry(user: UserId, average: real, rank: nat)

  /** How many of the first `n` values are strictly greater. */
  function Ahead(values: seq<real>, n: nat, value: real): (count: nat)
    requires n <= |values|
    ensures count <= n
  {
    if n == 0 then 0 else Ahead(values, n - 1, value) + (if values[n - 1] > value then 1 else 0)
  }

  /** A position among the values: ties share it and the next one skips, as in 1, 2, 2, 4. */
  function Position(values: seq<real>, value: real): nat {
    1 + Ahead(values, |values|, value)
  }

  predicate Descending(values: seq<real>) {
    forall i, j :: 0 <= i < j < |values| ==> values[i] >= values[j]
  }

  lemma {:induction false} AheadInOrder(values: seq<real>, i: nat, n: nat)
    requires Descending(values) && i < n <= |values|
    ensures Ahead(values, n, values[i]) == Ahead(values, i, values[i])
  {
    if i < n - 1 {
      AheadInOrder(values, i, n - 1);
    }
  }

  lemma {:induction false} AllAhead(values: seq<real>, n: nat, value: real)
    requires n <= |values| && forall k :: 0 <= k < n ==> values[k] > value
    ensures Ahead(values, n, value) == n
  {
    if n == 0 {
    } else {
      AllAhead(values, n - 1, value);
    }
  }

  /** In descending order a tie has its neighbour's position, and anything else its own index plus one. */
  lemma PositionInOrder(values: seq<real>, i: nat)
    requires Descending(values) && i < |values|
    ensures Position(values, values[i]) == if i > 0 && values[i] == values[i - 1] then Position(values, values[i - 1])
                                           else i + 1
  {
    AheadInOrder(values, i, |values|);
    if i == 0 || values[i] != values[i - 1] {
      AllAhead(values, i, values[i]);
    }
  }

  function Averages(entries: seq<Entry>): seq<real> {
    seq(|entries|, i requires 0 <= i < |entries| => entries[i].average)
  }

  /** Fills in the ranks of a sorted list, reading each from the one before where they tie. */
  method AssignRanks(entries: array<Entry>)
    requires Descending(Averages(entries[..]))
    modifies entries
    ensures forall i :: 0 <= i < entries.Length ==>
              entries[i] == old(entries[i]).(rank := Position(old(Averages(entries[..])), old(entries[i].average)))
  {
    ghost var values := Averages(entries[..]);
    for i := 0 to entries.Length
      invariant forall k :: 0 <= k < entries.Length ==> entries[k] == old(entries[k]) || k < i
      invariant forall k :: 0 <= k < i ==> entries[k] == old(entries[k]).(rank := Position(values, values[k]))
    {
      PositionInOrder(values, i);
      if i > 0 && entries[i].average == entries[i - 1].average {
        entries[i] := entries[i].(rank := entries[i - 1].rank);
      } else {
        entries[i] := entries[i].(rank := i + 1);
      }
    }
  }

  /** `rank` is 0 for someone who is not ranked. */
  datatype GlobalStanding = GlobalStanding(ranked: bool, rank: nat, of: nat, best: real)

  /** Accounts that qualify by the measure. */
  function Qualified(tallies: map<UserId, Option<real>>, among: set<UserId>): set<UserId> {
    set id | id in among && id in tallies && tallies[id].Some?
  }

  /** Qualified accounts strictly ahead of a value. */
  function AheadOf(tallies: map<UserId, Option<real>>, among: set<UserId>, value: real): set<UserId> {
    set id | id in Qualified(tallies, among) && tallies[id].value > value
  }

  predicate IsBest(tallies: map<UserId, Option<real>>, among: set<UserId>, best: real) {
    && (best == 0.0 || exists id :: id in Qualified(tallies, among) && tallies[id].value == best)
    && 0.0 <= best && forall id :: id in Qualified(tallies, among) ==> tallies[id].value <= best
  }

  /** Reads the accounts in whatever order the map yields them. */
  method PlaceGlobally(tallies: map<UserId, Option<real>>, viewer: UserId) returns (r: GlobalStanding)
    ensures r.ranked <==> viewer in Qualified(tallies, tallies.Keys)
    ensures r.of == |Qualified(tallies, tallies.Keys)| && IsBest(tallies, tallies.Keys, r.best)
    ensures r.rank == if r.ranked then 1 + |AheadOf(tallies, tallies.Keys, tallies[viewer].value)| else 0
  {
    NobodyRead(tallies, viewer);
    hide Qualified, AheadOf, IsBest;
    var ok := viewer in tallies && tallies[viewer].Some?;
    var mine := if ok then tallies[viewer].value else 0.0;
    var rank, of, best := 0, 0, 0.0;
    var left, read := tallies.Keys, {};
    while left != {}
      invariant left + read == tallies.Keys && left !! read
      invariant of == |Qualified(tallies, read)| && IsBest(tallies, read, best)
      invariant rank == if ok then |AheadOf(tallies, read, mine)| else 0
      decreases |left|
    {
      ghost var witnessed := SomeMember(left);
      var id :| id in left;
      Reading(tallies, read, id, mine);
      ReadingBest(tallies, read, id, best);
      left, read := left - {id}, read + {id};
      if tallies[id].Some? {
        of := of + 1;
        if tallies[id].value > best {
          best := tallies[id].value;
        }
        if ok && tallies[id].value > mine && id != viewer {
          rank := rank + 1;
        }
      }
    }
    assert read == tallies.Keys;
    r := GlobalStanding(ok, if ok then rank + 1 else rank, of, best);
  }

  lemma Reading(tallies: map<UserId, Option<real>>, read: set<UserId>, id: UserId, value: real)
    requires id in tallies && id !in read
    ensures |Qualified(tallies, read + {id})| == |Qualified(tallies, read)| + (if tallies[id].Some? then 1 else 0)
    ensures |AheadOf(tallies, read + {id}, value)| == |AheadOf(tallies, read, value)|
            + (if tallies[id].Some? && tallies[id].value > value then 1 else 0)
  {
    assert Qualified(tallies, read + {id}) == Qualified(tallies, read) + (if tallies[id].Some? then {id} else {});
    assert AheadOf(tallies, read + {id}, value)
        == AheadOf(tallies, read, value) + (if tallies[id].Some? && tallies[id].value > value then {id} else {});
  }

  lemma ReadingBest(tallies: map<UserId, Option<real>>, read: set<UserId>, id: UserId, best: real)
    requires id in tallies && IsBest(tallies, read, best)
    ensures IsBest(tallies, read + {id}, if tallies[id].Some? && tallies[id].value > best then tallies[id].value
                   else best)
  {
  }

  lemma NobodyRead(tallies: map<UserId, Option<real>>, viewer: UserId)
    ensures Qualified(tallies, {}) == {} && IsBest(tallies, {}, 0.0)
    ensures forall value :: AheadOf(tallies, {}, value) == {}
    ensures viewer in Qualified(tallies, tallies.Keys) <==> viewer in tallies && tallies[viewer].Some?
  {
  }

  /** The qualifying accounts, each listed once, with what they measure. */
  predicate Lists(tallies: map<UserId, Option<real>>, ids: seq<UserId>, values: seq<real>) {
    && |ids| == |values|
    && (forall i :: 0 <= i < |ids| ==> ids[i] in tallies && tallies[ids[i]] == Some(values[i]))
    && (forall i, j :: 0 <= i < j < |ids| ==> ids[i] != ids[j])
  }

  lemma {:induction false} AheadCounts(tallies: map<UserId, Option<real>>, ids: seq<UserId>, values: seq<real>,
                                       n: nat, value: real)
    requires Lists(tallies, ids, values) && n <= |ids|
    ensures Ahead(values, n, value) == |AheadOf(tallies, set i | 0 <= i < n :: ids[i], value)|
  {
    var read := set i | 0 <= i < n :: ids[i];
    if n == 0 {
      assert AheadOf(tallies, read, value) == {};
    } else {
      var before := set i | 0 <= i < n - 1 :: ids[i];
      AheadCounts(tallies, ids, values, n - 1, value);
      assert read == before + {ids[n - 1]};
      Reading(tallies, before, ids[n - 1], value);
    }
  }

  /** Listing the qualifying accounts in any order gives each the place the global standing gives it. */
  lemma GlobalRankIsPosition(tallies: map<UserId, Option<real>>, ids: seq<UserId>, values: seq<real>, value: real)
    requires Lists(tallies, ids, values) && forall id :: id in Qualified(tallies, tallies.Keys) ==> id in ids
    ensures Position(values, value) == 1 + |AheadOf(tallies, tallies.Keys, value)|
  {
    AheadCounts(tallies, ids, values, |ids|, value);
    var read := set i | 0 <= i < |ids| :: ids[i];
    assert forall id :: id in Qualified(tallies, tallies.Keys) ==> id in read;
    assert AheadOf(tallies, read, value) == AheadOf(tallies, tallies.Keys, value);
  }

  // ----- Streaks -----

  /** The `n` days from `first` on were all played. */
  ghost predicate AllPlayed(played: set<int>, first: int, n: nat) {
    forall d :: first <= d < first + n ==> d in played
  }

  /** Played on each of the last `n` days up to `last`, and not on the day before those. */
  ghost predicate EndsIn(played: set<int>, last: int, n: nat) {
    AllPlayed(played, last - n + 1, n) && last - n !in played
  }

  ghost predicate MorePlayed(played: set<int>, first: int, n: nat) {
    AllPlayed(played, first, n + 1)
  }

  /** Some `n` days in a row were played, and never `n` days and one more. */
  ghost predicate IsLongest(played: set<int>, n: nat) {
    && (exists first :: AllPlayed(played, first, n))
    && (forall first :: !MorePlayed(played, first, n))
  }

  predicate Increasing(dates: seq<int>) {
    forall i, j :: 0 <= i < j < |dates| ==> dates[i] < dates[j]
  }

  function Days(dates: seq<int>): set<int> {
    set d | d in dates
  }

  /** A later day extends the streak that ends the day before, or starts a new one. */
  lemma OneMoreDay(played: set<int>, d: int, run: nat, longest: nat)
    requires IsLongest(played, longest) && forall p :: p in played ==> p < d
    requires run > 0 && EndsIn(played + {d}, d, run)
    ensures IsLongest(played + {d}, if run > longest then run else longest)
  {
    var now := played + {d};
    assert d - run !in now;
    var best := if run > longest then run else longest;
    if run > longest {
      assert AllPlayed(now, d - run + 1, run);
    } else {
      var first :| AllPlayed(played, first, longest);
      assert AllPlayed(now, first, longest);
    }
    forall first
      ensures !MorePlayed(now, first, best)
    {
      if first + best > d {
        assert first + best !in now;
      } else if first + best < d {
        assert !MorePlayed(played, first, longest);
        var p :| first <= p < first + longest + 1 && p !in played;
        assert p !in now;
      }
    }
  }

  method Streaks(dates: seq<int>, today: int) returns (current: nat, longest: nat)
    requires Increasing(dates)
    ensures IsLongest(Days(dates), longest)
    ensures dates != [] && (dates[|dates| - 1] == today || dates[|dates| - 1] == today - 1) ==>
              EndsIn(Days(dates), dates[|dates| - 1], current)
    ensures dates == [] || (dates[|dates| - 1] != today && dates[|dates| - 1] != today - 1) ==> current == 0
  {
    current, longest := 0, 0;
    var run := 0;
    NoDays();
    for i := 0 to |dates|
      invariant IsLongest(Days(dates[..i]), longest)
      invariant if i == 0 then run == 0 else run > 0 && EndsIn(Days(dates[..i]), dates[i - 1], run)
    {
      var d := dates[i];
      ghost var before := Days(dates[..i]);
      assert Days(dates[..i + 1]) == before + {d};
      if i > 0 && dates[i - 1] + 1 == d {
        run := run + 1;
      } else {
        run := 1;
      }
      ExtendRun(dates, i, run);
      OneMoreDay(before, d, run, longest);
      if run > longest {
        longest := run;
      }
    }
    assert dates[..|dates|] == dates;
    if |dates| > 0 {
      var last := dates[|dates| - 1];
      if last == today || last == today - 1 {
        current := run;
      }
    }
  }

  lemma NoDays()
    ensures IsLongest(Days([]), 0)
  {
    assert AllPlayed(Days([]), 0, 0);
    forall first
      ensures !MorePlayed(Days([]), first, 0)
    {
      assert first !in Days([]);
    }
  }

  lemma ExtendRun(dates: seq<int>, i: nat, run: nat)
    requires Increasing(dates) && i < |dates| && run > 0
    requires if i > 0 && dates[i - 1] + 1 == dates[i] then run > 1 && EndsIn(Days(dates[..i]), dates[i - 1], run - 1)
             else run == 1
    ensures EndsIn(Days(dates[..i + 1]), dates[i], run)
  {
    var d := dates[i];
    assert Days(dates[..i + 1]) == Days(dates[..i]) + {d};
    if run == 1 {
      forall k | 0 <= k < i
        ensures dates[k] != d - 1
      {
        if k < i - 1 {
          assert dates[k] < dates[i - 1] < d;
        }
      }
    } else {
      assert AllPlayed(Days(dates[..i]), dates[i - 1] - (run - 1) + 1, run - 1);
    }
  }
}
