/** The leaderboard (`updateLeaderboard`): living players' rows, best score first, at most ten. */
module Ranking {
  import opened Config
  import opened Entities

  function EntryOf(v: PlayerView): (e: Entry)
  {
    Entry(v.name, v.score, |v.segments|)
  }

  /** The rows the collection loop pushes: one per living player, in table order. */
  function AliveEntries(vs: seq<PlayerView>): (rows: seq<Entry>)
  {
    if vs == [] then []
    else AliveEntries(vs[..|vs| - 1]) + (if vs[|vs| - 1].alive then [EntryOf(vs[|vs| - 1])] else [])
  }

  /** The collected rows are exactly the rows of the living players. */
  lemma {:induction false} AliveEntriesExact(vs: seq<PlayerView>, e: Entry)
    ensures e in AliveEntries(vs) <==> exists i :: 0 <= i < |vs| && vs[i].alive && EntryOf(vs[i]) == e
  {
    if vs != [] {
      var init := vs[..|vs| - 1];
      AliveEntriesExact(init, e);
      if e in AliveEntries(init) {
        var i :| 0 <= i < |init| && init[i].alive && EntryOf(init[i]) == e;
        assert vs[i] == init[i];
      }
      if exists i :: 0 <= i < |vs| && vs[i].alive && EntryOf(vs[i]) == e {
        var i :| 0 <= i < |vs| && vs[i].alive && EntryOf(vs[i]) == e;
        if i < |init| {
          assert init[i] == vs[i];
        }
      }
    }
  }

  /** One row is collected per living player. */
  lemma {:induction false} AliveEntriesCount(vs: seq<PlayerView>)
    ensures |AliveEntries(vs)| == |set i | 0 <= i < |vs| && vs[i].alive|
  {
    if vs != [] {
      var n := |vs| - 1;
      var init := vs[..n];
      AliveEntriesCount(init);
      var before := set i | 0 <= i < |init| && init[i].alive;
      var after := set i | 0 <= i < |vs| && vs[i].alive;
      assert n !in before;
      if vs[n].alive {
        assert after == before + {n};
      } else {
        assert after == before;
      }
    }
  }

  /** The collection loop of `updateLeaderboard` over the players' views, in table order. */
  method CollectRows(vs: seq<PlayerView>) returns (rows: seq<Entry>)
    ensures rows == AliveEntries(vs)
  {
    rows := [];
    var i := 0;
    while i < |vs|
      invariant 0 <= i <= |vs|
      invariant rows == AliveEntries(vs[..i])
    {
      assert vs[..i + 1][..i] == vs[..i];
      if vs[i].alive {
        rows := rows + [EntryOf(vs[i])];
      }
      i := i + 1;
    }
    assert vs[..i] == vs;
  }

  predicate SortedByScore(s: seq<Entry>)
  {
    forall i, j :: 0 <= i < j < |s| ==> s[i].score >= s[j].score
  }

  /** Places `e` after every row whose score is at least its own. */
  function Insert(e: Entry, s: seq<Entry>): (r: seq<Entry>)
  {
    if s == [] then [e]
    else if s[0].score >= e.score then [s[0]] + Insert(e, s[1..])
    else [e] + s
  }

  lemma {:induction false} InsertKeeps(e: Entry, s: seq<Entry>)
    ensures multiset(Insert(e, s)) == multiset(s) + multiset{e}
  {
    if s != [] {
      assert s == [s[0]] + s[1..];
      if s[0].score >= e.score {
        InsertKeeps(e, s[1..]);
      }
    }
  }

  /** Inserting a row no higher than `b` into rows no higher than `b` keeps every row no higher than `b`. */
  lemma {:induction false} InsertBound(e: Entry, s: seq<Entry>, b: int)
    requires e.score <= b && forall x :: x in s ==> x.score <= b
    ensures forall x :: x in Insert(e, s) ==> x.score <= b
  {
    if s != [] && s[0].score >= e.score {
      assert forall x :: x in s[1..] ==> x in s;
      InsertBound(e, s[1..], b);
    }
  }

  /** A row at least as high as every row of a sorted sequence can lead it. */
  lemma ConsSorted(x: Entry, t: seq<Entry>)
    requires SortedByScore(t) && forall y :: y in t ==> y.score <= x.score
    ensures SortedByScore([x] + t)
  {
    var r := [x] + t;
    forall i, j | 0 <= i < j < |r| ensures r[i].score >= r[j].score {
      assert r[j] == t[j - 1];
      if i > 0 {
        assert r[i] == t[i - 1];
      }
    }
  }

  lemma {:induction false} InsertSorted(e: Entry, s: seq<Entry>)
    requires SortedByScore(s)
    ensures SortedByScore(Insert(e, s))
  {
    if s == [] {
    } else if s[0].score >= e.score {
      var rest := s[1..];
      assert SortedByScore(rest) by {
        forall i, j | 0 <= i < j < |rest| ensures rest[i].score >= rest[j].score {
          assert rest[i] == s[i + 1] && rest[j] == s[j + 1];
        }
      }
      assert forall y :: y in rest ==> y.score <= s[0].score by {
        forall y | y in rest ensures y.score <= s[0].score {
          var j :| 0 <= j < |rest| && rest[j] == y;
          assert s[j + 1] == y;
        }
      }
      InsertSorted(e, rest);
      InsertBound(e, rest, s[0].score);
      ConsSorted(s[0], Insert(e, rest));
    } else {
      assert forall y :: y in s ==> y.score <= e.score by {
        forall y | y in s ensures y.score <= e.score {
          var j :| 0 <= j < |s| && s[j] == y;
          assert s[0].score >= s[j].score || j == 0;
        }
      }
      ConsSorted(e, s);
    }
  }

  /** `scores.sort((a, b) => b.score - a.score)`, as an insertion sort. */
  function SortByScore(s: seq<Entry>): (r: seq<Entry>)
  {
    if s == [] then [] else Insert(s[|s| - 1], SortByScore(s[..|s| - 1]))
  }

  /** The sort orders by score, highest first, and keeps every row. */
  lemma {:induction false} SortByScoreCorrect(s: seq<Entry>)
    ensures SortedByScore(SortByScore(s))
    ensures multiset(SortByScore(s)) == multiset(s)
  {
    if s != [] {
      var init := s[..|s| - 1];
      SortByScoreCorrect(init);
      InsertSorted(s[|s| - 1], SortByScore(init));
      InsertKeeps(s[|s| - 1], SortByScore(init));
      assert s == init + [s[|s| - 1]];
    }
  }

  /** `scores.slice(0, 10)` of the sorted rows. */
  function TopScores(rows: seq<Entry>): (r: seq<Entry>)
  {
    var sorted := SortByScore(rows);
    if |sorted| <= LeaderboardSize then sorted else sorted[..LeaderboardSize]
  }

  function Leaderboard(vs: seq<PlayerView>): (r: seq<Entry>)
  {
    TopScores(AliveEntries(vs))
  }

  /** The leaderboard holds min(10, living players) rows, best score first. */
  lemma LeaderboardShape(vs: seq<PlayerView>)
    ensures |Leaderboard(vs)| == Min(LeaderboardSize, |AliveEntries(vs)|)
    ensures SortedByScore(Leaderboard(vs))
    ensures multiset(Leaderboard(vs)) <= multiset(AliveEntries(vs))
  {
    var rows := AliveEntries(vs);
    var sorted := SortByScore(rows);
    SortByScoreCorrect(rows);
    assert |sorted| == |rows| by {
      assert |multiset(sorted)| == |multiset(rows)|;
    }
    var lb := Leaderboard(vs);
    assert sorted == lb + sorted[|lb|..];
    assert multiset(sorted) == multiset(lb) + multiset(sorted[|lb|..]);
  }

  /** Every row on the leaderboard is the row of a living player. */
  lemma LeaderboardAlive(vs: seq<PlayerView>, e: Entry)
    requires e in Leaderboard(vs)
    ensures exists i :: 0 <= i < |vs| && vs[i].alive && EntryOf(vs[i]) == e
  {
    LeaderboardShape(vs);
    assert e in multiset(Leaderboard(vs));
    AliveEntriesExact(vs, e);
  }

  /**
   * No copy of a living player's row left off the leaderboard outscores a
   * row on it: whenever the board holds fewer copies of `e` than were
   * collected, every row on the board scores at least `e`'s score.
   */
  lemma LeaderboardTop(vs: seq<PlayerView>, e: Entry, k: int)
    requires multiset(AliveEntries(vs))[e] > multiset(Leaderboard(vs))[e] && 0 <= k < |Leaderboard(vs)|
    ensures e.score <= Leaderboard(vs)[k].score
  {
    var rows := AliveEntries(vs);
    var sorted := SortByScore(rows);
    SortByScoreCorrect(rows);
    var lb := Leaderboard(vs);
    assert lb == sorted[..|lb|];
    var rest := sorted[|lb|..];
    assert sorted == lb + rest;
    assert multiset(sorted) == multiset(lb) + multiset(rest);
    assert e in rest;
    var j :| 0 <= j < |rest| && rest[j] == e;
    assert sorted[|lb| + j] == e;
    assert sorted[k] == lb[k];
  }
}
