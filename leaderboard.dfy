/**
 * `send_leaderboard` and `send_daily_survivor_report`: which players make each
 * board, in which order, and the lines shown for them. Every board is a filter of
 * the store's rows in insertion order, a stable descending sort, the first ten,
 * and a medal or "**i.**" label per rank.
 */
module Leaderboard {
  import opened Util
  import opened Text
  import opened Render
  import opened Ranking
  import Stats

  type Row = (string, Stats.PlayerRecord)

  /** `player_stats.items()`, in insertion order. */
  function RowsOf(order: seq<string>, players: map<string, Stats.PlayerRecord>): seq<Row>
  {
    if order == [] then []
    else (if order[0] in players then [(order[0], players[order[0]])] else []) + RowsOf(order[1..], players)
  }

  function Rows(s: Stats.Store): seq<Row>
  {
    RowsOf(s.order, s.players)
  }

  lemma {:induction false} RowsOfCorrect(order: seq<string>, players: map<string, Stats.PlayerRecord>)
    requires forall u :: u in order ==> u in players
    ensures |RowsOf(order, players)| == |order|
    ensures forall i :: 0 <= i < |order| ==> RowsOf(order, players)[i] == (order[i], players[order[i]])
  {
    if order != [] {
      RowsOfCorrect(order[1..], players);
      var r := RowsOf(order, players);
      forall i | 0 <= i < |order| ensures r[i] == (order[i], players[order[i]]) {
        if i > 0 {
          assert r[i] == RowsOf(order[1..], players)[i - 1];
        }
      }
    }
  }

  /** The rows are exactly the store's players with their records, once each, in
      insertion order. */
  lemma RowsCorrect(s: Stats.Store)
    requires Stats.Valid(s)
    ensures |Rows(s)| == |s.order|
    ensures forall i :: 0 <= i < |s.order| ==> Rows(s)[i] == (s.order[i], s.players[s.order[i]])
    ensures forall x: Row :: x in Rows(s) <==> x.0 in s.players && x.1 == s.players[x.0]
    ensures forall i, j :: 0 <= i < j < |Rows(s)| ==> Rows(s)[i].0 != Rows(s)[j].0
  {
    RowsOfCorrect(s.order, s.players);
    forall x: Row | x.0 in s.players && x.1 == s.players[x.0] ensures x in Rows(s) {
      var i :| 0 <= i < |s.order| && s.order[i] == x.0;
      assert Rows(s)[i] == x;
    }
  }

  /** What `send_leaderboard` sends: nothing (empty store or empty selection), one
      board, or, for an unknown type on a non-empty store, the `UnboundLocalError`
      the final `send_discord_notification(embed)` raises. */
  datatype Board = NoBoard | Board(embed: Embed) | UnknownBoard

  const BoardSize: nat := 10

  /** The board lines from rank `i` on, one per row, each drawn with its rank. */
  function Numbered<R>(rows: seq<R>, line: (nat, R) -> string, i: nat): seq<string>
    decreases |rows| - i
  {
    if i >= |rows| then [] else [line(i, rows[i])] + Numbered(rows, line, i + 1)
  }

  lemma {:induction false} NumberedLength<R>(rows: seq<R>, line: (nat, R) -> string, i: nat)
    requires i <= |rows|
    ensures |Numbered(rows, line, i)| == |rows| - i
    decreases |rows| - i
  {
    if i < |rows| {
      NumberedLength(rows, line, i + 1);
    }
  }

  lemma {:induction false} NumberedAt<R>(rows: seq<R>, line: (nat, R) -> string, i: nat, k: nat)
    requires i <= k < |rows|
    ensures |Numbered(rows, line, i)| == |rows| - i
    ensures Numbered(rows, line, i)[k - i] == line(k, rows[k])
    decreases |rows| - i
  {
    NumberedLength(rows, line, i);
    if i < k {
      NumberedAt(rows, line, i + 1, k);
    }
  }

  /** The ranks from `i` on whose rows `keep` accepts, in increasing order. */
  function KeptRanks<R>(rows: seq<R>, keep: R -> bool, i: nat): (ks: seq<nat>)
    ensures i <= |rows| ==> |ks| <= |rows| - i
    ensures forall j :: 0 <= j < |ks| ==> i <= ks[j] < |rows|
    decreases |rows| - i
  {
    if i >= |rows| then [] else (if keep(rows[i]) then [i] else []) + KeptRanks(rows, keep, i + 1)
  }

  /** The board lines from rank `i` on, skipping a row `keep` rejects; a kept row is
      still drawn with its own rank, so a skipped row leaves its rank unused. */
  function NumberedIf<R>(rows: seq<R>, keep: R -> bool, line: (nat, R) -> string, i: nat): seq<string>
    decreases |rows| - i
  {
    if i >= |rows| then []
    else (if keep(rows[i]) then [line(i, rows[i])] else []) + NumberedIf(rows, keep, line, i + 1)
  }

  /** The kept ranks are exactly the accepted rows, strictly increasing. */
  lemma {:induction false} KeptRanksCorrect<R>(rows: seq<R>, keep: R -> bool, i: nat)
    requires i <= |rows|
    ensures var ks := KeptRanks(rows, keep, i);
      && (forall j, j' :: 0 <= j < j' < |ks| ==> ks[j] < ks[j'])
      && forall k :: i <= k < |rows| ==> (k in ks <==> keep(rows[k]))
    decreases |rows| - i
  {
    if i < |rows| {
      KeptRanksCorrect(rows, keep, i + 1);
    }
  }

  /** The `j`-th line drawn is the line of the `j`-th kept rank. */
  lemma {:induction false} NumberedIfAt<R>(rows: seq<R>, keep: R -> bool, line: (nat, R) -> string, i: nat)
    requires i <= |rows|
    ensures var ks, lines := KeptRanks(rows, keep, i), NumberedIf(rows, keep, line, i);
      && |lines| == |ks|
      && forall j :: 0 <= j < |ks| ==> lines[j] == line(ks[j], rows[ks[j]])
    decreases |rows| - i
  {
    if i < |rows| {
      NumberedIfAt(rows, keep, line, i + 1);
      var ks, lines := KeptRanks(rows, keep, i), NumberedIf(rows, keep, line, i);
      var ks', lines' := KeptRanks(rows, keep, i + 1), NumberedIf(rows, keep, line, i + 1);
      if keep(rows[i]) {
        assert ks == [i] + ks' && lines == [line(i, rows[i])] + lines';
        forall j | 0 < j < |ks| ensures lines[j] == line(ks[j], rows[ks[j]]) {
          assert ks[j] == ks'[j - 1] && lines[j] == lines'[j - 1];
        }
      } else {
        assert ks == ks' && lines == lines';
      }
    }
  }

  // ---------------------------------------------------------------- death

  function Deaths(r: Row): real
  {
    r.1.totalDeaths as real
  }

  predicate HasDied(r: Row)
  {
    r.1.totalDeaths > 0
  }

  function DeathRows(s: Stats.Store): seq<Row>
  {
    Top(Filter(Rows(s), HasDied), Deaths, BoardSize)
  }

  function DeathLine(i: nat, r: Row): string
  {
    RankLabel(i) + DeathEntry(r)
  }

  /** The part of a death-board line after the rank label. */
  function DeathEntry(r: Row): string
  {
    var d := r.1.totalDeaths;
    var avg := if d > 0 then r.1.lifetime.totalHoursSurvived / d as real else 0.0;
    " " + r.0 + ": **" + IntToString(d) + "** death" + Plural(d) + " (avg: " + FormatTime(avg) + ")"
  }

  function DeathBoard(s: Stats.Store): Board
  {
    var rows := DeathRows(s);
    if rows == [] then NoBoard
    else Board(Embed("\U{1F480} Death Leaderboard \U{1F480}",
                     Numbered(rows, DeathLine, 0), 0x9900FF))
  }

  // ---------------------------------------------------------------- survival

  function Longest(r: Row): real
  {
    r.1.lifetime.longestSurvival
  }

  function SurvivalRows(s: Stats.Store): seq<Row>
  {
    Top(Rows(s), Longest, BoardSize)
  }

  function SurvivalLine(i: nat, r: Row): string
  {
    RankLabel(i) + SurvivalEntry(r)
  }

  function SurvivalEntry(r: Row): string
  {
    " " + r.0 + ": " + FormatTime(Longest(r)) + (if r.1.current.alive then " \U{1F7E2}" else "")
  }

  /** `if longest == 0: continue`. */
  function Survived(r: Row): bool
  {
    Longest(r) != 0.0
  }

  /** The lines from rank `i` on; a row with no survival is skipped but keeps its rank. */
  function SurvivalLines(rows: seq<Row>, i: nat): seq<string>
  {
    NumberedIf(rows, Survived, SurvivalLine, i)
  }

  function SurvivalBoard(s: Stats.Store): Board
  {
    var lines := SurvivalLines(SurvivalRows(s), 0);
    if lines == [] then NoBoard
    else Board(Embed("\U{23F1}\U{FE0F} Longest Survival Streaks \U{23F1}\U{FE0F}",
                     lines + ["", "\U{1F7E2} = Currently Alive"], 0x00BFFF))
  }

  // ---------------------------------------------------------------- hours

  function TotalHours(r: Row): real
  {
    r.1.lifetime.totalHoursSurvived
  }

  predicate HasHours(r: Row)
  {
    r.1.lifetime.totalHoursSurvived > 0.0
  }

  function HoursRows(s: Stats.Store): seq<Row>
  {
    Top(Filter(Rows(s), HasHours), TotalHours, BoardSize)
  }

  function HoursLine(i: nat, r: Row): string
  {
    RankLabel(i) + (" " + r.0 + ": " + FormatTime(TotalHours(r)))
  }

  function HoursBoard(s: Stats.Store): Board
  {
    var rows := HoursRows(s);
    if rows == [] then NoBoard
    else Board(Embed("\U{1F3C6} Most Experienced Survivors \U{1F3C6}",
                     Numbered(rows, HoursLine, 0), 0xFFD700))
  }

  // ---------------------------------------------------------------- skill_<name>

  type Entry = (string, int)

  function EntryLevel(e: Entry): real
  {
    e.1 as real
  }

  /** A live player ranks by the current level, a dead one by the lifetime milestone. */
  function Candidate(r: Row, skill: string): seq<Entry>
  {
    var p := r.1;
    var current := Get(p.current.skills, skill, 0);
    var milestone := Get(p.lifetime.skillMilestones, skill, 0);
    (if p.current.alive && current > 0 then [(r.0, current)] else [])
      + (if milestone > 0 && !p.current.alive then [(r.0, milestone)] else [])
  }

  /** The comprehension over `player_stats.items()`, in insertion order. */
  function Candidates(rows: seq<Row>, skill: string): seq<Entry>
  {
    if rows == [] then [] else Candidate(rows[0], skill) + Candidates(rows[1..], skill)
  }

  function SkillEmoji(skill: string): string
  {
    if skill == "Aiming" then "\U{1F3AF}"
    else if skill == "Fitness" then "\U{1F4AA}"
    else if skill == "Strength" then "\U{1F3CB}\U{FE0F}"
    else if skill == "Cooking" then "\U{1F373}"
    else if skill == "Farming" then "\U{1F33E}"
    else if skill == "Mechanics" then "\U{1F527}"
    else if skill == "Carpentry" then "\U{1F528}"
    else "\U{1F4CA}"
  }

  /** `leaderboard_type.replace("skill_", "")`: every occurrence is removed, not just the prefix. */
  function SkillName(kind: string): string
  {
    RemoveAll(kind, "skill_")
  }

  function SkillRows(s: Stats.Store, skill: string): seq<Entry>
  {
    Top(Candidates(Rows(s), skill), EntryLevel, BoardSize)
  }

  function SkillLine(i: nat, e: Entry): string
  {
    RankLabel(i) + (" " + e.0 + ": Level **" + IntToString(e.1) + "**")
  }

  function SkillBoard(s: Stats.Store, skill: string): Board
  {
    var rows := SkillRows(s, skill);
    if Candidates(Rows(s), skill) == [] then NoBoard
    else
      var emoji := SkillEmoji(skill);
      Board(Embed(emoji + " Top " + skill + " Masters " + emoji,
                  Numbered(rows, SkillLine, 0), 0x1E90FF))
  }

  // ---------------------------------------------------------------- send_leaderboard

  function SendLeaderboard(s: Stats.Store, kind: string): Board
  {
    if s.players == map[] then NoBoard
    else if kind == "death" then DeathBoard(s)
    else if kind == "survival" then SurvivalBoard(s)
    else if kind == "hours" then HoursBoard(s)
    else if StartsWith(kind, "skill_") then SkillBoard(s, SkillName(kind))
    else UnknownBoard
  }

  /** An empty store sends nothing whatever the type; on a non-empty store exactly
      the four known families are accepted and any other type raises. */
  lemma SendLeaderboardCases(s: Stats.Store, kind: string)
    ensures s.players == map[] ==> SendLeaderboard(s, kind) == NoBoard
    ensures s.players != map[] ==>
      (SendLeaderboard(s, kind) == UnknownBoard <==>
         kind != "death" && kind != "survival" && kind != "hours" && !StartsWith(kind, "skill_"))
  {
    if s.players != map[] && StartsWith(kind, "skill_") {
      assert kind[..6] == "skill_";
    }
  }

  /** `skill_` followed by a name without `skill_` in it names that skill. */
  lemma SkillNameOfKind(name: string)
    requires !Occurs("skill_", name)
    ensures StartsWith("skill_" + name, "skill_")
    ensures SkillName("skill_" + name) == name
  {
    var kind := "skill_" + name;
    assert kind[..6] == "skill_";
    assert kind[6..] == name;
    RemoveAllAbsent(name, "skill_");
  }

  // ---------------------------------------------------------------- what the boards select

  /** A board's selection from a pool: at most ten rows, the whole pool when it is
      smaller, in non-increasing key order, each from the pool, and no pool member
      left out ranks above one kept. */
  ghost predicate Selected<T>(rows: seq<T>, pool: seq<T>, key: T -> real)
  {
    && |rows| <= BoardSize
    && (|rows| < BoardSize ==> forall x :: x in pool ==> x in rows)
    && SortedDesc(rows, key)
    && (forall x :: x in rows ==> x in pool)
    && (forall x, y :: x in pool && x !in rows && y in rows ==> key(x) <= key(y))
  }

  /** `sorted(pool, key=key, reverse=True)[:10]` is such a selection. */
  lemma TopSelected<T>(pool: seq<T>, key: T -> real)
    ensures Selected(Top(pool, key, BoardSize), pool, key)
  {
    var r := Top(pool, key, BoardSize);
    TopCorrect(pool, key, BoardSize);
    forall x | x in r ensures x in pool {
      assert x in multiset(r);
      assert x in multiset(pool);
    }
    forall x, y | x in pool && x !in r && y in r ensures key(x) <= key(y) {
      assert multiset(r)[x] == 0;
      assert x in multiset(pool) - multiset(r);
    }
    if |r| < BoardSize {
      assert |multiset(pool) - multiset(r)| == 0;
      forall x | x in pool ensures x in r {
        assert x in multiset(pool);
        assert multiset(pool)[x] <= multiset(r)[x];
      }
    }
    assert |r| <= BoardSize;
    assert SortedDesc(r, key);
  }

  /** The death board draws from the players who have died, most deaths first (ties
      in insertion order); it is sent exactly when someone has died. */
  lemma DeathBoardCorrect(s: Stats.Store)
    ensures Selected(DeathRows(s), Filter(Rows(s), HasDied), Deaths)
    ensures forall x :: x in DeathRows(s) ==> x in Rows(s) && HasDied(x)
    ensures s.players != map[] ==>
      (SendLeaderboard(s, "death") == NoBoard <==> forall x :: x in Rows(s) ==> !HasDied(x))
  {
    var pool := Filter(Rows(s), HasDied);
    TopSelected(pool, Deaths);
    if exists x :: x in Rows(s) && HasDied(x) {
      var x :| x in Rows(s) && HasDied(x);
      assert x in pool;
    } else if pool != [] {
      assert pool[0] in pool;
    }
    if s.players != map[] {
      assert SendLeaderboard(s, "death") == DeathBoard(s);
    }
  }

  /** The hours board draws from the players with positive lifetime hours, most first. */
  lemma HoursBoardCorrect(s: Stats.Store)
    ensures Selected(HoursRows(s), Filter(Rows(s), HasHours), TotalHours)
    ensures forall x :: x in HoursRows(s) ==> x in Rows(s) && HasHours(x)
    ensures s.players != map[] ==>
      (SendLeaderboard(s, "hours") == NoBoard <==> forall x :: x in Rows(s) ==> !HasHours(x))
  {
    var pool := Filter(Rows(s), HasHours);
    TopSelected(pool, TotalHours);
    if exists x :: x in Rows(s) && HasHours(x) {
      var x :| x in Rows(s) && HasHours(x);
      assert x in pool;
    } else if pool != [] {
      assert pool[0] in pool;
    }
    if s.players != map[] {
      assert SendLeaderboard(s, "hours") == HoursBoard(s);
    }
  }

  lemma SurvivalLinesCount(rows: seq<Row>, i: nat)
    requires i <= |rows|
    ensures |SurvivalLines(rows, i)| <= |rows| - i
    ensures SurvivalLines(rows, i) == [] <==> forall k :: i <= k < |rows| ==> Longest(rows[k]) == 0.0
  {
    var ks := KeptRanks(rows, Survived, i);
    NumberedIfAt(rows, Survived, SurvivalLine, i);
    KeptRanksCorrect(rows, Survived, i);
    if ks != [] {
      assert ks[0] in ks;
    }
  }

  /** The survival lines are, in rank order, one line for each row that has survived
      some time, drawn with that row's own rank label: a row with no survival is
      dropped and the ranks after it are not renumbered. */
  lemma SurvivalLinesRanked(rows: seq<Row>)
    ensures var ks, lines := KeptRanks(rows, Survived, 0), SurvivalLines(rows, 0);
      && (forall j, j' :: 0 <= j < j' < |ks| ==> ks[j] < ks[j'])
      && (forall k :: 0 <= k < |rows| ==> (k in ks <==> Longest(rows[k]) != 0.0))
      && |lines| == |ks|
      && forall j :: 0 <= j < |ks| ==>
           lines[j] == SurvivalLine(ks[j], rows[ks[j]]) && StartsWith(lines[j], RankLabel(ks[j]))
  {
    var ks, lines := KeptRanks(rows, Survived, 0), SurvivalLines(rows, 0);
    KeptRanksCorrect(rows, Survived, 0);
    NumberedIfAt(rows, Survived, SurvivalLine, 0);
    forall j | 0 <= j < |ks| ensures StartsWith(lines[j], RankLabel(ks[j])) {
      LabelStarts(ks[j], SurvivalEntry(rows[ks[j]]));
    }
  }

  /** The survival board ranks all players by longest survival, keeps the first ten,
      then drops the rows with no survival at all (their ranks stay unused); it sends
      nothing exactly when none of the ten has survived any time. */
  lemma SurvivalBoardCorrect(s: Stats.Store)
    ensures Selected(SurvivalRows(s), Rows(s), Longest)
    ensures |SurvivalLines(SurvivalRows(s), 0)| <= |SurvivalRows(s)|
    ensures s.players != map[] ==>
      (SendLeaderboard(s, "survival") == NoBoard <==>
         forall k :: 0 <= k < |SurvivalRows(s)| ==> Longest(SurvivalRows(s)[k]) == 0.0)
  {
    TopSelected(Rows(s), Longest);
    SurvivalLinesCount(SurvivalRows(s), 0);
  }

  lemma CandidateShape(r: Row, skill: string)
    ensures |Candidate(r, skill)| <= 1
    ensures forall e :: e in Candidate(r, skill) ==> e.0 == r.0
  {
  }

  /** Every candidate comes from one row, under that row's name. */
  lemma {:induction false} CandidatesSound(rows: seq<Row>, skill: string, e: Entry)
    requires e in Candidates(rows, skill)
    ensures exists k :: 0 <= k < |rows| && e in Candidate(rows[k], skill) && rows[k].0 == e.0
  {
    CandidateShape(rows[0], skill);
    if e !in Candidate(rows[0], skill) {
      CandidatesSound(rows[1..], skill, e);
      var k :| 0 <= k < |rows[1..]| && e in Candidate(rows[1..][k], skill) && rows[1..][k].0 == e.0;
      assert rows[1..][k] == rows[k + 1];
    }
  }

  /** Every row's candidate is among the candidates. */
  lemma {:induction false} CandidatesComplete(rows: seq<Row>, skill: string, k: nat, e: Entry)
    requires k < |rows| && e in Candidate(rows[k], skill)
    ensures e in Candidates(rows, skill)
  {
    if k > 0 {
      assert rows[1..][k - 1] == rows[k];
      CandidatesComplete(rows[1..], skill, k - 1, e);
    }
  }

  /** Rows with distinct names give candidates with distinct names: each player
      appears at most once on a skill board. */
  lemma {:induction false} CandidatesDistinct(rows: seq<Row>, skill: string)
    requires forall i, j :: 0 <= i < j < |rows| ==> rows[i].0 != rows[j].0
    ensures forall i, j :: 0 <= i < j < |Candidates(rows, skill)| ==> Candidates(rows, skill)[i].0 != Candidates(rows, skill)[j].0
  {
    if rows != [] {
      var head := Candidate(rows[0], skill);
      var rest := Candidates(rows[1..], skill);
      CandidateShape(rows[0], skill);
      assert forall i, j :: 0 <= i < j < |rows[1..]| ==> rows[1..][i].0 != rows[1..][j].0 by {
        forall i, j | 0 <= i < j < |rows[1..]| ensures rows[1..][i].0 != rows[1..][j].0 {
          assert rows[1..][i] == rows[i + 1] && rows[1..][j] == rows[j + 1];
        }
      }
      CandidatesDistinct(rows[1..], skill);
      var c := Candidates(rows, skill);
      assert c == head + rest;
      forall i, j | 0 <= i < j < |c| ensures c[i].0 != c[j].0 {
        if i < |head| {
          assert c[i] in head;
          assert c[j] == rest[j - |head|];
          CandidatesSound(rows[1..], skill, c[j]);
          var k :| 0 <= k < |rows[1..]| && c[j] in Candidate(rows[1..][k], skill) && rows[1..][k].0 == c[j].0;
          assert rows[1..][k] == rows[k + 1];
        } else {
          assert c[i] == rest[i - |head|] && c[j] == rest[j - |head|];
        }
      }
    }
  }

  /** A live player ranks at the current level, a dead one at the lifetime milestone,
      and only above zero. */
  predicate RanksAt(r: Row, skill: string, e: Entry)
  {
    && e.0 == r.0 && e.1 > 0
    && (r.1.current.alive ==> e.1 == Get(r.1.current.skills, skill, 0))
    && (!r.1.current.alive ==> e.1 == Get(r.1.lifetime.skillMilestones, skill, 0))
  }

  /** The skill board draws, for each player, the current level of a live player or
      the lifetime milestone of a dead one, when above zero; every such level is a
      candidate, each player appears at most once, and the highest ten are listed. */
  lemma SkillBoardCorrect(s: Stats.Store, skill: string)
    requires Stats.Valid(s)
    ensures Selected(SkillRows(s, skill), Candidates(Rows(s), skill), EntryLevel)
    ensures forall e :: e in Candidates(Rows(s), skill) ==> exists x :: x in Rows(s) && RanksAt(x, skill, e)
    ensures forall x, e :: x in Rows(s) && RanksAt(x, skill, e) ==> e in Candidates(Rows(s), skill)
    ensures forall e, f :: e in SkillRows(s, skill) && f in SkillRows(s, skill) && e.0 == f.0 ==> e == f
  {
    var rows := Rows(s);
    var c := Candidates(rows, skill);
    TopSelected(c, EntryLevel);
    CandidatesRank(rows, skill);
    RowsCorrect(s);
    CandidatesDistinct(rows, skill);
    SelectedDistinct(SkillRows(s, skill), c);
  }

  /** Every candidate is ranked from some row, and every ranked entry is a candidate. */
  lemma CandidatesRank(rows: seq<Row>, skill: string)
    ensures forall e :: e in Candidates(rows, skill) ==> exists x :: x in rows && RanksAt(x, skill, e)
    ensures forall x, e :: x in rows && RanksAt(x, skill, e) ==> e in Candidates(rows, skill)
  {
    var c := Candidates(rows, skill);
    forall e | e in c ensures exists x :: x in rows && RanksAt(x, skill, e) {
      CandidatesSound(rows, skill, e);
      var k :| 0 <= k < |rows| && e in Candidate(rows[k], skill) && rows[k].0 == e.0;
      assert rows[k] in rows;
    }
    forall x, e | x in rows && RanksAt(x, skill, e) ensures e in c {
      var k :| 0 <= k < |rows| && rows[k] == x;
      CandidatesComplete(rows, skill, k, e);
    }
  }

  /** Entries drawn from candidates with distinct names have distinct names. */
  lemma SelectedDistinct(r: seq<Entry>, c: seq<Entry>)
    requires forall e :: e in r ==> e in c
    requires forall i, j :: 0 <= i < j < |c| ==> c[i].0 != c[j].0
    ensures forall e, f :: e in r && f in r && e.0 == f.0 ==> e == f
  {
    forall e, f | e in r && f in r && e.0 == f.0 ensures e == f {
      var i :| 0 <= i < |c| && c[i] == e;
      var j :| 0 <= j < |c| && c[j] == f;
    }
  }

  /** Each line of the death board starts with its rank's label, one line per row. */
  lemma DeathLinesRanked(s: Stats.Store)
    requires DeathBoard(s).Board?
    ensures |DeathBoard(s).embed.lines| == |DeathRows(s)|
    ensures forall i :: 0 <= i < |DeathRows(s)| ==> StartsWith(DeathBoard(s).embed.lines[i], RankLabel(i))
  {
    var rows := DeathRows(s);
    var lines := DeathBoard(s).embed.lines;
    assert lines == Numbered(rows, DeathLine, 0);
    NumberedLength(rows, DeathLine, 0);
    forall i | 0 <= i < |rows| ensures StartsWith(lines[i], RankLabel(i)) {
      NumberedAt(rows, DeathLine, 0, i);
      LabelStarts(i, DeathEntry(rows[i]));
    }
  }

  lemma HoursLinesRanked(s: Stats.Store)
    requires HoursBoard(s).Board?
    ensures |HoursBoard(s).embed.lines| == |HoursRows(s)|
    ensures forall i :: 0 <= i < |HoursRows(s)| ==> StartsWith(HoursBoard(s).embed.lines[i], RankLabel(i))
  {
    var rows := HoursRows(s);
    var lines := HoursBoard(s).embed.lines;
    assert lines == Numbered(rows, HoursLine, 0);
    NumberedLength(rows, HoursLine, 0);
    forall i | 0 <= i < |rows| ensures StartsWith(lines[i], RankLabel(i)) {
      NumberedAt(rows, HoursLine, 0, i);
      LabelStarts(i, " " + rows[i].0 + ": " + FormatTime(TotalHours(rows[i])));
    }
  }

  lemma SkillLinesRanked(s: Stats.Store, skill: string)
    requires SkillBoard(s, skill).Board?
    ensures |SkillBoard(s, skill).embed.lines| == |SkillRows(s, skill)|
    ensures forall i :: 0 <= i < |SkillRows(s, skill)| ==> StartsWith(SkillBoard(s, skill).embed.lines[i], RankLabel(i))
  {
    var rows := SkillRows(s, skill);
    var lines := SkillBoard(s, skill).embed.lines;
    assert lines == Numbered(rows, SkillLine, 0);
    NumberedLength(rows, SkillLine, 0);
    forall i | 0 <= i < |rows| ensures StartsWith(lines[i], RankLabel(i)) {
      NumberedAt(rows, SkillLine, 0, i);
      LabelStarts(i, " " + rows[i].0 + ": Level **" + IntToString(rows[i].1) + "**");
    }
  }

  lemma LabelStarts(i: nat, rest: string)
    ensures StartsWith(RankLabel(i) + rest, RankLabel(i))
  {
    assert (RankLabel(i) + rest)[..|RankLabel(i)|] == RankLabel(i);
  }

  // ---------------------------------------------------------------- daily report

  /** One entry of a `daily_survivors` event. */
  datatype Survivor = Survivor(username: string, hours: real, x: int, y: int, z: int)

  function SurvivorHours(s: Survivor): real
  {
    s.hours
  }

  const ReportSize: nat := 15
  const LocatedRows: nat := 5

  function RankLine(i: nat, s: Survivor): string
  {
    RankLabel(i) + " **" + s.username + "** - " + FormatTime(s.hours)
  }

  function LocationLine(s: Survivor): string
  {
    "      \U{1F4CD} (" + IntToString(s.x) + ", " + IntToString(s.y) + ", " + IntToString(s.z) + ")"
  }

  /** The lines for rank `i`: the rank line, plus the location for the first five. */
  function Block(i: nat, s: Survivor): seq<string>
  {
    [RankLine(i, s)] + (if i < LocatedRows then [LocationLine(s)] else [])
  }

  /** The lines of `rows[i..]`, each row contributing the lines `block` gives it. */
  function Chunks<R>(rows: seq<R>, block: (nat, R) -> seq<string>, i: nat): seq<string>
    decreases |rows| - i
  {
    if i >= |rows| then [] else block(i, rows[i]) + Chunks(rows, block, i + 1)
  }

  function Blocks(rows: seq<Survivor>, i: nat): seq<string>
  {
    Chunks(rows, Block, i)
  }

  /** The report for survivors already in report order; `rows[..15]` are listed. */
  function ReportOfSorted(gameDay: int, rows: seq<Survivor>): Embed
  {
    Embed("\U{1F305} Daily Survivor Status Report",
          [Header(gameDay)] + Blocks(Take(rows, ReportSize), 0) + MoreLines(|rows|),
          0x00FF00)
  }

  function Header(gameDay: int): string
  {
    "**\U{2600}\U{FE0F} Day " + IntToString(gameDay + 1) + " Dawn Report**\n"
  }

  /** The closing line, only when some survivors are not listed. */
  function MoreLines(n: int): seq<string>
  {
    if n > ReportSize then [MoreLine(n)] else []
  }

  /** `send_daily_survivor_report`: nothing for an empty list, else the report for
      the survivors in non-increasing hours (ties in the order received). */
  function DailyReport(gameDay: int, survivors: seq<Survivor>): Option<Embed>
  {
    if survivors == [] then None else Some(ReportOfSorted(gameDay, SortDesc(survivors, SurvivorHours)))
  }

  /** Where the rank line of rank `k` sits among the block lines. */
  function RankLinePosition(k: nat): nat
  {
    k + Min(k, LocatedRows)
  }

  lemma BlocksAt(rows: seq<Survivor>, i: nat, k: nat)
    requires i <= k < |rows|
    ensures |Blocks(rows, i)| > RankLinePosition(k) - RankLinePosition(i)
    ensures Blocks(rows, i)[RankLinePosition(k) - RankLinePosition(i)] == RankLine(k, rows[k])
  {
    forall j | i <= j < |rows|
      ensures |Block(j, rows[j])| == RankLinePosition(j + 1) - RankLinePosition(j) > 0
      ensures Block(j, rows[j])[0] == RankLine(j, rows[j])
    {
    }
    ChunksAt(rows, Block, RankLine, i, k);
  }

  /** Where each block starts with the row's rank line and takes `RankLinePosition` room,
      rank line `k` sits at its position. */
  lemma {:induction false} ChunksAt<R>(rows: seq<R>, block: (nat, R) -> seq<string>, line: (nat, R) -> string, i: nat, k: nat)
    requires i <= k < |rows|
    requires forall j :: i <= j < |rows| ==>
      |block(j, rows[j])| == RankLinePosition(j + 1) - RankLinePosition(j) > 0 && block(j, rows[j])[0] == line(j, rows[j])
    ensures |Chunks(rows, block, i)| > RankLinePosition(k) - RankLinePosition(i)
    ensures Chunks(rows, block, i)[RankLinePosition(k) - RankLinePosition(i)] == line(k, rows[k])
    decreases k - i
  {
    var b := block(i, rows[i]);
    assert |b| == RankLinePosition(i + 1) - RankLinePosition(i) > 0 && b[0] == line(i, rows[i]);
    assert Chunks(rows, block, i) == b + Chunks(rows, block, i + 1);
    if i < k {
      ChunksAt(rows, block, line, i + 1, k);
    }
  }

  /** Line `d` of the block of rank `k` sits `d` lines after that rank's line. */
  lemma {:induction false} ChunksAtLine<R>(rows: seq<R>, block: (nat, R) -> seq<string>, i: nat, k: nat, d: nat)
    requires i <= k < |rows|
    requires forall j :: i <= j < |rows| ==> |block(j, rows[j])| == RankLinePosition(j + 1) - RankLinePosition(j)
    requires d < |block(k, rows[k])|
    ensures |Chunks(rows, block, i)| > RankLinePosition(k) - RankLinePosition(i) + d
    ensures Chunks(rows, block, i)[RankLinePosition(k) - RankLinePosition(i) + d] == block(k, rows[k])[d]
    decreases k - i
  {
    var b := block(i, rows[i]);
    assert |b| == RankLinePosition(i + 1) - RankLinePosition(i);
    assert Chunks(rows, block, i) == b + Chunks(rows, block, i + 1);
    if i < k {
      ChunksAtLine(rows, block, i + 1, k, d);
    }
  }

  /** The location line of each of the first five ranks follows its rank line. */
  lemma BlocksLocationAt(rows: seq<Survivor>, k: nat)
    requires k < |rows| && k < LocatedRows
    ensures |Blocks(rows, 0)| > RankLinePosition(k) + 1
    ensures Blocks(rows, 0)[RankLinePosition(k) + 1] == LocationLine(rows[k])
  {
    forall j | 0 <= j < |rows|
      ensures |Block(j, rows[j])| == RankLinePosition(j + 1) - RankLinePosition(j)
    {
    }
    BlockShape(k, rows[k]);
    ChunksAtLine(rows, Block, 0, k, 1);
  }

  lemma ReportLocationLines(gameDay: int, rows: seq<Survivor>)
    ensures var lines := ReportOfSorted(gameDay, rows).lines;
      && lines[0] == Header(gameDay)
      && forall k :: 0 <= k < Min(|rows|, LocatedRows) ==>
           2 + RankLinePosition(k) < |lines| && lines[2 + RankLinePosition(k)] == LocationLine(rows[k])
  {
    var listed := Take(rows, ReportSize);
    var blocks := Blocks(listed, 0);
    var lines := ReportOfSorted(gameDay, rows).lines;
    assert lines == [Header(gameDay)] + blocks + MoreLines(|rows|);
    forall k | 0 <= k < Min(|rows|, LocatedRows)
      ensures 2 + RankLinePosition(k) < |lines| && lines[2 + RankLinePosition(k)] == LocationLine(rows[k])
    {
      BlocksLocationAt(listed, k);
      assert listed[k] == rows[k];
      assert lines[2 + RankLinePosition(k)] == blocks[RankLinePosition(k) + 1];
    }
  }

  lemma {:induction false} BlocksLength(rows: seq<Survivor>, i: nat)
    requires i <= |rows|
    ensures |Blocks(rows, i)| == RankLinePosition(|rows|) - RankLinePosition(i)
    decreases |rows| - i
  {
    if i < |rows| {
      BlocksLength(rows, i + 1);
    }
  }

  function MoreLine(n: int): string
  {
    "\n*...and " + IntToString(n - ReportSize) + " more survivors*"
  }

  lemma ReportLength(gameDay: int, rows: seq<Survivor>)
    ensures var n := |rows|;
      |ReportOfSorted(gameDay, rows).lines| == 1 + Min(n, ReportSize) + Min(n, LocatedRows) + (if n > ReportSize then 1 else 0)
  {
    BlocksLength(Take(rows, ReportSize), 0);
  }

  lemma ReportRankLines(gameDay: int, rows: seq<Survivor>)
    ensures forall k :: 0 <= k < Min(|rows|, ReportSize) ==>
      1 + RankLinePosition(k) < |ReportOfSorted(gameDay, rows).lines| &&
      ReportOfSorted(gameDay, rows).lines[1 + RankLinePosition(k)] == RankLine(k, rows[k])
  {
    var listed := Take(rows, ReportSize);
    var blocks := Blocks(listed, 0);
    var lines := ReportOfSorted(gameDay, rows).lines;
    assert lines == [Header(gameDay)] + blocks + MoreLines(|rows|);
    forall k | 0 <= k < Min(|rows|, ReportSize)
      ensures 1 + RankLinePosition(k) < |lines| && lines[1 + RankLinePosition(k)] == RankLine(k, rows[k])
    {
      BlocksAt(listed, 0, k);
      assert listed[k] == rows[k];
      assert lines[1 + RankLinePosition(k)] == blocks[RankLinePosition(k)];
    }
  }

  /** The closing "...and N more survivors" line is there exactly when more than
      fifteen survivors were reported: no other line starts with a newline. */
  lemma ReportMore(gameDay: int, rows: seq<Survivor>)
    ensures var lines := ReportOfSorted(gameDay, rows).lines;
      |rows| > ReportSize <==> lines[|lines| - 1] == MoreLine(|rows|)
  {
    var n := |rows|;
    var listed := Take(rows, ReportSize);
    var lines := ReportOfSorted(gameDay, rows).lines;
    assert MoreLine(n)[0] == '\n';
    if n <= ReportSize {
      assert lines == [Header(gameDay)] + Blocks(listed, 0);
      assert listed == rows;
      LastReportLine(gameDay, rows, lines);
    }
  }

  /** When every survivor is listed, the last line does not start with a newline. */
  lemma LastReportLine(gameDay: int, rows: seq<Survivor>, lines: seq<string>)
    requires |rows| <= ReportSize && lines == [Header(gameDay)] + Blocks(rows, 0)
    ensures |lines[|lines| - 1]| > 0 && lines[|lines| - 1][0] != '\n'
  {
    var n := |rows|;
    if n == 0 {
      assert lines == [Header(gameDay)];
      assert Header(gameDay)[0] == '*';
    } else if n > LocatedRows {
      LastRankLine(rows);
      RankLineStart(n - 1, rows[n - 1]);
    } else {
      BlocksLast(rows);
      assert LocationLine(rows[n - 1])[0] == ' ';
    }
  }

  lemma LastRankLine(rows: seq<Survivor>)
    requires LocatedRows < |rows|
    ensures |Blocks(rows, 0)| > 0
    ensures Blocks(rows, 0)[|Blocks(rows, 0)| - 1] == RankLine(|rows| - 1, rows[|rows| - 1])
  {
    var n := |rows|;
    var b := Blocks(rows, 0);
    BlocksAt(rows, 0, n - 1);
    BlocksLength(rows, 0);
    assert |b| == n + LocatedRows;
    var last := RankLinePosition(n - 1) - RankLinePosition(0);
    assert last == n - 1 + LocatedRows;
    assert b[last] == RankLine(n - 1, rows[n - 1]);
  }

  lemma RankLineStart(i: nat, s: Survivor)
    requires i >= 3
    ensures |RankLine(i, s)| > 0 && RankLine(i, s)[0] == '*'
  {
    var rank := RankLabel(i);
    assert rank == "**" + IntToString(i + 1) + ".**";
    assert rank[0] == '*';
    assert RankLine(i, s) == rank + (" **" + s.username + "** - " + FormatTime(s.hours));
  }

  /** The layout of a report on `n` survivors that lists `listed`: the header, a
      rank line per listed survivor, the location line after each of the first five,
      and "...and N more" last exactly when more than fifteen were online. */
  ghost predicate ReportLayout(gameDay: int, n: nat, listed: seq<Survivor>, lines: seq<string>)
  {
    && |listed| == Min(n, ReportSize)
    && |lines| == 1 + Min(n, ReportSize) + Min(n, LocatedRows) + (if n > ReportSize then 1 else 0)
    && lines[0] == Header(gameDay)
    && (forall k :: 0 <= k < |listed| ==> lines[1 + RankLinePosition(k)] == RankLine(k, listed[k]))
    && (forall k :: 0 <= k < Min(n, LocatedRows) ==> lines[2 + RankLinePosition(k)] == LocationLine(listed[k]))
    && (n > ReportSize <==> lines[|lines| - 1] == MoreLine(n))
  }

  /** The report opens with the day's header, lists the fifteen survivors with the
      most hours in non-increasing order (ties in the order received), puts each of
      the first five's location on the line after its rank line, and ends with
      "...and N more" exactly when more than fifteen were online. */
  lemma DailyReportCorrect(gameDay: int, survivors: seq<Survivor>)
    ensures survivors == [] <==> DailyReport(gameDay, survivors).None?
    ensures survivors != [] ==>
      var n := |survivors|;
      var listed := Top(survivors, SurvivorHours, ReportSize);
      && SortedDesc(listed, SurvivorHours)
      && (forall x, y :: x in multiset(survivors) - multiset(listed) && y in listed ==> x.hours <= y.hours)
      && ReportLayout(gameDay, n, listed, DailyReport(gameDay, survivors).value.lines)
  {
    if survivors != [] {
      TopSurvivors(survivors);
      DailyReportLines(gameDay, survivors);
    }
  }

  /** The lines of a non-empty report, in terms of the survivors listed. */
  lemma DailyReportLines(gameDay: int, survivors: seq<Survivor>)
    requires survivors != []
    ensures ReportLayout(gameDay, |survivors|, Top(survivors, SurvivorHours, ReportSize), DailyReport(gameDay, survivors).value.lines)
  {
    var sorted := SortDesc(survivors, SurvivorHours);
    var listed := Top(survivors, SurvivorHours, ReportSize);
    SortDescLength(survivors, SurvivorHours);
    ReportFacts(gameDay, sorted);
    assert DailyReport(gameDay, survivors).value == ReportOfSorted(gameDay, sorted);
    assert listed == sorted[..Min(|sorted|, ReportSize)];
  }

  /** The fifteen listed survivors are those with the most hours, in order. */
  lemma TopSurvivors(survivors: seq<Survivor>)
    ensures var listed := Top(survivors, SurvivorHours, ReportSize);
      && |listed| == Min(|survivors|, ReportSize)
      && SortedDesc(listed, SurvivorHours)
      && (forall x, y :: x in multiset(survivors) - multiset(listed) && y in listed ==> x.hours <= y.hours)
  {
    var listed := Top(survivors, SurvivorHours, ReportSize);
    TopCorrect(survivors, SurvivorHours, ReportSize);
    forall x, y | x in multiset(survivors) - multiset(listed) && y in listed ensures x.hours <= y.hours {
      assert SurvivorHours(x) <= SurvivorHours(y);
    }
  }

  /** The report on rows already in order: its length, its rank lines and its
      closing line. */
  lemma ReportFacts(gameDay: int, rows: seq<Survivor>)
    ensures ReportLayout(gameDay, |rows|, rows[..Min(|rows|, ReportSize)], ReportOfSorted(gameDay, rows).lines)
  {
    ReportLength(gameDay, rows);
    ReportRankLines(gameDay, rows);
    ReportLocationLines(gameDay, rows);
    ReportMore(gameDay, rows);
  }

  lemma BlocksLast(rows: seq<Survivor>)
    requires 0 < |rows| <= LocatedRows
    ensures |Blocks(rows, 0)| >= 2
    ensures Blocks(rows, 0)[|Blocks(rows, 0)| - 1] == LocationLine(rows[|rows| - 1])
  {
    BlocksLength(rows, 0);
    BlocksTail(rows, 0);
  }

  lemma BlocksTail(rows: seq<Survivor>, i: nat)
    requires i < |rows| <= LocatedRows
    ensures |Blocks(rows, i)| >= 2
    ensures Blocks(rows, i)[|Blocks(rows, i)| - 1] == LocationLine(rows[|rows| - 1])
  {
    forall k | i <= k < |rows| ensures |Block(k, rows[k])| == 2 {
      BlockShape(k, rows[k]);
    }
    BlockShape(|rows| - 1, rows[|rows| - 1]);
    ChunksTail(rows, Block, LocationLine(rows[|rows| - 1]), i);
  }

  /** When every block has two lines, the last line is the second line of the last block. */
  lemma {:induction false} ChunksTail<R>(rows: seq<R>, block: (nat, R) -> seq<string>, last: string, i: nat)
    requires i < |rows|
    requires forall k :: i <= k < |rows| ==> |block(k, rows[k])| == 2
    requires block(|rows| - 1, rows[|rows| - 1])[1] == last
    ensures |Chunks(rows, block, i)| >= 2
    ensures Chunks(rows, block, i)[|Chunks(rows, block, i)| - 1] == last
    decreases |rows| - i
  {
    if i + 1 < |rows| {
      ChunksTail(rows, block, last, i + 1);
    }
    LastOfPair(block(i, rows[i]), Chunks(rows, block, i + 1), last);
  }

  /** The last of `b + rest`, where `b` is a two-line block and `rest` is empty or ends in `x`. */
  lemma LastOfPair(b: seq<string>, rest: seq<string>, x: string)
    requires |b| == 2
    requires rest == [] ==> b[1] == x
    requires rest != [] ==> |rest| >= 2 && rest[|rest| - 1] == x
    ensures |b + rest| >= 2 && (b + rest)[|b + rest| - 1] == x
  {
  }

  lemma BlockShape(i: nat, s: Survivor)
    requires i < LocatedRows
    ensures |Block(i, s)| == 2 && Block(i, s)[1] == LocationLine(s)
  {
  }

  lemma LastOfAppend<T>(a: seq<T>, b: seq<T>)
    requires |b| > 0
    ensures (a + b)[|a + b| - 1] == b[|b| - 1]
  {
  }
}
