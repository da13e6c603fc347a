/** The order of the lines on a scoreboard: what the ORDER BY of the queries in backend/queries/solves.sql
    settles, what it leaves open, and that nothing about cached boards depends on what it leaves open. */
module ScoreboardRankings {
  import opened Prelude
  import opened ScoreboardKeys
  import opened Scoreboard
  import opened ScoreboardCoherence

  datatype Line = Line(team: string, row: Row)

  /** The last day of the year 9999, in microseconds since the zero time; a team without solves sorts there. */
  const DISTANT: int := 315537811200000000

  function SolvedAt(row: Row): int {
    if row.lastSolved.Some? then row.lastSolved.value else DISTANT
  }

  /** More points, or as many and the last solve earlier. */
  predicate Ahead(x: Row, y: Row) {
    x.points > y.points || (x.points == y.points && SolvedAt(x) < SolvedAt(y))
  }

  predicate SamePlace(x: Row, y: Row) {
    x.points == y.points && SolvedAt(x) == SolvedAt(y)
  }

  /** The list has a line for each team of the board and no other, no team twice. */
  ghost predicate Lists(list: seq<Line>, board: Board) {
    && (forall i :: 0 <= i < |list| ==> list[i].team in board && list[i].row == board[list[i].team])
    && (forall i, j :: 0 <= i < j < |list| ==> list[i].team != list[j].team)
    && (forall t :: t in board ==> t in TeamsOf(list))
  }

  ghost predicate Sorted(list: seq<Line>) {
    forall i, j :: 0 <= i < j < |list| ==> !Ahead(list[j].row, list[i].row)
  }

  /** A result the query may return: it leaves the order of equal lines open. */
  ghost predicate IsRanking(list: seq<Line>, board: Board) {
    Lists(list, board) && Sorted(list)
  }

  /** The order, line by line: points never rise down the list, equal points come by earlier last solve, and a
      team without one comes as if its last solve were on the last day of 9999, so after all that have an
      earlier one. */
  lemma SortedIff(list: seq<Line>)
    ensures Sorted(list) <==> forall i, j :: 0 <= i < j < |list| ==>
      var x, y := list[i].row, list[j].row;
      && x.points >= y.points
      && (x.points == y.points && x.lastSolved.Some? && y.lastSolved.Some? ==> x.lastSolved.value <= y.lastSolved.value)
      && (x.points == y.points && x.lastSolved.None? && y.lastSolved.Some? ==> y.lastSolved.value >= 315537811200000000)
      && (x.points == y.points && x.lastSolved.Some? && y.lastSolved.None? ==> x.lastSolved.value <= 315537811200000000)
  {
  }

  function TeamsOf(list: seq<Line>): set<string> {
    set i | 0 <= i < |list| :: list[i].team
  }

  lemma InTeamsIff(list: seq<Line>, team: string)
    ensures team in TeamsOf(list) <==> exists i :: 0 <= i < |list| && list[i].team == team
  {
  }

  // ---- every board has a ranking ------------------------------------------------------------------------------

  /** Where a row goes in a sorted list: behind all that are ahead of it. */
  function Slot(list: seq<Line>, row: Row): (i: nat)
    ensures i <= |list|
  {
    if list == [] || Ahead(row, list[0].row) then 0 else 1 + Slot(list[1..], row)
  }

  lemma {:induction false} SlotIsSorted(list: seq<Line>, row: Row)
    requires Sorted(list)
    ensures forall i :: 0 <= i < Slot(list, row) ==> !Ahead(row, list[i].row)
    ensures forall i :: Slot(list, row) <= i < |list| ==> !Ahead(list[i].row, row)
    decreases |list|
  {
    if list != [] && !Ahead(row, list[0].row) {
      assert Sorted(list[1..]);
      SlotIsSorted(list[1..], row);
      forall i | 0 <= i < Slot(list, row) ensures !Ahead(row, list[i].row) {
        assert i == 0 || list[i] == list[1..][i - 1];
      }
      forall i | Slot(list, row) <= i < |list| ensures !Ahead(list[i].row, row) {
        assert list[i] == list[1..][i - 1];
      }
    } else if list != [] {
      forall i | 0 <= i < |list| ensures !Ahead(list[i].row, row) {
        assert i == 0 || !Ahead(list[i].row, list[0].row);
      }
    }
  }

  function Inserted(list: seq<Line>, line: Line): seq<Line> {
    var i := Slot(list, line.row);
    list[..i] + [line] + list[i..]
  }

  lemma InsertedIsSorted(list: seq<Line>, line: Line)
    requires Sorted(list)
    ensures Sorted(Inserted(list, line))
  {
    SlotIsSorted(list, line.row);
    hide Ahead, Slot;
  }

  lemma InsertedLists(list: seq<Line>, line: Line, board: Board)
    requires Lists(list, board) && line.team !in board
    ensures Lists(Inserted(list, line), board[line.team := line.row])
  {
    hide Slot, TeamsOf;
    forall t | t in board[line.team := line.row] ensures t in TeamsOf(Inserted(list, line)) {
      InsertedTeam(list, line, t);
    }
  }

  lemma InsertedTeam(list: seq<Line>, line: Line, t: string)
    requires t == line.team || t in TeamsOf(list)
    ensures t in TeamsOf(Inserted(list, line))
  {
    hide Slot, TeamsOf;
    var more, k := Inserted(list, line), Slot(list, line.row);
    InTeamsIff(more, t);
    if t == line.team {
      assert more[k].team == t;
    } else {
      InTeamsIff(list, t);
      var i :| 0 <= i < |list| && list[i].team == t;
      assert more[if i < k then i else i + 1].team == t;
    }
  }

  lemma {:induction false} RankingExists(board: Board) returns (list: seq<Line>)
    ensures IsRanking(list, board)
    decreases |board|
  {
    if board == map[] {
      list := [];
    } else {
      var t :| t in board;
      var rest := board - {t};
      assert rest[t := board[t]] == board;
      assert |rest| < |board| by { assert rest.Keys + {t} == board.Keys; }
      var shorter := RankingExists(rest);
      list := Inserted(shorter, Line(t, board[t]));
      InsertedIsSorted(shorter, Line(t, board[t]));
      InsertedLists(shorter, Line(t, board[t]), rest);
    }
  }

  // ---- and what all of them share -----------------------------------------------------------------------------

  lemma {:induction false} DistinctTeams(list: seq<Line>)
    requires forall i, j :: 0 <= i < j < |list| ==> list[i].team != list[j].team
    ensures |TeamsOf(list)| == |list|
    decreases |list|
  {
    if list != [] {
      var n := |list| - 1;
      DistinctTeams(list[..n]);
      forall t ensures t in TeamsOf(list) <==> t in TeamsOf(list[..n]) + {list[n].team} {
        InTeamsIff(list, t);
        InTeamsIff(list[..n], t);
        assert forall i :: 0 <= i < n ==> list[..n][i] == list[i];
      }
      assert TeamsOf(list) == TeamsOf(list[..n]) + {list[n].team};
      assert list[n].team !in TeamsOf(list[..n]);
    }
  }

  lemma AsManyLines(list: seq<Line>, board: Board)
    requires Lists(list, board)
    ensures |list| == |board|
  {
    DistinctTeams(list);
    assert TeamsOf(list) == board.Keys;
  }

  lemma IsAbove(list: seq<Line>, other: seq<Line>, board: Board, i: nat, k: nat)
    requires IsRanking(list, board) && IsRanking(other, board) && k <= i < |list| && i < |other|
    requires Ahead(list[i].row, other[i].row)
    ensures list[k].team in TeamsOf(other[..i])
  {
    var t := list[k].team;
    assert !Ahead(list[i].row, list[k].row);
    InTeamsIff(other, t);
    var j :| 0 <= j < |other| && other[j].team == t;
    assert other[j].row == list[k].row && j < i;
    assert other[..i][j].team == t;
    hide TeamsOf;
    InTeamsIff(other[..i], t);
  }

  /** No ranking has a line ahead of the one another ranking has at the same place: it and the lines above it
      are more than there is room for above the other. */
  lemma NoneAhead(list: seq<Line>, other: seq<Line>, board: Board, i: nat)
    requires IsRanking(list, board) && IsRanking(other, board) && i < |list| && i < |other|
    ensures !Ahead(list[i].row, other[i].row)
  {
    if Ahead(list[i].row, other[i].row) {
      var above, room := TeamsOf(list[..i + 1]), TeamsOf(other[..i]);
      DistinctTeams(list[..i + 1]);
      DistinctTeams(other[..i]);
      forall t | t in above ensures t in room {
        InTeamsIff(list[..i + 1], t);
        var k :| 0 <= k < i + 1 && list[k].team == t;
        IsAbove(list, other, board, i, k);
      }
      SubsetIsSmaller(above, room);
      assert false;
    }
  }

  /** All rankings of a board are as long as it and have the same points and the same last solve at each
      place. */
  lemma PlacesAgree(list: seq<Line>, other: seq<Line>, board: Board)
    requires IsRanking(list, board) && IsRanking(other, board)
    ensures |list| == |other| == |board|
    ensures forall i :: 0 <= i < |list| ==> SamePlace(list[i].row, other[i].row)
  {
    AsManyLines(list, board);
    AsManyLines(other, board);
    forall i | 0 <= i < |list| ensures SamePlace(list[i].row, other[i].row) {
      NoneAhead(list, other, board, i);
      NoneAhead(other, list, board, i);
    }
  }

  /** A list that ranks one board ranks another exactly when they are the same. */
  lemma RanksAnotherIff(list: seq<Line>, board: Board, other: Board)
    requires IsRanking(list, board)
    ensures IsRanking(list, other) <==> board == other
  {
    if IsRanking(list, other) {
      forall t ensures t in board <==> t in other {
        InTeamsIff(list, t);
      }
      forall t | t in board ensures board[t] == other[t] {
        InTeamsIff(list, t);
      }
    }
  }

  // ---- cached lists -------------------------------------------------------------------------------------------

  /** Every cached list is one that a load could return now. */
  ghost predicate ListsCoherent(cache: map<string, seq<Line>>, db: Db) {
    forall id :: Key(id) in cache ==> IsRanking(cache[Key(id)], LoadBoard(db, id))
  }

  ghost predicate RestoresLists(db: Db, db': Db, keys: set<string>) {
    forall cache: map<string, seq<Line>> :: ListsCoherent(cache, db) ==> ListsCoherent(cache - keys, db')
  }

  lemma OneListIsCoherent(db: Db, id: BoardId, list: seq<Line>)
    requires IsRanking(list, LoadBoard(db, id))
    ensures ListsCoherent(map[Key(id) := list], db)
  {
    hide IsRanking, LoadBoard;
    forall other | Key(other) == Key(id) ensures other == id {
      KeysAreDistinct(other, id);
    }
  }

  /** Whatever order the database gave equal lines when a list was cached: dropping keys restores coherence of
      cached lists exactly when it does so for boards. So every such condition here is about lists, too. */
  lemma ListsRestoredIff(db: Db, db': Db, keys: set<string>)
    ensures RestoresLists(db, db', keys) <==> Restores(db, db', keys)
  {
    hide IsRanking, LoadBoard, Restores;
    RestoresIff(db, db', keys);
    if RestoresLists(db, db', keys) {
      forall id | Key(id) !in keys ensures LoadBoard(db', id) == LoadBoard(db, id) {
        var list := RankingExists(LoadBoard(db, id));
        OneListIsCoherent(db, id, list);
        var cache := map[Key(id) := list];
        assert ListsCoherent(cache - keys, db') && Key(id) in cache - keys;
        RanksAnotherIff(list, LoadBoard(db, id), LoadBoard(db', id));
      }
    }
  }
}
