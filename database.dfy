/** The `games` table and its `games_id_seq` id sequence, held in memory: the
    rows in insertion order and the next value the sequence will hand out. */
module Database {
  import opened Wrappers

  /** A row of `games`: all eight columns. */
  datatype GameRow = GameRow(
    id: int,
    white: string,
    black: string,
    year: Option<int>,
    event: Option<string>,
    result: Option<string>,
    pgn: string,
    moves: string)

  /** A row of the listing: the first six columns. */
  datatype GameSummary = GameSummary(
    id: int,
    white: string,
    black: string,
    year: Option<int>,
    event: Option<string>,
    result: Option<string>)

  /** Querying or inserting before `init_db` created the table or sequence. */
  datatype DbError = MissingTable | MissingSequence

  function Summary(row: GameRow): GameSummary {
    GameSummary(row.id, row.white, row.black, row.year, row.event, row.result)
  }

  function Summaries(rows: seq<GameRow>): (s: seq<GameSummary>)
    ensures |s| == |rows|
    ensures forall k :: 0 <= k < |rows| ==> s[k] == Summary(rows[k])
  {
    if rows == [] then [] else [Summary(rows[0])] + Summaries(rows[1..])
  }

  /** Ids grow along the table, so no two rows share one. */
  predicate IdsIncreasing(rows: seq<GameRow>) {
    forall i, j :: 0 <= i < j < |rows| ==> rows[i].id < rows[j].id
  }

  /** `SELECT ... WHERE id = ?`: the row with that id, if any. */
  function FindRow(rows: seq<GameRow>, id: int): (found: Option<GameRow>)
    ensures found.Some? ==> found.value in rows && found.value.id == id
    ensures found.None? <==> forall row :: row in rows ==> row.id != id
  {
    if rows == [] then None
    else if rows[0].id == id then Some(rows[0])
    else FindRow(rows[1..], id)
  }

  /** A row appended with an id above all earlier ones is the one found by its id. */
  lemma {:induction false} FindAppended(rows: seq<GameRow>, row: GameRow)
    requires forall r :: r in rows ==> r.id < row.id
    ensures FindRow(rows + [row], row.id) == Some(row)
  {
    if rows != [] {
      assert (rows + [row])[1..] == rows[1..] + [row];
      FindAppended(rows[1..], row);
    }
  }

  /** `ORDER BY year DESC NULLS LAST, id DESC`: a is listed before b. */
  predicate Before(a: GameSummary, b: GameSummary)
    ensures Before(a, b) ==> a != b
  {
    match (a.year, b.year)
    case (Some(x), Some(y)) => x > y || (x == y && a.id > b.id)
    case (Some(_), None) => true
    case (None, Some(_)) => false
    case (None, None) => a.id > b.id
  }

  /** No row is listed after one that should come later. */
  predicate Ordered(s: seq<GameSummary>) {
    forall i, j :: 0 <= i < j < |s| ==> !Before(s[j], s[i])
  }

  lemma BeforeIsStrictOrder(a: GameSummary, b: GameSummary, c: GameSummary)
    ensures !Before(a, a)
    ensures Before(a, b) ==> !Before(b, a)
    ensures Before(a, b) && Before(b, c) ==> Before(a, c)
    ensures !Before(a, b) && !Before(b, c) ==> !Before(a, c)
    ensures a.id != b.id ==> Before(a, b) || Before(b, a)
  {
  }

  /** In an ordered sequence whose head need not precede x, nothing need. */
  lemma NoneBefore(x: GameSummary, s: seq<GameSummary>)
    requires Ordered(s) && (s == [] || !Before(s[0], x))
    ensures forall j :: 0 <= j < |s| ==> !Before(s[j], x)
  {
    forall j | 0 < j < |s| ensures !Before(s[j], x) {
      BeforeIsStrictOrder(s[j], s[0], x);
    }
  }

  /** The rows after the head, with x among them, need not precede the head
      when x comes after it. */
  lemma HeadStaysFirst(x: GameSummary, s: seq<GameSummary>, rest: seq<GameSummary>)
    requires s != [] && Ordered(s) && Before(s[0], x)
    requires multiset(rest) == multiset(s[1..]) + multiset{x}
    ensures forall j :: 0 <= j < |rest| ==> !Before(rest[j], s[0])
  {
    forall j | 0 <= j < |rest| ensures !Before(rest[j], s[0]) {
      assert rest[j] in multiset(rest);
      if rest[j] == x {
        BeforeIsStrictOrder(s[0], x, x);
      } else {
        assert rest[j] in multiset(s[1..]);
        var i :| 0 <= i < |s[1..]| && s[1..][i] == rest[j];
        assert s[i + 1] == rest[j];
      }
    }
  }

  /** An element that no later one need precede may head an ordered sequence. */
  lemma ConsOrdered(x: GameSummary, s: seq<GameSummary>)
    requires Ordered(s)
    requires forall j :: 0 <= j < |s| ==> !Before(s[j], x)
    ensures Ordered([x] + s)
  {
    var r := [x] + s;
    forall i, j | 0 <= i < j < |r| ensures !Before(r[j], r[i]) {
      assert r[j] == s[j - 1];
      if i > 0 {
        assert r[i] == s[i - 1];
      }
    }
  }

  /** Puts x in front of the first element that need not precede it. */
  function InsertOrdered(x: GameSummary, s: seq<GameSummary>): (r: seq<GameSummary>)
    requires Ordered(s)
    ensures Ordered(r)
    ensures multiset(r) == multiset(s) + multiset{x}
  {
    if s == [] || !Before(s[0], x) then
      NoneBefore(x, s);
      ConsOrdered(x, s);
      [x] + s
    else
      var rest := InsertOrdered(x, s[1..]);
      assert s == [s[0]] + s[1..];
      HeadStaysFirst(x, s, rest);
      ConsOrdered(s[0], rest);
      [s[0]] + rest
  }

  /** The listing order of the summaries, by insertion sort. */
  function Listing(s: seq<GameSummary>): (r: seq<GameSummary>)
    ensures Ordered(r)
    ensures multiset(r) == multiset(s)
  {
    if s == [] then []
    else
      assert s == [s[0]] + s[1..];
      InsertOrdered(s[0], Listing(s[1..]))
  }

  /** No two different summaries share an id. */
  predicate IdsIdentify(s: seq<GameSummary>) {
    forall x, y :: x in s && y in s && x.id == y.id ==> x == y
  }

  /** Two ordered arrangements of the same rows start with the same row. */
  lemma HeadsAgree(a: seq<GameSummary>, b: seq<GameSummary>)
    requires a != [] && Ordered(a) && Ordered(b) && IdsIdentify(a)
    requires multiset(a) == multiset(b)
    ensures b != [] && a[0] == b[0]
  {
    assert a[0] in multiset(b);
    var i :| 0 <= i < |b| && b[i] == a[0];
    assert b[0] in multiset(a);
    var j :| 0 <= j < |a| && a[j] == b[0];
    if a[0] != b[0] {
      assert i != 0 && j != 0;
      assert !Before(a[j], a[0]) && !Before(b[i], b[0]);
      BeforeIsStrictOrder(a[0], b[0], a[0]);
      assert false;
    }
  }

  lemma TailsAgree(a: seq<GameSummary>, b: seq<GameSummary>)
    requires a != [] && b != [] && a[0] == b[0]
    requires multiset(a) == multiset(b)
    ensures multiset(a[1..]) == multiset(b[1..])
  {
    assert a == [a[0]] + a[1..];
    assert b == [b[0]] + b[1..];
    assert multiset(a[1..]) == multiset(a) - multiset{a[0]};
    assert multiset(b[1..]) == multiset(b) - multiset{b[0]};
  }

  /** With ids that identify rows the order is total, so a collection of rows
      has only one ordered arrangement. */
  lemma {:induction false} OrderedUnique(a: seq<GameSummary>, b: seq<GameSummary>)
    requires Ordered(a) && Ordered(b) && IdsIdentify(a)
    requires multiset(a) == multiset(b)
    ensures a == b
  {
    if a == [] {
      assert |b| == 0 by { assert |multiset(b)| == 0; }
    } else {
      HeadsAgree(a, b);
      TailsAgree(a, b);
      assert IdsIdentify(a[1..]) by {
        forall x, y | x in a[1..] && y in a[1..] && x.id == y.id ensures x == y {
          assert x in a && y in a;
        }
      }
      OrderedUnique(a[1..], b[1..]);
      assert a == [a[0]] + a[1..] && b == [b[0]] + b[1..];
    }
  }

  class GameStore {
    var hasTable: bool
    var hasSequence: bool
    /** The rows of `games`, in insertion order. */
    var rows: seq<GameRow>
    /** The value `nextval('games_id_seq')` returns next. */
    var nextId: int

    /** Every id was drawn from the sequence, which counts up from 1: ids are
        positive, increasing, and below the sequence's next value. */
    ghost predicate Valid()
      reads this
    {
      (rows != [] ==> hasTable && hasSequence)
      && 1 <= nextId
      && IdsIncreasing(rows)
      && forall row :: row in rows ==> 1 <= row.id < nextId
    }

    /** A database file in which nothing has been created yet. */
    constructor ()
      ensures Valid()
      ensures !hasTable && !hasSequence && rows == []
    {
      hasTable := false;
      hasSequence := false;
      rows := [];
      nextId := 1;
    }

    /** `init_db`: create the table and the sequence (starting at 1) where absent. */
    method InitDb()
      requires Valid()
      modifies this
      ensures Valid()
      ensures hasTable && hasSequence
      ensures rows == old(rows)
      ensures nextId == if old(hasSequence) then old(nextId) else 1
      ensures old(hasTable) && old(hasSequence) ==> unchanged(this)
    {
      if !hasTable {
        hasTable := true;
      }
      if !hasSequence {
        hasSequence := true;
        nextId := 1;
      }
    }

    /** `insert_game`: append one row whose id is the sequence's next value. */
    method InsertGame(white: string, black: string, year: Option<int>, event: Option<string>,
                      result: Option<string>, pgn: string, moves: string)
      returns (r: Result<int, DbError>)
      requires Valid()
      modifies this
      ensures Valid()
      ensures hasTable == old(hasTable) && hasSequence == old(hasSequence)
      ensures !old(hasTable) ==> r == Err(MissingTable) && rows == old(rows) && nextId == old(nextId)
      ensures old(hasTable) && !old(hasSequence) ==> r == Err(MissingSequence) && rows == old(rows) && nextId == old(nextId)
      ensures old(hasTable) && old(hasSequence) ==>
                r == Ok(old(nextId))
                && rows == old(rows) + [GameRow(old(nextId), white, black, year, event, result, pgn, moves)]
                && nextId == old(nextId) + 1
    {
      if !hasTable {
        return Err(MissingTable);
      }
      if !hasSequence {
        return Err(MissingSequence);
      }
      var id := nextId;
      nextId := nextId + 1;
      rows := rows + [GameRow(id, white, black, year, event, result, pgn, moves)];
      r := Ok(id);
    }

    /** `list_games`: every row once, as its summary, in listing order. */
    method ListGames() returns (r: Result<seq<GameSummary>, DbError>)
      requires Valid()
      ensures r.Err? <==> !hasTable
      ensures r.Ok? ==> Ordered(r.value) && multiset(r.value) == multiset(Summaries(rows))
      ensures r.Ok? ==> r.value == Listing(Summaries(rows))
    {
      if !hasTable {
        return Err(MissingTable);
      }
      r := Ok(Listing(Summaries(rows)));
    }

    /** `get_game`: the full row with the given id, or nothing. */
    method GetGame(id: int) returns (r: Result<Option<GameRow>, DbError>)
      requires Valid()
      ensures r.Err? <==> !hasTable
      ensures r.Ok? ==> r.value == FindRow(rows, id)
    {
      if !hasTable {
        return Err(MissingTable);
      }
      var k := 0;
      while k < |rows|
        invariant 0 <= k <= |rows|
        invariant FindRow(rows, id) == FindRow(rows[k..], id)
      {
        if rows[k].id == id {
          return Ok(Some(rows[k]));
        }
        assert rows[k..][1..] == rows[k + 1..];
        k := k + 1;
      }
      r := Ok(None);
    }
  }

  /** Rows with increasing ids give summaries that their ids tell apart. */
  lemma SummariesIdentified(rows: seq<GameRow>)
    requires IdsIncreasing(rows)
    ensures IdsIdentify(Summaries(rows))
  {
    var all := Summaries(rows);
    forall x, y | x in all && y in all && x.id == y.id ensures x == y {
      var p :| 0 <= p < |all| && all[p] == x;
      var q :| 0 <= q < |all| && all[q] == y;
      assert rows[p].id == rows[q].id;
    }
  }

  /** Rearranging summaries keeps them told apart by their ids. */
  lemma RearrangedIdentified(a: seq<GameSummary>, b: seq<GameSummary>)
    requires IdsIdentify(a) && multiset(a) == multiset(b)
    ensures IdsIdentify(b)
  {
    forall x, y | x in b && y in b && x.id == y.id ensures x == y {
      assert x in multiset(b) && y in multiset(b);
      assert x in a && y in a;
    }
  }

  /** Summaries of rows with increasing ids are told apart by their ids, so
      the listing is the one ordered arrangement of them. */
  lemma ListingIsTheOrderedArrangement(rows: seq<GameRow>, s: seq<GameSummary>)
    requires IdsIncreasing(rows)
    requires Ordered(s) && multiset(s) == multiset(Summaries(rows))
    ensures s == Listing(Summaries(rows))
  {
    var all := Summaries(rows);
    SummariesIdentified(rows);
    RearrangedIdentified(all, Listing(all));
    OrderedUnique(Listing(all), s);
  }

  /** With a fresh database: after `init_db`, three inserts get ids 1, 2 and 3,
      and each row is found again by its id. */
  method ThreeInsertsFromFresh() returns (a: Result<int, DbError>, b: Result<int, DbError>,
                                          c: Result<int, DbError>, found: Result<Option<GameRow>, DbError>)
    ensures a == Ok(1) && b == Ok(2) && c == Ok(3)
    ensures found.Ok? && found.value.Some? && found.value.value.id == 2 && found.value.value.white == "Anderssen"
  {
    var store := new GameStore();
    store.InitDb();
    a := store.InsertGame("Morphy", "Duke of Brunswick", Some(1858), None, Some("1-0"), "", "e4,e5");
    ghost var first := store.rows[0];
    b := store.InsertGame("Anderssen", "Kieseritzky", Some(1851), Some("London"), Some("1-0"), "", "e4,e5,f4");
    ghost var second := store.rows[1];
    c := store.InsertGame("Unknown", "Unknown", None, None, None, "", "");
    assert store.rows == [first, second, store.rows[2]];
    assert FindRow(store.rows, 2) == Some(second) by {
      assert store.rows[1..] == [second, store.rows[2]];
    }
    found := store.GetGame(2);
  }
}
