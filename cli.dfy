/** The `load`, `list` and `play` commands of the command-line interface:
    how moves are stored as one comma-joined string and read back, how a
    listing row is laid out, how `load` counts games, and when `play` refuses
    to start the replay. */
module Cli {
  import opened Wrappers
  import opened Text
  import PgnHeaders
  import Database
  import Player

  // ---------------------------------------------------------------------
  // Moves as one string: `",".join(game.moves)` when loading and
  // `moves_str.split(",") if moves_str else []` when playing.

  /** `",".join(ms)`: empty only for no moves or the one empty move. */
  function JoinMoves(ms: seq<string>): (joined: string)
    ensures |joined| == 0 <==> |ms| == 0 || (|ms| == 1 && |ms[0]| == 0)
  {
    if ms == [] then ""
    else if |ms| == 1 then ms[0]
    else ms[0] + "," + JoinMoves(ms[1..])
  }

  /** `s.split(",")`: the pieces between commas, at least one of them, none
      holding a comma. */
  function SplitOnComma(s: string): (parts: seq<string>)
    ensures |parts| >= 1
    ensures forall p :: p in parts ==> ',' !in p
  {
    if s == [] then [""]
    else
      var rest := SplitOnComma(s[1..]);
      if s[0] == ',' then [""] + rest
      else [[s[0]] + rest[0]] + rest[1..]
  }

  /** The move list of a stored game: no moves for the empty string. */
  function DecodeMoves(s: string): (moves: seq<string>)
    ensures moves == [] <==> s == ""
  {
    if s == "" then [] else SplitOnComma(s)
  }

  predicate CommaFree(ms: seq<string>) {
    forall m :: m in ms ==> ',' !in m
  }

  /** A character in front of the first piece joins in front of the whole. */
  lemma {:induction false} JoinExtendsFirst(c: char, parts: seq<string>)
    requires |parts| >= 1
    ensures JoinMoves([[c] + parts[0]] + parts[1..]) == [c] + JoinMoves(parts)
  {
    var ps := [[c] + parts[0]] + parts[1..];
    assert ps[1..] == parts[1..];
    if |parts| > 1 {
      assert JoinMoves(ps) == ps[0] + "," + JoinMoves(parts[1..]);
    }
  }

  /** Joining the pieces of a split gives back the text, for every text. */
  lemma {:induction false} JoinSplit(s: string)
    ensures JoinMoves(SplitOnComma(s)) == s
  {
    if s != [] {
      var rest := SplitOnComma(s[1..]);
      JoinSplit(s[1..]);
      if s[0] == ',' {
        var parts := [""] + rest;
        assert parts[1..] == rest;
        assert JoinMoves(parts) == "" + "," + JoinMoves(rest);
        assert s == [','] + s[1..];
      } else {
        JoinExtendsFirst(s[0], rest);
        assert s == [s[0]] + s[1..];
      }
    }
  }

  /** Text with no comma is one piece. */
  lemma {:induction false} SplitCommaFree(t: string)
    requires ',' !in t
    ensures SplitOnComma(t) == [t]
  {
    if t != [] {
      SplitCommaFree(t[1..]);
      assert t == [t[0]] + t[1..];
    }
  }

  /** A comma after comma-free text ends the first piece there. */
  lemma {:induction false} SplitAfterPiece(t: string, u: string)
    requires ',' !in t
    ensures SplitOnComma(t + "," + u) == [t] + SplitOnComma(u)
  {
    var s := t + "," + u;
    if t == [] {
      assert s == [','] + u;
      assert s[1..] == u;
    } else {
      assert s[1..] == t[1..] + "," + u;
      SplitAfterPiece(t[1..], u);
      assert t == [t[0]] + t[1..];
    }
  }

  /** Splitting a join gives back a non-empty list of comma-free pieces. */
  lemma {:induction false} SplitJoin(ms: seq<string>)
    requires |ms| >= 1 && CommaFree(ms)
    ensures SplitOnComma(JoinMoves(ms)) == ms
  {
    assert ms[0] in ms;
    if |ms| == 1 {
      SplitCommaFree(ms[0]);
    } else {
      assert CommaFree(ms[1..]) by {
        forall m | m in ms[1..] ensures ',' !in m {
          assert m in ms;
        }
      }
      SplitJoin(ms[1..]);
      SplitAfterPiece(ms[0], JoinMoves(ms[1..]));
      assert ms == [ms[0]] + ms[1..];
    }
  }

  /** Moves stored by `load` come back unchanged in `play` exactly when they
      are not the single empty move, provided no move holds a comma. */
  lemma DecodeJoinedMoves(ms: seq<string>)
    requires CommaFree(ms)
    ensures DecodeMoves(JoinMoves(ms)) == ms <==> ms != [""]
  {
    if ms != [] && ms != [""] {
      SplitJoin(ms);
    }
  }

  /** Every stored move string reads back into moves that join to it again. */
  lemma JoinDecodedMoves(s: string)
    ensures JoinMoves(DecodeMoves(s)) == s
  {
    if s != "" {
      JoinSplit(s);
    }
  }

  // ---------------------------------------------------------------------
  // `list`: one row per game, laid out in fixed-width columns.

  /** What `list` unpacks from each listed game; its last field,
      `is_consultation`, is not displayed. */
  datatype ListedGame = ListedGame(
    id: int,
    white: string,
    black: string,
    year: Option<int>,
    result: Option<string>,
    eco: Option<string>)

  const NameWidth := 25

  /** A name as displayed: longer names are cut to 22 characters and "...". */
  function Truncate(name: string): (shown: string)
    ensures |shown| <= NameWidth
    ensures |name| <= NameWidth ==> shown == name
    ensures |name| > NameWidth ==>
              |shown| == NameWidth && shown[..22] == name[..22] && shown[22..] == "..."
  {
    if |name| > NameWidth then name[..22] + "..." else name
  }

  /** `str(year) if year else "-"`: the dash stands exactly for a missing or
      zero year, and otherwise the text reads back as the year. */
  function YearText(year: Option<int>): (text: string)
    ensures text == "-" <==> !IntTruthy(year)
    ensures IntTruthy(year) ==> ParseInt(text) == Some(year.value)
  {
    if IntTruthy(year) then
      ParseShowInt(year.value);
      ShowInt(year.value)
    else "-"
  }

  /** `x if x else "-"` and `x or "-"` on an optional text. */
  function OrDash(x: Option<string>): (text: string)
    ensures !TextTruthy(x) ==> text == "-"
    ensures TextTruthy(x) ==> text == x.value && text != ""
  {
    if TextTruthy(x) then x.value else "-"
  }

  const HeaderLine := PadRight("ID", 6) + " " + PadRight("White", NameWidth) + " "
                      + PadRight("Black", NameWidth) + " " + PadRight("Year", 6) + " "
                      + PadRight("Result", 10) + " " + "ECO"

  const EmptyListMessage := "No games loaded. Use 'chessprompter load <pgn_file>' to load games."

  function FormatRow(g: ListedGame): (row: string)
    ensures |row| >= 77 + |OrDash(g.eco)|
    ensures row[|row| - |OrDash(g.eco)|..] == OrDash(g.eco)
  {
    PadRight(ShowInt(g.id), 6) + " " + PadRight(Truncate(g.white), NameWidth) + " "
    + PadRight(Truncate(g.black), NameWidth) + " " + PadRight(YearText(g.year), 6) + " "
    + PadRight(OrDash(g.result), 10) + " " + OrDash(g.eco)
  }

  /** Where six fields of widths 6, 25, 25, 6 and 10 (and any last one)
      sit once joined by single spaces. */
  lemma FieldOffsets(a: string, b: string, c: string, d: string, e: string, f: string)
    requires |a| == 6 && |b| == 25 && |c| == 25 && |d| == 6 && |e| == 10
    ensures var row := a + " " + b + " " + c + " " + d + " " + e + " " + f;
      |row| == 77 + |f| && row[..6] == a && row[7..32] == b && row[33..58] == c
      && row[59..65] == d && row[66..76] == e && row[77..] == f
  {
  }

  /** Columns line up: while the id and year fit in six characters and the
      result in ten, each field sits at a fixed offset, padded to its width. */
  lemma ColumnsAligned(g: ListedGame)
    requires |ShowInt(g.id)| <= 6 && |YearText(g.year)| <= 6 && |OrDash(g.result)| <= 10
    ensures var row := FormatRow(g);
      |row| == 77 + |OrDash(g.eco)|
      && row[..6] == PadRight(ShowInt(g.id), 6)
      && row[7..32] == PadRight(Truncate(g.white), NameWidth)
      && row[33..58] == PadRight(Truncate(g.black), NameWidth)
      && row[59..65] == PadRight(YearText(g.year), 6)
      && row[66..76] == PadRight(OrDash(g.result), 10)
      && row[77..] == OrDash(g.eco)
  {
    var a, b, c := PadRight(ShowInt(g.id), 6), PadRight(Truncate(g.white), NameWidth), PadRight(Truncate(g.black), NameWidth);
    var d, e, f := PadRight(YearText(g.year), 6), PadRight(OrDash(g.result), 10), OrDash(g.eco);
    assert FormatRow(g) == a + " " + b + " " + c + " " + d + " " + e + " " + f;
    FieldOffsets(a, b, c, d, e, f);
  }

  /** The output of `list`: a message when nothing is loaded, otherwise the
      header, a rule of 90 dashes and one row per game in the given order. */
  function ListOutput(games: seq<ListedGame>): (lines: seq<string>)
    ensures games == [] ==> lines == [EmptyListMessage]
    ensures games != [] ==> |lines| == |games| + 2 && lines[0] == HeaderLine
                            && lines[1] == Repeat('-', 90)
    ensures games != [] ==> forall k :: 0 <= k < |games| ==> lines[k + 2] == FormatRow(games[k])
  {
    if games == [] then [EmptyListMessage]
    else [HeaderLine, Repeat('-', 90)] + seq(|games|, k requires 0 <= k < |games| => FormatRow(games[k]))
  }

  // ---------------------------------------------------------------------
  // `load`: parse each file, insert every game, count per file and in total.

  /** How `load` inserts a parsed game under the id the sequence hands out. */
  function StoredRow(id: int, g: PgnHeaders.ParsedGame): Database.GameRow {
    Database.GameRow(id, g.white, g.black, g.year, g.event, g.result, g.pgn, JoinMoves(g.moves))
  }

  /** The rows that inserting the games one after another appends, with ids
      counting up from first. */
  function StoredRows(first: int, games: seq<PgnHeaders.ParsedGame>): (rows: seq<Database.GameRow>)
    ensures |rows| == |games|
  {
    if games == [] then []
    else StoredRows(first, games[..|games| - 1]) + [StoredRow(first + |games| - 1, games[|games| - 1])]
  }

  function NormalizeAll(file: seq<PgnHeaders.RawGame>): (games: seq<PgnHeaders.ParsedGame>)
    ensures |games| == |file|
    ensures forall k :: 0 <= k < |file| ==> games[k] == PgnHeaders.Normalize(file[k])
  {
    seq(|file|, k requires 0 <= k < |file| => PgnHeaders.Normalize(file[k]))
  }

  /** The games of all files, file after file. */
  function AllGames(files: seq<seq<PgnHeaders.RawGame>>): seq<PgnHeaders.ParsedGame> {
    if files == [] then []
    else AllGames(files[..|files| - 1]) + NormalizeAll(files[|files| - 1])
  }

  function Sum(ns: seq<nat>): nat {
    if ns == [] then 0 else Sum(ns[..|ns| - 1]) + ns[|ns| - 1]
  }

  /** The number of games in each file. */
  function FileCounts(files: seq<seq<PgnHeaders.RawGame>>): (counts: seq<nat>)
    ensures |counts| == |files|
    ensures forall i :: 0 <= i < |files| ==> counts[i] == |files[i]|
  {
    seq(|files|, i requires 0 <= i < |files| => |files[i]|)
  }

  /** The reported total is the number of rows `load` appends. */
  lemma {:induction false} TotalIsGamesLoaded(files: seq<seq<PgnHeaders.RawGame>>)
    ensures Sum(FileCounts(files)) == |AllGames(files)|
  {
    if files != [] {
      var init := files[..|files| - 1];
      TotalIsGamesLoaded(init);
      assert FileCounts(files)[..|files| - 1] == FileCounts(init);
    }
  }

  /** The k-th game is stored under id first + k. */
  lemma {:induction false} StoredRowAt(first: int, games: seq<PgnHeaders.ParsedGame>, k: nat)
    requires k < |games|
    ensures StoredRows(first, games)[k] == StoredRow(first + k, games[k])
  {
    if k < |games| - 1 {
      StoredRowAt(first, games[..|games| - 1], k);
    }
  }

  /** Rows stored for two runs of games, one after the other. */
  lemma {:induction false} StoredRowsAppend(first: int, a: seq<PgnHeaders.ParsedGame>, b: seq<PgnHeaders.ParsedGame>)
    ensures StoredRows(first, a + b) == StoredRows(first, a) + StoredRows(first + |a|, b)
  {
    if b == [] {
      assert a + b == a;
    } else {
      var init := b[..|b| - 1];
      assert (a + b)[..|a + b| - 1] == a + init;
      StoredRowsAppend(first, a, init);
    }
  }

  /** One more file adds its games and its count. */
  lemma LoadStep(files: seq<seq<PgnHeaders.RawGame>>, i: nat)
    requires i < |files|
    ensures AllGames(files[..i + 1]) == AllGames(files[..i]) + NormalizeAll(files[i])
    ensures FileCounts(files[..i + 1]) == FileCounts(files[..i]) + [|files[i]|]
  {
    assert files[..i + 1][..i] == files[..i];
  }

  /** The rows a file appends continue the rows of the files before it. */
  lemma RowsAfterFile(before: seq<Database.GameRow>, first: int, done: seq<PgnHeaders.ParsedGame>,
                      games: seq<PgnHeaders.ParsedGame>, middle: seq<Database.GameRow>, next: int,
                      rows: seq<Database.GameRow>)
    requires middle == before + StoredRows(first, done) && next == first + |done|
    requires rows == middle + StoredRows(next, games)
    ensures rows == before + StoredRows(first, done + games)
  {
    StoredRowsAppend(first, done, games);
  }

  lemma SumAppend(ns: seq<nat>, n: nat)
    ensures Sum(ns + [n]) == Sum(ns) + n
  {
    assert (ns + [n])[..|ns|] == ns;
  }

  /** The inner loop of `load`: insert the games of one file in order and
      count them. */
  method LoadFile(store: Database.GameStore, games: seq<PgnHeaders.ParsedGame>) returns (count: nat)
    requires store.Valid() && store.hasTable && store.hasSequence
    modifies store
    ensures store.Valid() && store.hasTable && store.hasSequence
    ensures count == |games|
    ensures store.nextId == old(store.nextId) + |games|
    ensures store.rows == old(store.rows) + StoredRows(old(store.nextId), games)
  {
    count := 0;
    var j := 0;
    while j < |games|
      invariant 0 <= j <= |games| && count == j
      invariant store.Valid() && store.hasTable && store.hasSequence
      invariant store.nextId == old(store.nextId) + j
      invariant store.rows == old(store.rows) + StoredRows(old(store.nextId), games[..j])
    {
      var g := games[j];
      var id := store.InsertGame(g.white, g.black, g.year, g.event, g.result, g.pgn, JoinMoves(g.moves));
      assert games[..j + 1][..j] == games[..j];
      count := count + 1;
      j := j + 1;
    }
    assert games[..j] == games;
  }

  datatype LoadOutcome = NoFiles | Loaded(counts: seq<nat>, total: nat)

  /** `load`: with no files nothing happens; otherwise the schema is created if
      absent and every game of every file is inserted in order. */
  method Load(store: Database.GameStore, files: seq<seq<PgnHeaders.RawGame>>) returns (outcome: LoadOutcome)
    requires store.Valid()
    modifies store
    ensures store.Valid()
    ensures files == [] ==> outcome == NoFiles && unchanged(store)
    ensures files != [] ==> outcome == Loaded(FileCounts(files), Sum(FileCounts(files)))
    ensures files != [] ==> store.hasTable && store.hasSequence
    ensures files != [] ==>
              store.nextId == (if old(store.hasSequence) then old(store.nextId) else 1) + |AllGames(files)|
    ensures files != [] ==>
              store.rows == old(store.rows)
                            + StoredRows(if old(store.hasSequence) then old(store.nextId) else 1, AllGames(files))
  {
    if files == [] {
      return NoFiles;
    }
    store.InitDb();
    var first := store.nextId;
    ghost var before := store.rows;
    var counts: seq<nat> := [];
    var total: nat := 0;
    var i := 0;
    while i < |files|
      invariant 0 <= i <= |files|
      invariant store.Valid() && store.hasTable && store.hasSequence
      invariant counts == FileCounts(files[..i]) && total == Sum(counts)
      invariant store.nextId == first + |AllGames(files[..i])|
      invariant store.rows == before + StoredRows(first, AllGames(files[..i]))
    {
      var games := PgnHeaders.ParsePgnFile(files[i]);
      assert games == NormalizeAll(files[i]);
      ghost var done := AllGames(files[..i]);
      ghost var rowsBefore, idBefore := store.rows, store.nextId;
      assert rowsBefore == before + StoredRows(first, done);
      assert idBefore == first + |done|;
      var count := LoadFile(store, games);
      assert store.rows == rowsBefore + StoredRows(idBefore, games);
      LoadStep(files, i);
      RowsAfterFile(before, first, done, games, rowsBefore, idBefore, store.rows);
      SumAppend(counts, count);
      counts := counts + [count];
      total := total + count;
      i := i + 1;
    }
    assert files[..i] == files;
    outcome := Loaded(counts, total);
  }

  // ---------------------------------------------------------------------
  // `play`: look the game up, refuse unknown ids and empty games, replay.

  datatype PlayOutcome = NotFound | NoMoves | Played(session: Player.Session)

  /** What `play` does with the row it looked up and the keys then pressed. */
  function PlayDecision(found: Option<Database.GameRow>, keys: seq<char>): (outcome: PlayOutcome)
    ensures outcome == NotFound <==> found.None?
    ensures outcome == NoMoves <==> found.Some? && found.value.moves == ""
    ensures outcome.Played? ==>
              DecodeMoves(found.value.moves) != []
              && outcome.session == Player.Replay(DecodeMoves(found.value.moves), keys)
  {
    if found.None? then NotFound
    else
      var moves := DecodeMoves(found.value.moves);
      if moves == [] then NoMoves
      else Played(Player.Replay(moves, keys))
  }

  /** `play`: create the schema if absent, look the game up by id and, when it
      exists and has moves, step through them with the keys pressed. */
  method Play(store: Database.GameStore, id: int, keys: seq<char>) returns (outcome: PlayOutcome)
    requires store.Valid()
    modifies store
    ensures store.Valid() && store.rows == old(store.rows)
    ensures store.hasTable && store.hasSequence
    ensures store.nextId == if old(store.hasSequence) then old(store.nextId) else 1
    ensures outcome == PlayDecision(Database.FindRow(store.rows, id), keys)
  {
    store.InitDb();
    var found := store.GetGame(id);
    var game := found.value;
    if game.None? {
      return NotFound;
    }
    var moves := DecodeMoves(game.value.moves);
    if moves == [] {
      return NoMoves;
    }
    var session := Player.PlayGame(moves, keys);
    outcome := Played(session);
  }
}
