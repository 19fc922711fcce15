# chessprompter, modelled in Dafny

chessprompter loads chess games from PGN files into a small database. It lists
the games, and it replays one game move by move: single keystrokes move a
cursor over its plies. This project models the logic of that program and proves
properties of it. Each source file has one module, written against that file's
own revision of the code:

- `Player` (`player.py`): the key loop of `play_game` and the label drawn for
  each position. The cursor moves over `0..len(moves)`:
  - `n`, `N` and space advance;
  - `b` and `B` retreat;
  - `q`, `Q` and Ctrl-C quit;
  - every other key is ignored.

  The loop is a method proved equal to a specification function over the
  sequence of keys pressed.
- `PgnHeaders` (`pgn_parser.py`): how one game's header tags and mainline
  become a `ParsedGame`:
  - White and Black default to `"Unknown"`;
  - the year is the number before the first dot of Date;
  - Event `?` and Result `*` mean no value.

  The generator loop of `parse_pgn_file` is a method over a file's games.
- `Database` (`database.py`): the `games` table and its id sequence, as a
  class holding the rows in insertion order and the sequence's next value.
  - `init_db`, `insert_game`, `list_games` and `get_game` are its methods.
  - The listing order `ORDER BY year DESC NULLS LAST, id DESC` is a
    specification function.
- `Cli` (`cli.py`): the commands.
  - `load`: the comma-joined storage of moves and the counting of games.
  - `list`: the fixed-width layout of a listing row, with name truncation and
    the `-` placeholders.
  - `play`: its guards against an unknown id and a game without moves.
- `Schema` (`schema.py`): the five `CREATE TABLE IF NOT EXISTS` statements and
  `ALL_DDL`, as table, column and foreign-key data.
  - Running a statement means: nothing happens when the table exists;
    otherwise the table is created if every table and key it references
    exists.
  - On that reading, the order of `ALL_DDL` builds the schema, and building it
    twice is the same as building it once.

Two helper modules support these. `Wrappers` holds Option, Result and
Python's truthiness of optional values. `Text` writes decimal numbers as
`str()` does, reads them as `int()` does, and pads text as `{x:<w}` does.

Three facts about the code shape the model:

- `list_games` orders by year (descending, missing years last) and then by id
  (descending).
- Game ids come from the sequence `games_id_seq`, which starts at 1 and only
  ever advances.
- The star schema has exactly the five tables and the columns that
  `schema.py` declares.

## Model

| member | source | states |
|---|---|---|
| Text.ShowNat | src/chessprompter/player.py:59 | The decimal text of a count is non-empty, all digits, and has no leading zero. |
| Text.ShowNatValue | src/chessprompter/player.py:59 | The digits written for a count read back as that count. |
| Text.ShowNatInjective | src/chessprompter/player.py:59 | Different counts are written differently. |
| Text.ShowInt | src/chessprompter/cli.py:84 | `str()` of an integer is never empty and never a lone minus sign. |
| Text.ParseInt | src/chessprompter/pgn_parser.py:38 | `int()` yields a value exactly for text made of an optional `+` or `-` and one or more digits: the digits' decimal value, negated after a minus sign, leading zeros allowed. |
| Text.LeadingZeros | src/chessprompter/pgn_parser.py:38 | Zeros in front of a run of digits do not change its value. |
| Text.ParseZeroPadded | src/chessprompter/pgn_parser.py:38 | `int()` of a zero-padded number such as "0800" is the number. |
| Text.ParsePlusSigned | src/chessprompter/pgn_parser.py:38 | `int()` of "+" followed by a number is the number. |
| Text.ParseShowInt | src/chessprompter/cli.py:84 | `int(str(i)) == i` for every integer, negative ones included. |
| Text.Repeat | src/chessprompter/cli.py:82 | `c * n` has length n and holds only c. |
| Text.PadRight | src/chessprompter/cli.py:90 | `{s:<w}` is s followed by spaces up to width w; a longer s is kept whole. |
| Player.Classify | src/chessprompter/player.py:69-79 | Defines the key table: exactly `q`, `Q` and Ctrl-C quit, exactly `n`, `N` and space advance, exactly `b` and `B` retreat; every other key is ignored. |
| Player.Label | src/chessprompter/player.py:49-62 | Defines the text drawn for each position (`display_position`): "  Starting position" at ply 0; for a later ply, the move number, "." for White or "..." for Black, the SAN move and the `[ply/total]` counter, so the text ends in "]". |
| Player.React | src/chessprompter/player.py:66-79 | Only a quit key stops the loop. An advance key moves the cursor to the next position when it is before the end and is a no-op at the end. A retreat key moves to the previous position when after the start and is a no-op at the start. Any other key changes nothing. A move never leaves `0..total` and always changes the position. |
| Player.MoveNumbering | src/chessprompter/player.py:54-55 | Ply 2n-1 is White's move n and ply 2n is Black's move n. The next ply keeps the number after a white ply and increments it after a black ply. |
| Player.LabelsIdentifyPositions | src/chessprompter/player.py:51-61 | Two positions with the same label are the same position: the start label differs from every move label, and the `[i/total]` counter tells move labels apart. |
| Player.OpeningLabels | src/chessprompter/player.py:54-61 | For 1. e4 e5 2. Nf3 the labels are " 1. e4 [1/3]", " 1... e5 [2/3]" and " 2. Nf3 [3/3]": White's plies get "n.", Black's get "n...", and the move shown is `moves[i-1]`. |
| Player.Run | src/chessprompter/player.py:66-79 | From any state the loop keeps the cursor within `0..len(moves)`. It only reads keys forward and only appends labels to what was drawn. |
| Player.RunStopsAtFirstQuit | src/chessprompter/player.py:69-71 | The loop ends right after the first quit key and reads no key beyond it. With no quit key, it reads every key. |
| Player.AdvanceThenRetreat | src/chessprompter/player.py:72-79 | Advancing from a position before the end and then retreating returns to that position, after drawing the next position and then this one again. |
| Player.ThreePlyReplay | src/chessprompter/player.py:46-79 | For a three-ply game, the keys n n n n b q start at position 0, draw the start and the three plies, and ignore the fourth advance. They then go back to ply 2 and quit there after reading all six keys. |
| Player.Banner | src/chessprompter/player.py:34-44 | The header block, line by line: a blank line and a rule of 60 `=`, then "  white vs black". Then, only when truthy and in this order, the Year line (a year of 0 is skipped), the Event line and the Result line. Then a rule of 60 `=`, a blank line, the Controls line and a rule of 40 `-`. |
| Player.PlayGame | src/chessprompter/player.py:46-79 | The imperative key loop produces exactly the session the specification function `Replay` describes: the final cursor, whether a quit ended it, every label drawn, and the keys read. |
| PgnHeaders.PlayerName | src/chessprompter/pgn_parser.py:31-32 | A present White/Black value passes through unchanged; a missing one becomes "Unknown". |
| PgnHeaders.BeforeFirstDot | src/chessprompter/pgn_parser.py:38 | `split(".")[0]` is the longest prefix without a dot: it is followed by a dot or is the whole text. |
| PgnHeaders.ParseYear | src/chessprompter/pgn_parser.py:34-40 | An empty Date or the placeholder "????.??.??" gives no year. |
| PgnHeaders.DateYear | src/chessprompter/pgn_parser.py:34-40 | A game without a Date tag has no year. A Date tag that is neither empty nor the placeholder gives exactly `int()` of the text before its first dot, no year when that fails. |
| PgnHeaders.YearOfDate | src/chessprompter/pgn_parser.py:37-40 | A Date of the form `<year>.<anything>` gives that year, for every integer year. |
| PgnHeaders.DotlessDate | src/chessprompter/pgn_parser.py:36-40 | A non-empty date with no dot, such as "1858", is all year part: its year is `int()` of the whole text. |
| PgnHeaders.YearPartOfDate | src/chessprompter/pgn_parser.py:36-40 | For any date containing a dot, the year is exactly what `int()` makes of the text before the first dot; the placeholder "????.??.??" agrees, since "????" is no number. |
| PgnHeaders.ZeroPaddedYear | src/chessprompter/pgn_parser.py:36-40 | A year written with leading zeros, as PGN writes years below 1000, gives the year. |
| PgnHeaders.EarlyYear | src/chessprompter/pgn_parser.py:36-40 | The date "0800.??.??" gives the year 800. |
| PgnHeaders.PlusSignedYear | src/chessprompter/pgn_parser.py:36-40 | A year written with a leading "+" gives the year. |
| PgnHeaders.UnknownYearPart | src/chessprompter/pgn_parser.py:36-40 | A Date whose year part is "????", such as "????.01.01", gives no year instead of failing. |
| PgnHeaders.EventName | src/chessprompter/pgn_parser.py:42-44 | There is no event exactly when Event is absent or "?"; otherwise the event is the tag value verbatim. |
| PgnHeaders.GameResult | src/chessprompter/pgn_parser.py:46-48 | There is no result exactly when Result is absent or "*"; otherwise "1-0", "0-1", "1/2-1/2" or any other value is kept verbatim. |
| PgnHeaders.Normalize | src/chessprompter/pgn_parser.py:50-68 | The parsed game carries one SAN entry per mainline move, in game order, and the exported PGN text. |
| PgnHeaders.ParsePgnFile | src/chessprompter/pgn_parser.py:25-68 | One parsed game per game read, in file order. Each game's move list is copied move by move from the mainline. |
| Database.Summaries | src/chessprompter/database.py:61 | The listing projects every row, one for one, to (id, white, black, year, event, result). |
| Database.FindRow | src/chessprompter/database.py:70-77 | A lookup returns a row of the table that has the id, and returns nothing exactly when no row has it. |
| Database.FindAppended | src/chessprompter/database.py:46-54 | A row appended with an id above every earlier id is the row a lookup by that id finds. |
| Database.Before | src/chessprompter/database.py:63 | Defines `ORDER BY year DESC NULLS LAST, id DESC`: a later year first, any year before no year, and within equal or missing years the higher id first; a row is never before itself. |
| Database.BeforeIsStrictOrder | src/chessprompter/database.py:63 | The listing order is irreflexive, asymmetric and transitive (and so is "not before"), and it is total on rows with different ids. |
| Database.InsertOrdered | src/chessprompter/database.py:63 | Inserting a summary into an ordered listing keeps it ordered and adds exactly that summary. |
| Database.Listing | src/chessprompter/database.py:59-65 | The listing is ordered: years descending, missing years after all present ones, equal years by id descending. It is a permutation of the summaries. |
| Database.OrderedUnique | src/chessprompter/database.py:63 | When ids identify rows, two ordered arrangements of the same summaries are equal. |
| Database.SummariesIdentified | src/chessprompter/database.py:20 | Rows with increasing ids (the primary key) give summaries that no two share an id. |
| Database.ListingIsTheOrderedArrangement | src/chessprompter/database.py:59-65 | Any ordered permutation of the table's summaries is the listing, so the order determines the result completely. |
| Database.GameStore.constructor | src/chessprompter/database.py:13 | A freshly opened database file has no table, no sequence and no rows. |
| Database.GameStore.InitDb | src/chessprompter/database.py:16-32 | Afterwards the table and the sequence exist. A newly created sequence starts at 1, and rows are untouched. When both already exist, nothing changes (idempotent). |
| Database.GameStore.InsertGame | src/chessprompter/database.py:35-54 | Fails without the table or the sequence. Otherwise it appends exactly one row with the sequence's next value as id, leaves earlier rows untouched, returns that id and advances the sequence. Ids stay unique and increasing. |
| Database.GameStore.ListGames | src/chessprompter/database.py:57-65 | Fails without the table. Otherwise it returns every row once, projected, in listing order. |
| Database.GameStore.GetGame | src/chessprompter/database.py:68-78 | Fails without the table. Otherwise it returns the full 8-field row with the id, or nothing when no row has it. |
| Database.ThreeInsertsFromFresh | src/chessprompter/database.py:31 | After `init_db` on a fresh database, three inserts get ids 1, 2 and 3, and `get_game(2)` returns the second game. |
| Cli.JoinMoves | src/chessprompter/cli.py:57 | `",".join(ms)` is empty exactly for no moves or the one empty move. |
| Cli.SplitOnComma | src/chessprompter/cli.py:112 | `split(",")` gives at least one piece, and no piece holds a comma. |
| Cli.DecodeMoves | src/chessprompter/cli.py:112 | The stored move string decodes to no moves exactly when it is empty. |
| Cli.JoinSplit | src/chessprompter/cli.py:112 | `",".join(s.split(","))` is s for every text s. |
| Cli.SplitJoin | src/chessprompter/cli.py:57 | `",".join(ms).split(",")` is ms for every non-empty list of comma-free pieces. |
| Cli.DecodeJoinedMoves | src/chessprompter/cli.py:57 | For comma-free moves, what `load` stores comes back unchanged in `play` exactly when the list is not the single empty move `[""]`, which is stored as "" and reads back as no moves. |
| Cli.JoinDecodedMoves | src/chessprompter/cli.py:112 | Every stored move string decodes to moves that join back to it. |
| Cli.Truncate | src/chessprompter/cli.py:88-89 | A displayed name has at most 25 characters. A name of 25 characters or fewer is unchanged; a longer one shows its first 22 characters and then "...". |
| Cli.YearText | src/chessprompter/cli.py:84 | The year column is "-" exactly when the year is missing or 0; otherwise its text reads back as the year. |
| Cli.OrDash | src/chessprompter/cli.py:85-86 | A missing or empty result or ECO is shown as "-"; any other value is shown as-is. |
| Cli.FormatRow | src/chessprompter/cli.py:90 | A listing row is at least 77 characters plus the ECO text, and the ECO text (or "-") ends it. |
| Cli.ColumnsAligned | src/chessprompter/cli.py:90 | While the id and year fit in 6 characters and the result in 10, each field sits at a fixed offset: id at 0, white at 7, black at 33, year at 59, result at 66, ECO from 77. Each field is padded to its width. |
| Cli.ListOutput | src/chessprompter/cli.py:77-90 | With no games the output is the "No games loaded" message only. Otherwise it is the header, a rule of 90 dashes, and one formatted row per game, in order. |
| Cli.StoredRowAt | src/chessprompter/cli.py:45-58 | The k-th game inserted in a run is stored under the k-th id handed out, with its moves comma-joined. |
| Cli.FileCounts | src/chessprompter/cli.py:43-60 | Each file's count is the number of games parsed from it. |
| Cli.TotalIsGamesLoaded | src/chessprompter/cli.py:61-64 | The reported total, the sum of the per-file counts, is the number of games inserted. |
| Cli.LoadFile | src/chessprompter/cli.py:43-60 | Inserting one file's games appends one row per game, in order, with consecutive ids, and counts them. |
| Cli.Load | src/chessprompter/cli.py:31-64 | With no files, nothing happens and the outcome says so. Otherwise the schema is created if absent and every game of every file is appended in order with consecutive ids from the sequence. The sequence ends one past the last id handed out. The counts are the per-file game numbers, and the total is their sum. |
| Cli.PlayDecision | src/chessprompter/cli.py:107-118 | An unknown id gives "not found" and an empty move string gives "no moves", and neither starts a replay. Otherwise the replay runs over the non-empty decoded moves. |
| Cli.Play | src/chessprompter/cli.py:101-118 | `play` leaves the table and sequence in place afterwards (a new sequence at 1, an existing one unchanged) and the stored rows untouched. It does exactly what `PlayDecision` says for the row the lookup by id finds. |
| Schema.CheckReferences | src/chessprompter/schema.py:48-52 | Reports no error exactly when every foreign key names an existing table and a key column of it. |
| Schema.Execute | src/chessprompter/schema.py:36-54 | `CREATE TABLE IF NOT EXISTS` changes nothing when the table exists. Otherwise it succeeds exactly when every foreign key resolves, and then adds only that table. |
| Schema.ExecuteAll | src/chessprompter/schema.py:56-57 | Running no statements changes nothing, and a successful run of statements in order never loses a table. |
| Schema.ExecuteAllKeeps | src/chessprompter/schema.py:57 | A successful run keeps every existing table as it was and leaves every named table present. |
| Schema.KeysAfterCreation | src/chessprompter/schema.py:57 | After a successful run, the tables are the existing ones plus the ones the statements name. |
| Schema.ExistingTablesNoOp | src/chessprompter/schema.py:57 | When every table already exists, running the statements changes nothing. |
| Schema.RunTwiceIsRunOnce | src/chessprompter/schema.py:57 | Running a list of statements a second time gives the same result as running it once. |
| Schema.ResolvableCreationSucceeds | src/chessprompter/schema.py:56-57 | New tables with distinct names succeed when each reference resolves, either among existing tables or to a table earlier in the list. |
| Schema.OrderedCreationSucceeds | src/chessprompter/schema.py:56-57 | A list in creation order with distinct names builds in an empty database without error. |
| Schema.AllDdlNamesDistinct | src/chessprompter/schema.py:57 | `ALL_DDL` lists five tables with different names. |
| Schema.FactGamesReferencesDimensions | src/chessprompter/schema.py:47-52 | Each of `fact_games`'s five foreign keys targets the primary key of a dimension listed before it. |
| Schema.DimensionsFirst | src/chessprompter/schema.py:56-57 | The four dimensions come first and have no foreign keys; `fact_games` comes last. |
| Schema.AllDdlIsCreationOrdered | src/chessprompter/schema.py:48-57 | Every table named in a foreign key appears earlier in `ALL_DDL` than the table that references it. |
| Schema.FactGamesWellFormed | src/chessprompter/schema.py:37-52 | The table-level primary key and every foreign-key column of `fact_games` are integer columns of it. |
| Schema.AllDdlTablesWellFormed | src/chessprompter/schema.py:3-57 | Each of the five statements (`DIM_PLAYER_DDL`, `DIM_DATE_DDL`, `DIM_EVENT_DDL`, `DIM_RESULT_DDL`, `FACT_GAMES_DDL`, modelled as constants and listed in `ALL_DDL`) declares an integer primary-key column, and every foreign-key column is an integer column. |
| Schema.NaturalKeys | src/chessprompter/schema.py:3-33 | `dim_player.name` and `dim_result.result` are NOT NULL UNIQUE. |
| Schema.SchemaBuildsOnce | src/chessprompter/schema.py:57 | Running `ALL_DDL` on an empty database creates exactly the tables it names, and running it again changes nothing. |

## Left out

- Terminal I/O is not modelled. This covers `get_single_key`, raw mode, `clear_line`'s ANSI sequence and `print`/`click.echo`. Keys are a finite sequence given as input, and the output is the labels and lines as strings. A label is the text after the carriage return.
- Player.PlayGame: when the given keys run out without a quit key the loop stops. The program would instead block waiting for the next key.
- Player.PlayGame does not draw the banner; `Player.Banner` gives those lines separately.
- Reading PGN, SAN generation and PGN export belong to python-chess. A game arrives as its header map, its SAN mainline and its exported text. The reader's filling of the seven standard tags with defaults (such as White "?") is not modelled: a tag is either present in the map or absent.
- Text.ParseInt reads only an optional sign and ASCII digits. Python's `int()` also accepts surrounding whitespace, `_` between digits and non-ASCII digits; for such Date values the model gives no year where Python gives one. Python's `int()` also refuses decimal text of more than 4300 digits (its default `int_max_str_digits`), and then no year is recorded; the model reads digit runs of any length, so for such a Date it gives a year where the program gives none.
- DuckDB is not modelled: the connection, the `mkdir` of the database directory, SQL text and the 32-bit range of `INTEGER`. Ids and years are unbounded integers.
- The Click decorators, argument parsing and `conn.close()` are not modelled.
- `cli.py` is out of step with the other files, and the model does not reproduce the mismatch:
  - `load` passes `white_players`, `black_players`, `is_consultation` and `eco`, which `ParsedGame` and `insert_game` lack. `Cli.Load` inserts with `insert_game`'s own parameters.
  - `list` unpacks seven fields where `list_games` returns six. `Cli.ListOutput` formats `cli.py`'s own seven-field shape, minus the undisplayed `is_consultation`.
  - `play` passes seven arguments to the six-parameter `play_game`. `Cli.Play` runs the key loop over the decoded moves.
- Cli.ColumnsAligned covers only ids and years of up to 6 characters and results of up to 10. Longer values push the later columns right, as `{x:<w}` does, and the lemma says nothing about that case.
- The `Schema` module's reading of a statement stands for what the database engine does with it; `schema.py` itself only declares the statements.
