/** The star schema: four dimension tables and the `fact_games` fact table,
    each declared by one `CREATE TABLE IF NOT EXISTS` statement, and the list
    that gives the order in which they are created. */
module Schema {
  import opened Wrappers

  datatype ColumnType = Integer | Text

  /** A column as declared: its name, type and `NOT NULL` / `UNIQUE` flags. */
  datatype Column = Column(name: string, kind: ColumnType, notNull: bool, unique: bool)

  /** `FOREIGN KEY (column) REFERENCES refTable(refColumn)`. */
  datatype ForeignKey = ForeignKey(column: string, refTable: string, refColumn: string)

  datatype Table = Table(name: string, columns: seq<Column>, primaryKey: string, foreignKeys: seq<ForeignKey>)

  /** Every statement of the schema is a `CREATE TABLE IF NOT EXISTS`. */
  datatype Statement = CreateTableIfNotExists(table: Table)

  function IntColumn(name: string): Column { Column(name, Integer, false, false) }
  function TextColumn(name: string): Column { Column(name, Text, false, false) }
  function RequiredInt(name: string): Column { Column(name, Integer, true, false) }

  const DimPlayerDdl := CreateTableIfNotExists(Table(
    "dim_player",
    [IntColumn("player_id"), Column("name", Text, true, true)],
    "player_id", []))

  const DimDateDdl := CreateTableIfNotExists(Table(
    "dim_date",
    [IntColumn("date_id"), TextColumn("date"), IntColumn("year"), IntColumn("month"), IntColumn("day")],
    "date_id", []))

  const DimEventDdl := CreateTableIfNotExists(Table(
    "dim_event",
    [IntColumn("event_id"), TextColumn("name"), TextColumn("site"), TextColumn("round")],
    "event_id", []))

  const DimResultDdl := CreateTableIfNotExists(Table(
    "dim_result",
    [IntColumn("result_id"), Column("result", Text, true, true)],
    "result_id", []))

  /** The fact table declares its primary key at table level, after the columns. */
  const FactGamesDdl := CreateTableIfNotExists(Table(
    "fact_games",
    [RequiredInt("game_id"), RequiredInt("date_id"), RequiredInt("event_id"), RequiredInt("white"),
     RequiredInt("black"), RequiredInt("result_id"), TextColumn("eco"), TextColumn("pgn"), TextColumn("moves")],
    "game_id",
    [ForeignKey("white", "dim_player", "player_id"),
     ForeignKey("black", "dim_player", "player_id"),
     ForeignKey("date_id", "dim_date", "date_id"),
     ForeignKey("event_id", "dim_event", "event_id"),
     ForeignKey("result_id", "dim_result", "result_id")]))

  /** The creation order: dimensions before the fact table. */
  const AllDdl := [DimPlayerDdl, DimDateDdl, DimEventDdl, DimResultDdl, FactGamesDdl]

  // ---------------------------------------------------------------------
  // What running the statements does to the set of tables.

  type Catalog = map<string, Table>

  datatype SchemaError = UnknownTable(table: string) | NotAKey(table: string, column: string)

  /** A column a foreign key may reference: the primary key or a UNIQUE column. */
  predicate IsKey(t: Table, column: string) {
    t.primaryKey == column || exists c :: c in t.columns && c.name == column && c.unique
  }

  predicate Resolves(cat: Catalog, fk: ForeignKey) {
    fk.refTable in cat && IsKey(cat[fk.refTable], fk.refColumn)
  }

  /** The first foreign key whose target is missing, if any. */
  function CheckReferences(cat: Catalog, fks: seq<ForeignKey>): (err: Option<SchemaError>)
    ensures err.None? <==> forall fk :: fk in fks ==> Resolves(cat, fk)
  {
    if fks == [] then None
    else
      assert fks[0] in fks;
      if fks[0].refTable !in cat then Some(UnknownTable(fks[0].refTable))
      else if !IsKey(cat[fks[0].refTable], fks[0].refColumn) then Some(NotAKey(fks[0].refTable, fks[0].refColumn))
      else
        var err := CheckReferences(cat, fks[1..]);
        assert fks == [fks[0]] + fks[1..];
        err
  }

  /** One statement: nothing happens when the table exists; otherwise it is
      created, provided every table and key it references exists. */
  function Execute(cat: Catalog, st: Statement): (r: Result<Catalog, SchemaError>)
    ensures st.table.name in cat ==> r == Ok(cat)
    ensures st.table.name !in cat ==>
              (r.Ok? <==> forall fk :: fk in st.table.foreignKeys ==> Resolves(cat, fk))
    ensures r.Ok? ==> st.table.name in r.value && r.value.Keys == cat.Keys + {st.table.name}
    ensures r.Ok? ==> forall n :: n in cat ==> r.value[n] == cat[n]
    ensures r.Ok? && st.table.name !in cat ==> r.value[st.table.name] == st.table
  {
    if st.table.name in cat then Ok(cat)
    else
      match CheckReferences(cat, st.table.foreignKeys)
      case Some(e) => Err(e)
      case None => Ok(cat[st.table.name := st.table])
  }

  /** The statements in order, stopping at the first error. */
  function ExecuteAll(cat: Catalog, ddl: seq<Statement>): (r: Result<Catalog, SchemaError>)
    ensures ddl == [] ==> r == Ok(cat)
    ensures r.Ok? ==> cat.Keys <= r.value.Keys
    decreases |ddl|
  {
    if ddl == [] then Ok(cat)
    else
      match Execute(cat, ddl[0])
      case Err(e) => Err(e)
      case Ok(next) => ExecuteAll(next, ddl[1..])
  }

  /** Running statements only adds tables: what existed stays as it was, and
      every table named ends up present. */
  lemma {:induction false} ExecuteAllKeeps(cat: Catalog, ddl: seq<Statement>)
    ensures ExecuteAll(cat, ddl).Ok? ==>
              (forall n :: n in cat ==> n in ExecuteAll(cat, ddl).value && ExecuteAll(cat, ddl).value[n] == cat[n])
              && forall st :: st in ddl ==> st.table.name in ExecuteAll(cat, ddl).value
    decreases |ddl|
  {
    if ddl != [] && Execute(cat, ddl[0]).Ok? {
      var next := Execute(cat, ddl[0]).value;
      ExecuteAllKeeps(next, ddl[1..]);
      assert ddl == [ddl[0]] + ddl[1..];
    }
  }

  /** When every table already exists, running the statements changes nothing. */
  lemma {:induction false} ExistingTablesNoOp(cat: Catalog, ddl: seq<Statement>)
    requires forall st :: st in ddl ==> st.table.name in cat
    ensures ExecuteAll(cat, ddl) == Ok(cat)
    decreases |ddl|
  {
    if ddl != [] {
      assert ddl[0] in ddl;
      ExistingTablesNoOp(cat, ddl[1..]);
    }
  }

  /** `IF NOT EXISTS` makes a second run the same as the first. */
  lemma RunTwiceIsRunOnce(cat: Catalog, ddl: seq<Statement>)
    requires ExecuteAll(cat, ddl).Ok?
    ensures ExecuteAll(ExecuteAll(cat, ddl).value, ddl) == ExecuteAll(cat, ddl)
  {
    ExecuteAllKeeps(cat, ddl);
    ExistingTablesNoOp(ExecuteAll(cat, ddl).value, ddl);
  }

  predicate DistinctNames(ddl: seq<Statement>) {
    forall i, j :: 0 <= i < j < |ddl| ==> ddl[i].table.name != ddl[j].table.name
  }

  /** Every foreign key names a key of a table created earlier in the list. */
  predicate CreationOrdered(ddl: seq<Statement>) {
    forall i, fk :: 0 <= i < |ddl| && fk in ddl[i].table.foreignKeys ==>
      exists j :: 0 <= j < i && ddl[j].table.name == fk.refTable && IsKey(ddl[j].table, fk.refColumn)
  }

  /** Every foreign key of the statements either resolves in the existing
      tables or names a key of a table created earlier in the list. */
  predicate ResolvableFrom(cat: Catalog, ddl: seq<Statement>) {
    forall i, fk :: 0 <= i < |ddl| && fk in ddl[i].table.foreignKeys ==>
      Resolves(cat, fk)
      || exists j :: 0 <= j < i && ddl[j].table.name == fk.refTable && IsKey(ddl[j].table, fk.refColumn)
  }

  /** New tables with distinct names whose references all resolve, in the
      existing tables or earlier in the list, are all created without error. */
  lemma {:induction false} ResolvableCreationSucceeds(cat: Catalog, ddl: seq<Statement>)
    requires DistinctNames(ddl) && ResolvableFrom(cat, ddl)
    requires forall st :: st in ddl ==> st.table.name !in cat
    ensures ExecuteAll(cat, ddl).Ok?
    decreases |ddl|
  {
    if ddl != [] {
      var t := ddl[0].table;
      assert ddl[0] in ddl;
      assert forall fk :: fk in t.foreignKeys ==> Resolves(cat, fk);
      var next := cat[t.name := t];
      assert Execute(cat, ddl[0]) == Ok(next);
      var rest := ddl[1..];
      assert forall st :: st in rest ==> st.table.name !in next by {
        forall st | st in rest ensures st.table.name !in next {
          var k :| 0 <= k < |rest| && rest[k] == st;
          assert ddl[k + 1] == st;
        }
      }
      assert ResolvableFrom(next, rest) by {
        forall i, fk | 0 <= i < |rest| && fk in rest[i].table.foreignKeys
          ensures Resolves(next, fk)
                  || exists j :: 0 <= j < i && rest[j].table.name == fk.refTable && IsKey(rest[j].table, fk.refColumn)
        {
          assert ddl[i + 1] == rest[i];
          if !Resolves(cat, fk) {
            var j :| 0 <= j < i + 1 && ddl[j].table.name == fk.refTable && IsKey(ddl[j].table, fk.refColumn);
            if j == 0 {
              assert Resolves(next, fk);
            } else {
              assert rest[j - 1] == ddl[j];
            }
          } else {
            assert fk.refTable != t.name;
          }
        }
      }
      ResolvableCreationSucceeds(next, rest);
    }
  }

  /** A list with distinct names in creation order builds the whole schema in
      an empty database. */
  lemma OrderedCreationSucceeds(ddl: seq<Statement>)
    requires DistinctNames(ddl) && CreationOrdered(ddl)
    ensures ExecuteAll(map[], ddl).Ok?
  {
    ResolvableCreationSucceeds(map[], ddl);
  }

  /** Each table has one integer primary-key column, and every foreign-key
      column is an integer column of the table. */
  predicate WellFormedTable(t: Table) {
    (exists c :: c in t.columns && c.name == t.primaryKey && c.kind == Integer)
    && forall fk :: fk in t.foreignKeys ==>
         exists c :: c in t.columns && c.name == fk.column && c.kind == Integer
  }

  /** A NOT NULL UNIQUE column, fit to be a natural key. */
  predicate NaturalKey(t: Table, column: string) {
    exists c :: c in t.columns && c.name == column && c.notNull && c.unique
  }

  /** The five tables have different names. */
  lemma AllDdlNamesDistinct()
    ensures |AllDdl| == 5 && DistinctNames(AllDdl)
  {
  }

  /** Each foreign key of `fact_games` aims at the primary key of one of the
      four dimensions listed before it. */
  lemma FactGamesReferencesDimensions()
    ensures forall fk :: fk in FactGamesDdl.table.foreignKeys ==>
              exists j :: 0 <= j < 4 && AllDdl[j].table.name == fk.refTable && AllDdl[j].table.primaryKey == fk.refColumn
  {
    var fks := FactGamesDdl.table.foreignKeys;
    forall fk | fk in fks
      ensures exists j :: 0 <= j < 4 && AllDdl[j].table.name == fk.refTable && AllDdl[j].table.primaryKey == fk.refColumn
    {
      var k :| 0 <= k < 5 && fks[k] == fk;
      var j := if k < 2 then 0 else k - 1;
      assert AllDdl[j].table.name == fk.refTable && AllDdl[j].table.primaryKey == fk.refColumn;
    }
  }

  /** The dimensions come first and have no foreign keys; `fact_games`
      comes last. */
  lemma DimensionsFirst()
    ensures AllDdl[4].table.name == "fact_games"
    ensures forall i :: 0 <= i < 4 ==> AllDdl[i].table.foreignKeys == []
  {
  }

  /** The declared order is a creation order: every foreign key names a key
      of a table listed before it. */
  lemma AllDdlIsCreationOrdered()
    ensures CreationOrdered(AllDdl)
  {
    DimensionsFirst();
    FactGamesReferencesDimensions();
    forall i, fk | 0 <= i < |AllDdl| && fk in AllDdl[i].table.foreignKeys
      ensures exists j :: 0 <= j < i && AllDdl[j].table.name == fk.refTable && IsKey(AllDdl[j].table, fk.refColumn)
    {
      assert i == 4;
      var j :| 0 <= j < 4 && AllDdl[j].table.name == fk.refTable && AllDdl[j].table.primaryKey == fk.refColumn;
      assert IsKey(AllDdl[j].table, fk.refColumn);
    }
  }

  /** The primary key of `fact_games` and the column of each of its foreign
      keys are integer columns of the table. */
  lemma FactGamesWellFormed()
    ensures WellFormedTable(FactGamesDdl.table)
  {
  }

  /** Every table of the schema has one integer primary-key column and
      integer foreign-key columns. */
  lemma AllDdlTablesWellFormed()
    ensures forall st :: st in AllDdl ==> WellFormedTable(st.table)
  {
    forall st | st in AllDdl ensures WellFormedTable(st.table) {
      var i :| 0 <= i < 5 && AllDdl[i] == st;
      if i == 4 {
        FactGamesWellFormed();
      } else {
        var t := st.table;
        assert t.columns[0].name == t.primaryKey && t.columns[0].kind == Integer;
      }
    }
  }

  /** `dim_player.name` and `dim_result.result` are NOT NULL UNIQUE. */
  lemma NaturalKeys()
    ensures NaturalKey(DimPlayerDdl.table, "name") && NaturalKey(DimResultDdl.table, "result")
  {
  }

  /** Running the whole list in an empty database creates the tables it
      names, five different ones, and running it again changes nothing. */
  lemma SchemaBuildsOnce()
    ensures ExecuteAll(map[], AllDdl).Ok?
    ensures ExecuteAll(map[], AllDdl).value.Keys == set st | st in AllDdl :: st.table.name
    ensures ExecuteAll(ExecuteAll(map[], AllDdl).value, AllDdl) == ExecuteAll(map[], AllDdl)
  {
    AllDdlNamesDistinct();
    AllDdlIsCreationOrdered();
    OrderedCreationSucceeds(AllDdl);
    RunTwiceIsRunOnce(map[], AllDdl);
    KeysAfterCreation(map[], AllDdl);
  }

  /** The tables present after a successful run: the existing ones and the
      ones the statements name. */
  lemma {:induction false} KeysAfterCreation(cat: Catalog, ddl: seq<Statement>)
    requires ExecuteAll(cat, ddl).Ok?
    ensures ExecuteAll(cat, ddl).value.Keys == cat.Keys + set st | st in ddl :: st.table.name
    decreases |ddl|
  {
    if ddl != [] {
      var next := Execute(cat, ddl[0]).value;
      KeysAfterCreation(next, ddl[1..]);
      assert ddl == [ddl[0]] + ddl[1..];
      assert (set st | st in ddl :: st.table.name)
             == {ddl[0].table.name} + set st | st in ddl[1..] :: st.table.name;
    }
  }
}
