/**
  MySQLClass of TreeMySQL.java: discovery of catalogs, tables and fields through
  the driver, and the fetch of one column's values as text. The object's fields
  are the fields of a Dafny class; the server is the abstract value of module
  Jdbc, passed to every call that would open a connection.
*/
module MySql {
  import opened Wrappers
  import opened Jdbc

  const DB_URL_BASE: string := "jdbc:mysql://"

  /** The connection URL for a catalog of the configured host. */
  function Url(host: string, dbName: string): (r: string)
  {
    DB_URL_BASE + host + "/" + dbName
  }

  /** How Java's string concatenation renders a reference that may be null. */
  function JavaStr(s: Option<string>): (r: string)
  {
    match s
    case None => "null"
    case Some(v) => v
  }

  /** The values of the four text fields of the credentials dialog. */
  datatype Config = Config(host: string, dbName: string, user: string, pass: string)

  /** Every field of a MySQLClass object, as one value. */
  datatype ClientState = ClientState(
    dbHost: string, dbName: string, user: string, pass: string,
    dbUrl: Option<string>,
    databases: Option<seq<string>>,
    tables: Option<seq<string>>,
    table: Option<string>,
    fields: Option<seq<Option<string>>>)

  // ---------------------------------------------------------------------------
  // deleteLastChars

  /** `s` without its last `n` characters, or "" when it has no more than `n`. */
  function DeleteLastChars(s: string, n: nat): (r: string)
    ensures |r| == if |s| > n then |s| - n else 0
    ensures r <= s
  {
    if |s| > n then s[..|s| - n] else ""
  }

  /** Deleting as many characters as were appended gives back the original. */
  lemma DeleteAppended(s: string, t: string)
    ensures DeleteLastChars(s + t, |t|) == s
  {
    if |s| > 0 {
      assert (s + t)[..|s|] == s;
    }
  }

  // ---------------------------------------------------------------------------
  // x2s: String.valueOf(int)

  type Int32 = x: int | -0x8000_0000 <= x < 0x8000_0000

  function DigitChar(d: nat): (r: char)
    requires d < 10
  {
    "0123456789"[d]
  }

  /** The decimal digits of `n`, most significant first, without leading zeros. */
  function Digits(n: nat): (r: string)
  {
    if n < 10 then [DigitChar(n)] else Digits(n / 10) + [DigitChar(n % 10)]
  }

  function X2s(x: Int32): (r: string)
  {
    if x < 0 then "-" + Digits(-(x as int)) else Digits(x)
  }

  predicate IsDigits(s: string)
  {
    forall i :: 0 <= i < |s| ==> '0' <= s[i] <= '9'
  }

  /** The value of a string of decimal digits (the reference reading of Digits). */
  function DigitsValue(s: string): (r: nat)
    requires IsDigits(s)
  {
    if |s| == 0 then 0
    else DigitsValue(s[..|s| - 1]) * 10 + (s[|s| - 1] as int - '0' as int)
  }

  /** The decimal reading of an optional minus sign followed by at least one
      digit; None for any other string. */
  function ParseInt(s: string): (r: Option<int>)
  {
    if |s| > 0 && s[0] == '-' then
      if |s| > 1 && IsDigits(s[1..]) then Some(-(DigitsValue(s[1..]) as int)) else None
    else if |s| > 0 && IsDigits(s) then Some(DigitsValue(s))
    else None
  }

  lemma {:induction false} DigitsCorrect(n: nat)
    ensures IsDigits(Digits(n)) && |Digits(n)| > 0
    ensures DigitsValue(Digits(n)) == n
    ensures |Digits(n)| > 1 ==> Digits(n)[0] != '0'
  {
    if n >= 10 {
      DigitsCorrect(n / 10);
      var s := Digits(n);
      assert s[..|s| - 1] == Digits(n / 10);
    }
  }

  /** x2s renders every int so that parsing it back gives the int. */
  lemma X2sRoundTrip(x: Int32)
    ensures ParseInt(X2s(x)) == Some(x)
    ensures x >= 0 ==> IsDigits(X2s(x))
  {
    if x < 0 {
      var n: nat := -(x as int);
      DigitsCorrect(n);
      var d := Digits(n);
      var s := X2s(x);
      assert s == "-" + d;
      assert s[0] == '-' && |s| > 1 && s[1..] == d;
      assert ParseInt(s) == Some(-(DigitsValue(d) as int));
    } else {
      var n: nat := x as int;
      DigitsCorrect(n);
      var d := Digits(n);
      assert d[0] != '-';
      assert ParseInt(d) == Some(DigitsValue(d) as int);
    }
  }

  // ---------------------------------------------------------------------------
  // What the driver calls give, with the defaults of the catch blocks.

  /** getDataBases(conn): the catalog names, or none when the metadata call fails. */
  function CatalogList(conn: Connection): (r: seq<string>)
    ensures conn.server.metadataReadable ==>
              |r| == |conn.server.catalogs|
              && forall i :: 0 <= i < |r| ==> r[i] == conn.server.catalogs[i].name
    ensures !conn.server.metadataReadable ==> r == []
  {
    match CatalogNames(conn)
    case None => []
    case Some(names) => names
  }

  /** getTables(conn): the table names of the connection's catalog, or none when
      the metadata call fails. */
  function TableList(conn: Connection): (r: seq<string>)
    ensures conn.server.metadataReadable && conn.catalog.Some? ==>
              |r| == |conn.catalog.value.tables|
              && forall i :: 0 <= i < |r| ==> r[i] == conn.catalog.value.tables[i].name
    ensures !conn.server.metadataReadable || conn.catalog.None? ==> r == []
  {
    match TableNames(conn)
    case None => []
    case Some(names) => names
  }

  /** getFields(rsmd, table): the column names by ordinal. */
  function MetaDataFields(md: ResultSetMetaData): (r: seq<Option<string>>)
    ensures |r| == ColumnCount(md)
    ensures forall i :: 0 <= i < |r| ==> r[i] == Some(ColumnName(md, i + 1))
  {
    seq(ColumnCount(md), i requires 0 <= i < ColumnCount(md) => Some(ColumnName(md, i + 1)))
  }

  /** getFields(conn, table): the columns of the result of SELECT * on the table,
      or the one-entry array holding null that Java allocates before the query. */
  function FieldsOn(conn: Connection, tableName: string): (r: seq<Option<string>>)
    ensures ExecuteQuery(conn, SelectAll(tableName)).None? ==> r == [None]
    ensures ExecuteQuery(conn, SelectAll(tableName)).Some? ==>
              var md := ExecuteQuery(conn, SelectAll(tableName)).value.metaData;
              |r| == ColumnCount(md)
              && forall i :: 0 <= i < |r| ==> r[i] == Some(ColumnName(md, i + 1))
  {
    match ExecuteQuery(conn, SelectAll(tableName))
    case None => [None]
    case Some(rs) => MetaDataFields(rs.metaData)
  }

  /** getTables(dbName): the tables of catalog `dbName`, none if it cannot be reached. */
  function TablesFor(srv: Server, login: Login, dbName: string): (r: seq<string>)
  {
    match Connect(srv, login, dbName)
    case None => []
    case Some(conn) => TableList(conn)
  }

  /** getFields(dbName, table): [null] if catalog `dbName` cannot be reached. */
  function FieldsFor(srv: Server, login: Login, dbName: string, tableName: string): (r: seq<Option<string>>)
  {
    match Connect(srv, login, dbName)
    case None => [None]
    case Some(conn) => FieldsOn(conn, tableName)
  }

  /** Catalog `dbName` reached with the right login and readable metadata lists
      its own tables and no others. */
  lemma TablesForOwnCatalog(srv: Server, login: Login, dbName: string)
    requires login == Login(srv.host, srv.user, srv.pass) && srv.metadataReadable
    requires dbName != ""
    ensures var c := FindCatalog(srv.catalogs, dbName);
            c.None? ==> TablesFor(srv, login, dbName) == []
    ensures var c := FindCatalog(srv.catalogs, dbName);
            c.Some? ==> |TablesFor(srv, login, dbName)| == |c.value.tables|
                        && forall i :: 0 <= i < |c.value.tables| ==>
                             TablesFor(srv, login, dbName)[i] == c.value.tables[i].name
  {
  }

  // ---------------------------------------------------------------------------
  // The constructor: discovery and default selection.

  /** The state the constructor leaves. A cancelled dialog keeps the defaults and
      leaves every discovered field null. Otherwise the statements of the try
      block run until the first one that throws: the server connection, the
      index databases[2] (the default catalog is the third one), the catalog
      connection, the index tables[0]. */
  function Initial(dialog: Option<Config>, srv: Server): (st: ClientState)
    ensures dialog.None? ==>
              st == ClientState("localhost", "pets", "root", "", None, None, None, None, None)
    ensures dialog.Some? ==>
              st.dbHost == dialog.value.host && st.user == dialog.value.user
              && st.pass == dialog.value.pass
  {
    match dialog
    case None => ClientState("localhost", "pets", "root", "", None, None, None, None, None)
    case Some(cfg) =>
      var login := Login(cfg.host, cfg.user, cfg.pass);
      var none := ClientState(cfg.host, cfg.dbName, cfg.user, cfg.pass, None, None, None, None, None);
      match Connect(srv, login, "")
      case None => none
      case Some(server) =>
        var dbs := CatalogList(server);
        if |dbs| < 3 then none.(databases := Some(dbs))
        else
          var name := dbs[2];
          var chosen := none.(databases := Some(dbs), dbName := name, dbUrl := Some(Url(cfg.host, name)));
          match Connect(srv, login, name)
          case None => chosen
          case Some(conn) =>
            var ts := TableList(conn);
            if |ts| == 0 then chosen.(tables := Some(ts))
            else chosen.(tables := Some(ts), table := Some(ts[0]), fields := Some(FieldsOn(conn, ts[0])))
  }

  /** What discovery guarantees about the fields it sets: each is set only once
      the previous one is, the default catalog is the third discovered one, the
      stored table is the first table of that catalog, and the stored fields are
      that table's columns. */
  lemma InitialIsConsistent(dialog: Option<Config>, srv: Server)
    ensures var st := Initial(dialog, srv);
            && (st.fields.Some? <==> st.table.Some?)
            && (st.table.Some? ==> st.tables.Some? && |st.tables.value| > 0
                                   && st.table.value == st.tables.value[0])
            && (st.tables.Some? ==> st.dbUrl.Some?)
            && (st.dbUrl.Some? ==> st.databases.Some? && |st.databases.value| >= 3
                                   && st.dbName == st.databases.value[2]
                                   && st.dbUrl.value == Url(st.dbHost, st.dbName))
            && (st.databases.Some? ==> dialog.Some?)
  {
  }

  /** The stored fields are exactly what getFields reports for the stored table
      of the default catalog, and the stored tables what getTables reports. */
  lemma InitialMatchesDiscovery(dialog: Option<Config>, srv: Server)
    ensures var st := Initial(dialog, srv);
            var login := Login(st.dbHost, st.user, st.pass);
            && (st.tables.Some? ==> st.tables.value == TablesFor(srv, login, st.dbName))
            && (st.table.Some? ==> st.fields.value == FieldsFor(srv, login, st.dbName, st.table.value))
  {
  }

  /** With an accepted login, discovery does take place: databases is the
      driver's catalog list; with at least three catalogs the third becomes the
      default catalog, and when it can be reached its tables are stored, and
      when it has tables the first one and its fields. With fewer than three
      catalogs, databases[2] throws and the dialog's catalog and a null DB_URL
      remain. */
  lemma InitialDiscovers(cfg: Config, srv: Server)
    requires Login(cfg.host, cfg.user, cfg.pass) == Login(srv.host, srv.user, srv.pass)
    ensures var st := Initial(Some(cfg), srv);
            var dbs := CatalogList(Connection(srv, None));
            && st.databases == Some(dbs)
            && (|dbs| < 3 ==> st.dbName == cfg.dbName && st.dbUrl.None? && st.tables.None?)
    ensures var st := Initial(Some(cfg), srv);
            var dbs := CatalogList(Connection(srv, None));
            var login := Login(cfg.host, cfg.user, cfg.pass);
            |dbs| >= 3 ==>
              && st.dbName == dbs[2] && st.dbUrl == Some(Url(cfg.host, dbs[2]))
              && (Connect(srv, login, dbs[2]).None? ==> st.tables.None?)
              && (Connect(srv, login, dbs[2]).Some? ==>
                    var ts := TablesFor(srv, login, dbs[2]);
                    && st.tables == Some(ts)
                    && (|ts| == 0 ==> st.table.None? && st.fields.None?)
                    && (|ts| > 0 ==> st.table == Some(ts[0])
                                     && st.fields == Some(FieldsFor(srv, login, dbs[2], ts[0]))))
  {
  }

  /** A server that refuses the login yields no discovered state at all. */
  lemma InitialRefused(cfg: Config, srv: Server)
    requires Login(cfg.host, cfg.user, cfg.pass) != Login(srv.host, srv.user, srv.pass)
    ensures Initial(Some(cfg), srv) == ClientState(cfg.host, cfg.dbName, cfg.user, cfg.pass,
                                                   None, None, None, None, None)
  {
  }

  // ---------------------------------------------------------------------------
  // getColumn: the text of one column across the rows.

  /** What one entry `f` of the stored fields adds to the text of `row`, and
      whether the loop goes on: a null entry (f.equals throws), an unknown
      column (getString throws) and an SQL NULL (deleteLastChars throws) end
      the fetch. */
  function Cell(row: Row, f: Option<string>, field: string): (r: (string, bool))
  {
    match f
    case None => ("", false)
    case Some(name) =>
      if name != field then ("", true)
      else
        match GetString(row, name)
        case None => ("", false)
        case Some(None) => ("", false)
        case Some(Some(v)) => (DeleteLastChars(v, 2) + "\n", true)
  }

  /** The inner for loop of getColumn over the fields `fs`, for one row. */
  function RowText(row: Row, fs: seq<Option<string>>, field: string): (r: (string, bool))
  {
    if |fs| == 0 then ("", true)
    else
      var (t, ok) := RowText(row, fs[..|fs| - 1], field);
      if !ok then (t, false)
      else
        var (c, ok') := Cell(row, fs[|fs| - 1], field);
        (t + c, ok')
  }

  /** The outer while loop of getColumn over the rows. */
  function RowsText(rows: seq<Row>, fs: seq<Option<string>>, field: string): (r: (string, bool))
  {
    if |rows| == 0 then ("", true)
    else
      var (t, ok) := RowsText(rows[..|rows| - 1], fs, field);
      if !ok then (t, false)
      else
        var (u, ok') := RowText(rows[|rows| - 1], fs, field);
        (t + u, ok')
  }

  /** The text getColumn returns. It queries the stored table (its table
      argument plays no part) in catalog `dbName`, and returns "" when the
      connection or the query fails. */
  function ColumnFetch(srv: Server, login: Login, dbName: string,
                       table: Option<string>, fields: Option<seq<Option<string>>>,
                       field: string): (r: string)
  {
    match Connect(srv, login, dbName)
    case None => ""
    case Some(conn) =>
      match ExecuteQuery(conn, SelectAll(JavaStr(table)))
      case None => ""
      case Some(rs) =>
        // for (String f : fields) throws on the first row when fields is null
        if fields.None? then "" else RowsText(rs.rows, fields.value, field).0
  }

  /** One more field of the inner loop. */
  lemma RowTextStep(row: Row, fs: seq<Option<string>>, field: string, j: nat)
    requires j < |fs|
    ensures var (t, ok) := RowText(row, fs[..j], field);
            var (c, ok') := Cell(row, fs[j], field);
            RowText(row, fs[..j + 1], field) == if ok then (t + c, ok') else (t, false)
  {
    assert fs[..j + 1][..j] == fs[..j];
  }

  /** One more row of the outer loop. */
  lemma RowsTextStep(rows: seq<Row>, fs: seq<Option<string>>, field: string, i: nat)
    requires i < |rows|
    ensures var (t, ok) := RowsText(rows[..i], fs, field);
            var (u, ok') := RowText(rows[i], fs, field);
            RowsText(rows[..i + 1], fs, field) == if ok then (t + u, ok') else (t, false)
  {
    assert rows[..i + 1][..i] == rows[..i];
  }

  lemma {:induction false} RowTextStopsAtFailure(row: Row, fs: seq<Option<string>>, field: string, j: nat)
    requires j <= |fs| && !RowText(row, fs[..j], field).1
    ensures RowText(row, fs, field) == RowText(row, fs[..j], field)
    decreases |fs|
  {
    if j < |fs| {
      var init := fs[..|fs| - 1];
      assert init[..j] == fs[..j];
      RowTextStopsAtFailure(row, init, field, j);
    } else {
      assert fs[..j] == fs;
    }
  }

  lemma {:induction false} RowsTextStopsAtFailure(rows: seq<Row>, fs: seq<Option<string>>, field: string, i: nat)
    requires i <= |rows| && !RowsText(rows[..i], fs, field).1
    ensures RowsText(rows, fs, field) == RowsText(rows[..i], fs, field)
    decreases |rows|
  {
    if i < |rows| {
      var init := rows[..|rows| - 1];
      assert init[..i] == rows[..i];
      RowsTextStopsAtFailure(init, fs, field, i);
    } else {
      assert rows[..i] == rows;
    }
  }

  /** The number of entries of `fs` equal to `field`. */
  function Occurrences(fs: seq<Option<string>>, field: string): (r: nat)
  {
    if |fs| == 0 then 0
    else Occurrences(fs[..|fs| - 1], field) + (if fs[|fs| - 1] == Some(field) then 1 else 0)
  }

  function Repeat(n: nat, s: string): (r: string)
  {
    if n == 0 then "" else Repeat(n - 1, s) + s
  }

  /** The row holds a non-null value under `field`. */
  predicate HasValue(row: Row, field: string)
  {
    field in row && row[field].Some?
  }

  /** The line getColumn writes for one row: the value less its last two
      characters, then a newline. */
  function Line(row: Row, field: string): (r: string)
    requires HasValue(row, field)
  {
    DeleteLastChars(row[field].value, 2) + "\n"
  }

  /** The reference reading of the fetch: `k` copies of each row's line, row by row. */
  function Lines(rows: seq<Row>, field: string, k: nat): (r: string)
    requires forall i :: 0 <= i < |rows| ==> HasValue(rows[i], field)
  {
    if |rows| == 0 then ""
    else Lines(rows[..|rows| - 1], field, k) + Repeat(k, Line(rows[|rows| - 1], field))
  }

  lemma {:induction false} RowTextOfValue(row: Row, fs: seq<Option<string>>, field: string)
    requires forall j :: 0 <= j < |fs| ==> fs[j].Some?
    requires HasValue(row, field)
    ensures RowText(row, fs, field) == (Repeat(Occurrences(fs, field), Line(row, field)), true)
  {
    if |fs| > 0 {
      var init := fs[..|fs| - 1];
      RowTextOfValue(row, init, field);
      var k := Occurrences(init, field);
      var line := Line(row, field);
      assert RowText(row, init, field) == (Repeat(k, line), true);
      if fs[|fs| - 1] == Some(field) {
        assert Cell(row, fs[|fs| - 1], field) == (line, true);
        assert Repeat(k + 1, line) == Repeat(k, line) + line;
        assert Occurrences(fs, field) == k + 1;
      } else {
        assert Cell(row, fs[|fs| - 1], field) == ("", true);
        assert Repeat(k, line) + "" == Repeat(k, line);
      }
    }
  }

  /** With no null field name and a value in every row, the fetch runs to the
      end and writes, row by row in retrieval order, one line per occurrence of
      the field among the stored fields. */
  lemma {:induction false} RowsTextOfValues(rows: seq<Row>, fs: seq<Option<string>>, field: string)
    requires forall j :: 0 <= j < |fs| ==> fs[j].Some?
    requires forall i :: 0 <= i < |rows| ==> HasValue(rows[i], field)
    ensures RowsText(rows, fs, field) == (Lines(rows, field, Occurrences(fs, field)), true)
  {
    if |rows| > 0 {
      RowsTextOfValues(rows[..|rows| - 1], fs, field);
      RowTextOfValue(rows[|rows| - 1], fs, field);
    }
  }

  lemma {:induction false} RowTextAbsent(row: Row, fs: seq<Option<string>>, field: string)
    requires forall j :: 0 <= j < |fs| ==> fs[j] != Some(field)
    ensures RowText(row, fs, field).0 == ""
  {
    if |fs| > 0 {
      RowTextAbsent(row, fs[..|fs| - 1], field);
    }
  }

  lemma {:induction false} RowsTextAbsent(rows: seq<Row>, fs: seq<Option<string>>, field: string)
    requires forall j :: 0 <= j < |fs| ==> fs[j] != Some(field)
    ensures RowsText(rows, fs, field).0 == ""
  {
    if |rows| > 0 {
      RowsTextAbsent(rows[..|rows| - 1], fs, field);
      RowTextAbsent(rows[|rows| - 1], fs, field);
    }
  }

  /** getColumn gives "" for a table without rows and for a field that is not
      among the stored fields: the silent empty result. */
  lemma ColumnFetchEmpty(srv: Server, login: Login, dbName: string,
                         table: Option<string>, fields: Option<seq<Option<string>>>, field: string)
    requires var conn := Connect(srv, login, dbName);
             conn.Some? ==> var rs := ExecuteQuery(conn.value, SelectAll(JavaStr(table)));
                            rs.Some? ==> rs.value.rows == [] || (fields.Some? && Some(field) !in fields.value)
    ensures ColumnFetch(srv, login, dbName, table, fields, field) == ""
  {
    var conn := Connect(srv, login, dbName);
    if conn.Some? {
      var rs := ExecuteQuery(conn.value, SelectAll(JavaStr(table)));
      if rs.Some? && fields.Some? && Some(field) !in fields.value {
        RowsTextAbsent(rs.value.rows, fields.value, field);
      }
    }
  }

  /** For a reachable catalog holding the stored table, with the field once
      among non-null stored fields and a value in every row, getColumn returns
      one line per row of that table, in retrieval order. */
  lemma ColumnFetchOneLinePerRow(srv: Server, login: Login, dbName: string, t: Table,
                                 fields: seq<Option<string>>, field: string)
    requires login == Login(srv.host, srv.user, srv.pass) && dbName != ""
    requires var c := FindCatalog(srv.catalogs, dbName);
             c.Some? && FindTable(c.value.tables, t.name) == Some(t)
    requires forall j :: 0 <= j < |fields| ==> fields[j].Some?
    requires Occurrences(fields, field) == 1
    requires forall i :: 0 <= i < |t.rows| ==> HasValue(t.rows[i], field)
    ensures ColumnFetch(srv, login, dbName, Some(t.name), Some(fields), field) == Lines(t.rows, field, 1)
    ensures |t.rows| > 0 ==> Line(t.rows[0], field) <= ColumnFetch(srv, login, dbName, Some(t.name), Some(fields), field)
  {
    var conn := Connect(srv, login, dbName).value;
    ExecuteSelectAll(conn, t.name);
    RowsTextOfValues(t.rows, fields, field);
    if |t.rows| > 0 {
      LinesStartWithFirst(t.rows, field);
    }
  }

  lemma {:induction false} LinesStartWithFirst(rows: seq<Row>, field: string)
    requires |rows| > 0 && forall i :: 0 <= i < |rows| ==> HasValue(rows[i], field)
    ensures Line(rows[0], field) <= Lines(rows, field, 1)
  {
    if |rows| > 1 {
      LinesStartWithFirst(rows[..|rows| - 1], field);
    } else {
      assert Repeat(1, Line(rows[0], field)) == Line(rows[0], field);
    }
  }

  /** The three-row example: the code keeps all but the last two characters of
      each value. */
  lemma PetNamesExample()
    ensures RowsText([map["name" := Some("Rex")], map["name" := Some("Mimi")], map["name" := Some("Fido")]],
                     [Some("name")], "name")
            == ("R\nMi\nFi\n", true)
  {
    var rex: Row, mimi: Row, fido: Row := map["name" := Some("Rex")], map["name" := Some("Mimi")], map["name" := Some("Fido")];
    var rows := [rex, mimi, fido];
    var fs := [Some("name")];
    assert GetString(rex, "name") == Some(Some("Rex"));
    assert GetString(mimi, "name") == Some(Some("Mimi"));
    assert GetString(fido, "name") == Some(Some("Fido"));
    assert fs[..0] == [];
    assert DeleteLastChars("Rex", 2) == "R";
    assert DeleteLastChars("Mimi", 2) == "Mi";
    assert DeleteLastChars("Fido", 2) == "Fi";
    assert RowText(rex, fs[..0], "name") == ("", true);
    assert RowText(mimi, fs[..0], "name") == ("", true);
    assert RowText(fido, fs[..0], "name") == ("", true);
    assert DeleteLastChars("Rex", 2) + "\n" == "R\n";
    assert DeleteLastChars("Mimi", 2) + "\n" == "Mi\n";
    assert DeleteLastChars("Fido", 2) + "\n" == "Fi\n";
    assert Cell(rex, fs[0], "name") == ("R\n", true);
    assert Cell(mimi, fs[0], "name") == ("Mi\n", true);
    assert Cell(fido, fs[0], "name") == ("Fi\n", true);
    assert "" + "R\n" == "R\n" && "" + "Mi\n" == "Mi\n" && "" + "Fi\n" == "Fi\n";
    assert fs[..|fs| - 1] == fs[..0];
    assert RowText(rows[0], fs, "name") == ("R\n", true);
    assert RowText(rows[1], fs, "name") == ("Mi\n", true);
    assert RowText(rows[2], fs, "name") == ("Fi\n", true);
    assert rows[..0] == [];
    assert rows[..1][..0] == [];
    assert rows[..2][..1] == rows[..1];
    assert rows[..3] == rows;
    assert RowsText(rows[..1], fs, "name") == ("R\n", true);
    assert "R\n" + "Mi\n" == "R\nMi\n" && "R\nMi\n" + "Fi\n" == "R\nMi\nFi\n";
    assert RowsText(rows[..2], fs, "name") == ("R\nMi\n", true);
  }

  // ---------------------------------------------------------------------------
  // formQuery

  /** Java's String.join. */
  function Join(xs: seq<string>, sep: string): (r: string)
  {
    if |xs| == 0 then ""
    else if |xs| == 1 then xs[0]
    else Join(xs[..|xs| - 1], sep) + sep + xs[|xs| - 1]
  }

  /** What the loop of formQuery appends: every field and ", " after each. */
  function Terminated(fs: seq<Option<string>>): (r: string)
  {
    if |fs| == 0 then "" else Terminated(fs[..|fs| - 1]) + JavaStr(fs[|fs| - 1]) + ", "
  }

  function Names(fs: seq<Option<string>>): (r: seq<string>)
    ensures |r| == |fs| && forall i :: 0 <= i < |fs| ==> r[i] == JavaStr(fs[i])
  {
    seq(|fs|, i requires 0 <= i < |fs| => JavaStr(fs[i]))
  }

  /** Terminating every name by ", " is joining them by ", " and one more ", ". */
  lemma {:induction false} TerminatedIsJoin(fs: seq<Option<string>>)
    requires |fs| > 0
    ensures Terminated(fs) == Join(Names(fs), ", ") + ", "
  {
    var init := fs[..|fs| - 1];
    assert Names(fs)[..|fs| - 1] == Names(init);
    if |fs| > 1 {
      TerminatedIsJoin(init);
    }
  }

  // ---------------------------------------------------------------------------

  class MySqlClass {
    var table: Option<string>
    var dbUrl: Option<string>
    var dbHost: string
    var dbName: string
    var user: string
    var pass: string

    var databases: Option<seq<string>>
    var tables: Option<seq<string>>
    var fields: Option<seq<Option<string>>>

    function State(): (st: ClientState)
      reads this
    {
      ClientState(dbHost, dbName, user, pass, dbUrl, databases, tables, table, fields)
    }

    function LoginOf(): (r: Login)
      reads this
    {
      Login(dbHost, user, pass)
    }

    /** `dialog` is what the credentials dialog returns: None when it is cancelled. */
    constructor (dialog: Option<Config>, srv: Server)
      ensures State() == Initial(dialog, srv)
    {
      dbHost, dbName, user, pass := "localhost", "pets", "root", "";
      dbUrl, databases, tables, table, fields := None, None, None, None, None;
      new;
      if dialog.None? {
        return;
      }
      dbHost, dbName, user, pass := dialog.value.host, dialog.value.dbName, dialog.value.user, dialog.value.pass;
      var conn := Connect(srv, LoginOf(), "");
      if conn.None? {
        return;
      }
      var dbs := GetDataBases(conn.value);
      databases := Some(dbs);
      if |dbs| < 3 {
        return;   // databases[2] throws
      }
      dbName := dbs[2];
      dbUrl := Some(Url(dbHost, dbName));
      conn := Connect(srv, LoginOf(), dbName);
      if conn.None? {
        return;
      }
      var ts := GetTablesOn(conn.value);
      tables := Some(ts);
      if |ts| == 0 {
        return;   // tables[0] throws
      }
      table := Some(ts[0]);
      var fs := GetFieldsOn(conn.value, ts[0]);
      fields := Some(fs);
      // The row loop that follows only builds strings it discards.
    }

    method GetColumn(srv: Server, dbName_: string, table_: string, field_: string) returns (column_: string)
      modifies this`dbUrl
      ensures dbUrl == Some(Url(dbHost, dbName_))
      ensures column_ == ColumnFetch(srv, LoginOf(), dbName_, table, fields, field_)
    {
      column_ := "";
      dbUrl := Some(Url(dbHost, dbName_));
      var conn := Connect(srv, LoginOf(), dbName_);
      if conn.None? {
        return;
      }
      var rs := ExecuteQuery(conn.value, SelectAll(JavaStr(table)));
      if rs.None? {
        return;
      }
      if fields.None? {
        return;   // for (String f : fields) throws at the first row
      }
      column_ := ReadRows(rs.value.rows, fields.value, field_);
    }

    /** The loops of getColumn: while (rs.next()) over the rows, and over the
        stored fields `fs` for each; an exception leaves both loops and keeps
        the text built so far. */
    static method ReadRows(rows: seq<Row>, fs: seq<Option<string>>, field_: string) returns (column_: string)
      ensures column_ == RowsText(rows, fs, field_).0
    {
      column_ := "";
      var i := 0;
      var failed := false;
      while i < |rows| && !failed
        invariant 0 <= i <= |rows|
        invariant (column_, !failed) == RowsText(rows[..i], fs, field_)
        decreases |rows| - i
      {
        var row := rows[i];
        ghost var before := column_;
        var j := 0;
        while j < |fs| && !failed
          invariant 0 <= j <= |fs|
          invariant column_ == before + RowText(row, fs[..j], field_).0
          invariant !failed == RowText(row, fs[..j], field_).1
          decreases |fs| - j
        {
          RowTextStep(row, fs, field_, j);
          match fs[j] {
            case None =>
              failed := true;   // f.equals(field_) on a null entry
            case Some(f) =>
              if f == field_ {
                var value := GetString(row, f);
                if value.None? || value.value.None? {
                  failed := true;   // unknown column, or deleteLastChars(null, 2)
                } else {
                  column_ := column_ + (DeleteLastChars(value.value.value, 2) + "\n");
                }
              }
          }
          j := j + 1;
        }
        if failed {
          RowTextStopsAtFailure(row, fs, field_, j);
        } else {
          assert fs[..j] == fs;
        }
        RowsTextStep(rows, fs, field_, i);
        i := i + 1;
      }
      if failed {
        RowsTextStopsAtFailure(rows, fs, field_, i);
      } else {
        assert rows[..i] == rows;
      }
    }

    method GetFields(srv: Server, dbName_: string, table_: string) returns (fields_: seq<Option<string>>)
      modifies this`dbUrl
      ensures dbUrl == Some(Url(dbHost, dbName_))
      ensures fields_ == FieldsFor(srv, LoginOf(), dbName_, table_)
    {
      fields_ := [None];
      dbUrl := Some(Url(dbHost, dbName_));
      var conn := Connect(srv, LoginOf(), dbName_);
      if conn.None? {
        return;
      }
      fields_ := GetFieldsOn(conn.value, table_);
    }

    method GetTables(srv: Server, dbName_: string) returns (tables_: seq<string>)
      modifies this`dbUrl
      ensures dbUrl == Some(Url(dbHost, dbName_))
      ensures tables_ == TablesFor(srv, LoginOf(), dbName_)
    {
      tables_ := [];
      dbUrl := Some(Url(dbHost, dbName_));
      var conn := Connect(srv, LoginOf(), dbName_);
      if conn.None? {
        return;
      }
      tables_ := GetTablesOn(conn.value);
    }

    /** The catalog names the driver reports, in its order, none left out. */
    static method GetDataBases(conn: Connection) returns (databases_: seq<string>)
      ensures conn.server.metadataReadable ==>
                |databases_| == |conn.server.catalogs|
                && forall i :: 0 <= i < |databases_| ==> databases_[i] == conn.server.catalogs[i].name
      ensures !conn.server.metadataReadable ==> databases_ == []
      ensures databases_ == CatalogList(conn)
    {
      databases_ := [];
      var rs := CatalogNames(conn);
      if rs.None? {
        return;
      }
      var dbNames: seq<string> := [];
      var k := 0;
      while k < |rs.value|
        invariant 0 <= k <= |rs.value|
        invariant dbNames == rs.value[..k]
      {
        dbNames := dbNames + [rs.value[k]];
        k := k + 1;
      }
      var nElements := |dbNames|;
      var a := new string[nElements];
      for cntr := 0 to nElements
        invariant forall m :: 0 <= m < cntr ==> a[m] == dbNames[m]
      {
        a[cntr] := dbNames[cntr];
      }
      databases_ := a[..];
    }

    /** The table names of the connection's catalog, in the driver's order. */
    static method GetTablesOn(conn: Connection) returns (tables_: seq<string>)
      ensures conn.server.metadataReadable && conn.catalog.Some? ==>
                |tables_| == |conn.catalog.value.tables|
                && forall i :: 0 <= i < |tables_| ==> tables_[i] == conn.catalog.value.tables[i].name
      ensures !conn.server.metadataReadable || conn.catalog.None? ==> tables_ == []
      ensures tables_ == TableList(conn)
    {
      tables_ := [];
      var rs := TableNames(conn);
      if rs.None? {
        return;
      }
      var tableNames: seq<string> := [];
      var k := 0;
      while k < |rs.value|
        invariant 0 <= k <= |rs.value|
        invariant tableNames == rs.value[..k]
      {
        tableNames := tableNames + [rs.value[k]];
        k := k + 1;
      }
      var nElements := |tableNames|;
      var a := new string[nElements];
      for cntr := 0 to nElements
        invariant forall m :: 0 <= m < cntr ==> a[m] == tableNames[m]
      {
        a[cntr] := tableNames[cntr];
      }
      tables_ := a[..];
    }

    static method GetFieldsOn(conn: Connection, table_: string) returns (fields_: seq<Option<string>>)
      ensures fields_ == FieldsOn(conn, table_)
    {
      fields_ := [None];
      var rs := ExecuteQuery(conn, SelectAll(table_));
      if rs.None? {
        return;
      }
      fields_ := GetFieldsOfMetaData(rs.value.metaData, table_);
    }

    /** Entry i is the name of the column at ordinal i + 1. */
    static method GetFieldsOfMetaData(rsmd: ResultSetMetaData, table_: string) returns (fields_: seq<Option<string>>)
      ensures |fields_| == ColumnCount(rsmd)
      ensures forall i :: 0 <= i < |fields_| ==> fields_[i] == Some(ColumnName(rsmd, i + 1))
    {
      var n := ColumnCount(rsmd);
      var a := new Option<string>[n];
      for cntr := 0 to n
        invariant forall m :: 0 <= m < cntr ==> a[m] == Some(ColumnName(rsmd, m + 1))
      {
        a[cntr] := Some(ColumnName(rsmd, cntr + 1));
      }
      fields_ := a[..];
    }

    /** The query naming the stored fields of the stored table; None is the
        NullPointerException of a null field list. */
    method FormQuery() returns (sql: Option<string>)
      ensures fields.None? ==> sql.None?
      ensures fields.Some? && |fields.value| > 0 ==>
                sql == Some("SELECT " + Join(Names(fields.value), ", ") + " FROM " + JavaStr(table))
      ensures fields == Some([]) ==> sql == Some("SELEC FROM " + JavaStr(table))
    {
      if fields.None? {
        return None;
      }
      var fs := fields.value;
      var s := "SELECT ";
      for k := 0 to |fs|
        invariant s == "SELECT " + Terminated(fs[..k])
      {
        assert fs[..k + 1][..k] == fs[..k];
        s := s + JavaStr(fs[k]) + ", ";
      }
      assert fs[..|fs|] == fs;
      if |fs| > 0 {
        TerminatedIsJoin(fs);
        assert s == ("SELECT " + Join(Names(fs), ", ")) + ", ";
        DeleteAppended("SELECT " + Join(Names(fs), ", "), ", ");
      } else {
        assert s == "SELEC" + "T ";
        DeleteAppended("SELEC", "T ");
        assert "SELEC" + " FROM " == "SELEC FROM ";
      }
      s := DeleteLastChars(s, 2);
      s := s + " FROM " + JavaStr(table);
      sql := Some(s);
    }
  }
}
