/**
  An abstract view of the MySQL server and of the few JDBC calls the viewer
  makes. Every call that can throw an SQLException is a lookup that returns
  None on failure. Nothing here performs I/O.
*/
module Jdbc {
  import opened Wrappers

  /** One row of a result set: column label to value; a None value is SQL NULL. */
  type Row = map<string, Option<string>>

  datatype Table = Table(name: string, columns: seq<string>, rows: seq<Row>)

  datatype Catalog = Catalog(name: string, tables: seq<Table>)

  /** The server reachable at `host`, the one account it accepts, whether its
      metadata calls succeed, and its catalogs in the order it reports them. */
  datatype Server = Server(host: string, user: string, pass: string,
                           metadataReadable: bool, catalogs: seq<Catalog>)

  /** What DriverManager.getConnection is given besides the catalog name. */
  datatype Login = Login(host: string, user: string, pass: string)

  /** An open connection; `catalog` is None for a connection to the server
      URL without a catalog part. */
  datatype Connection = Connection(server: Server, catalog: Option<Catalog>)

  datatype ResultSetMetaData = ResultSetMetaData(columnNames: seq<string>)

  datatype ResultSet = ResultSet(metaData: ResultSetMetaData, rows: seq<Row>)

  /** The first catalog of `cs` called `name`. */
  function FindCatalog(cs: seq<Catalog>, name: string): (r: Option<Catalog>)
    ensures r.Some? ==> exists i :: 0 <= i < |cs| && cs[i] == r.value && r.value.name == name
                                    && forall j :: 0 <= j < i ==> cs[j].name != name
    ensures r.None? ==> forall i :: 0 <= i < |cs| ==> cs[i].name != name
  {
    if |cs| == 0 then None
    else if cs[0].name == name then Some(cs[0])
    else
      var r := FindCatalog(cs[1..], name);
      assert r.Some? ==> exists i :: 1 <= i < |cs| && cs[i] == r.value
                                     && forall j :: 1 <= j < i ==> cs[j].name != name;
      r
  }

  /** The first table of `ts` called `name`. */
  function FindTable(ts: seq<Table>, name: string): (r: Option<Table>)
    ensures r.Some? ==> exists i :: 0 <= i < |ts| && ts[i] == r.value && r.value.name == name
                                    && forall j :: 0 <= j < i ==> ts[j].name != name
    ensures r.None? ==> forall i :: 0 <= i < |ts| ==> ts[i].name != name
  {
    if |ts| == 0 then None
    else if ts[0].name == name then Some(ts[0])
    else
      var r := FindTable(ts[1..], name);
      assert r.Some? ==> exists i :: 1 <= i < |ts| && ts[i] == r.value
                                     && forall j :: 1 <= j < i ==> ts[j].name != name;
      r
  }

  /** DriverManager.getConnection for the URL of `login.host` and `catalogName`:
      it fails for another host, a rejected account or an unknown catalog. An
      empty catalog name is the server URL that ends in "/". */
  function Connect(srv: Server, login: Login, catalogName: string): (r: Option<Connection>)
    ensures r.Some? <==> login == Login(srv.host, srv.user, srv.pass)
                         && (catalogName == "" || FindCatalog(srv.catalogs, catalogName).Some?)
    ensures r.Some? ==> r.value.server == srv
                        && r.value.catalog == (if catalogName == "" then None
                                               else FindCatalog(srv.catalogs, catalogName))
  {
    if login != Login(srv.host, srv.user, srv.pass) then None
    else if catalogName == "" then Some(Connection(srv, None))
    else
      match FindCatalog(srv.catalogs, catalogName)
      case None => None
      case Some(c) => Some(Connection(srv, Some(c)))
  }

  /** getMetaData().getCatalogs(), read through the TABLE_CAT column. */
  function CatalogNames(conn: Connection): (r: Option<seq<string>>)
  {
    var cs := conn.server.catalogs;
    if conn.server.metadataReadable
    then Some(seq(|cs|, i requires 0 <= i < |cs| => cs[i].name))
    else None
  }

  /** getMetaData().getTables(null, null, "%", null), read through column 3
      (TABLE_NAME): the tables of the connection's catalog. A connection without
      a catalog has no current database, and the call fails. */
  function TableNames(conn: Connection): (r: Option<seq<string>>)
  {
    if !conn.server.metadataReadable || conn.catalog.None? then None
    else
      var ts := conn.catalog.value.tables;
      Some(seq(|ts|, i requires 0 <= i < |ts| => ts[i].name))
  }

  const SELECT_ALL_FROM: string := "SELECT * FROM "

  /** The only data query the viewer executes; the table name is pasted in. */
  function SelectAll(tableName: string): (r: string)
  {
    SELECT_ALL_FROM + tableName
  }

  /** Statement.executeQuery for the queries of the form SelectAll(t): all rows
      of table t of the connection's catalog. Any other query, a connection
      without a catalog or an unknown table is an SQLException. */
  function ExecuteQuery(conn: Connection, sql: string): (r: Option<ResultSet>)
  {
    var n := |SELECT_ALL_FROM|;
    if conn.catalog.None? || |sql| < n || sql[..n] != SELECT_ALL_FROM then None
    else
      match FindTable(conn.catalog.value.tables, sql[n..])
      case None => None
      case Some(t) => Some(ResultSet(ResultSetMetaData(t.columns), t.rows))
  }

  /** ResultSet.getString(column) on the current row: None is the SQLException
      for an unknown column label, Some(None) is SQL NULL. */
  function GetString(row: Row, column: string): (r: Option<Option<string>>)
  {
    if column in row then Some(row[column]) else None
  }

  /** ResultSetMetaData.getColumnCount. */
  function ColumnCount(md: ResultSetMetaData): (r: nat)
  {
    |md.columnNames|
  }

  /** ResultSetMetaData.getColumnName, whose ordinals start at 1. */
  function ColumnName(md: ResultSetMetaData, column: nat): (r: string)
    requires 1 <= column <= ColumnCount(md)
  {
    md.columnNames[column - 1]
  }

  /** Executing SelectAll(t) looks up exactly the table named t. */
  lemma ExecuteSelectAll(conn: Connection, tableName: string)
    ensures var r := ExecuteQuery(conn, SelectAll(tableName));
            if conn.catalog.None? then r.None?
            else match FindTable(conn.catalog.value.tables, tableName)
                 case None => r.None?
                 case Some(t) => r == Some(ResultSet(ResultSetMetaData(t.columns), t.rows))
  {
    var sql := SelectAll(tableName);
    assert sql[..|SELECT_ALL_FROM|] == SELECT_ALL_FROM;
    assert sql[|SELECT_ALL_FROM|..] == tableName;
  }
}
