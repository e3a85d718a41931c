# DatabaseViewer core, modelled in Dafny

DatabaseViewer browses a MySQL server it knows nothing about in advance. At
startup `MySQLClass` discovers the catalogs, picks a default catalog and its
first table, and records that table's fields. `TreeMySQL.createNodes` then
builds the tree "Databases" → catalog → table → column: it asks `getTables` for
each catalog and `getFields` for each table. When a leaf is selected,
`valueChanged` takes the texts of the leaf, its parent and its grandparent as
(catalog, table, column). It passes them to `getColumn`, which returns the
column's values as newline-separated text.

The model has four modules:

- `Wrappers` (wrappers.dfy): `Option`, used for Java's null and for calls that
  throw.
- `Jdbc` (jdbc.dfy): the server as a value (host, account, catalogs, tables,
  rows). The driver calls that can throw SQLException are functions that
  return `None` where they would throw: `Connect`, `CatalogNames`,
  `TableNames`, `ExecuteQuery` and `GetString`. The result-set metadata calls
  `ColumnCount` and `ColumnName` never fail in the model.
- `MySql` (mysql.dfy): `MySQLClass` as the class `MySqlClass`, whose fields are
  the Java fields. A null array is `None`, and a field list may hold null
  entries. The module also has the specification functions the methods are
  proved against (`Initial`, `ColumnFetch`, `TablesFor`, `FieldsFor`, …) and
  the lemmas about them.
- `TreeView` (tree_mysql.dfy): tree nodes, the tree `createNodes` builds, the
  ancestry step of `valueChanged`, and the class `TreeMySql` that holds
  `mysql`, the tree and the pane text.

Each method that opens a connection takes the server as a parameter. Every
`try` block becomes the sequence of its statements up to the first one that
throws. The `catch` default is what is left: an empty array for
`getDataBases` and `getTables`, a one-entry array holding null for
`getFields`, and the text built so far for `getColumn`.

Where the code's behaviour is surprising, the model follows the code:

- `getColumn` ignores its table argument. It queries the table stored at
  startup and loops over the stored fields, in whatever catalog it is given.
  This is visible in `GetColumn`'s contract, which names `table` and `fields`
  but not `table_`.
- `getColumn` does not return the values unchanged. Each line is the value
  with its last two characters removed, then "\n". `PetNamesExample` shows the
  rows Rex, Mimi and Fido giving "R\nMi\nFi\n".
- A null entry among the stored fields ends the fetch and keeps the text built
  so far. So do an unknown column and an SQL NULL value. A missing field
  gives "".
- The default catalog is the third catalog discovered (`databases[2]`). The
  catalog name typed in the dialog is overwritten. If fewer than three
  catalogs exist, discovery stops there.

## Model

| member | source | states |
|---|---|---|
| `Jdbc.FindCatalog` | TreeMySQL.java:192-193 | the catalog a catalog URL names is the first one with that name; None exactly when no catalog has that name |
| `Jdbc.FindTable` | TreeMySQL.java:371 | the table a query names is the first table of the catalog with that name; None exactly when there is none |
| `Jdbc.Connect` | TreeMySQL.java:184 | a connection opens exactly when the host and account match and the catalog part is empty or names an existing catalog, and it is bound to that catalog |
| `Jdbc.ExecuteSelectAll` | TreeMySQL.java:371 | executing "SELECT * FROM " + t on a catalog connection gives the columns and rows of the table named t, and fails when there is none |
| `MySql.DeleteLastChars` | TreeMySQL.java:404-411 | the result is a prefix of s of length max(\|s\| - n, 0): s minus its last n characters, or "" |
| `MySql.DeleteAppended` | TreeMySQL.java:404-411 | deleting as many characters as were appended gives back the original string |
| `MySql.X2sRoundTrip` | TreeMySQL.java:412-414 | the decimal rendering of every int parses back to that int; a non-negative int renders as digits only |
| `MySql.DigitsCorrect` | TreeMySQL.java:412-414 | the digits of n are decimal digits without a leading zero, and their value is n |
| `MySql.CatalogList` | TreeMySQL.java:324-334 | the catalog list is every catalog name the driver reports, in its order, or empty when the metadata call fails |
| `MySql.TableList` | TreeMySQL.java:346-358 | the table list is every table name of the connection's catalog, in order, or empty when the call fails |
| `MySql.MetaDataFields` | TreeMySQL.java:384-388 | one entry per column of the result, entry i being the name at ordinal i + 1 |
| `MySql.FieldsOn` | TreeMySQL.java:367-380 | a failed query gives the one-entry array holding null; otherwise the column names of the SELECT * result by ordinal |
| `MySql.TablesForOwnCatalog` | TreeMySQL.java:266-280 | getTables of a reachable catalog lists exactly that catalog's own tables in order, and none for an unknown catalog |
| `MySql.Initial` | TreeMySQL.java:177-229 | a cancelled dialog keeps the default host, catalog and account and leaves every discovered field null; otherwise the dialog's host and account are used |
| `MySql.InitialIsConsistent` | TreeMySQL.java:188-196 | each discovered field is set only after the previous one: the default catalog is databases[2], the table is tables[0], the fields are set exactly when the table is, and DB_URL is that catalog's URL |
| `MySql.InitialMatchesDiscovery` | TreeMySQL.java:193-196 | the stored tables are what getTables reports for the default catalog, and the stored fields what getFields reports for the stored table |
| `MySql.InitialDiscovers` | TreeMySQL.java:184-196 | with an accepted login, databases is the driver's catalog list; with three or more catalogs the third is the default catalog, its tables are stored when it can be reached, and when it has tables the first one and its getFields are stored; with fewer than three, the dialog's catalog and a null DB_URL remain |
| `MySql.InitialRefused` | TreeMySQL.java:184 | a server that refuses the login leaves databases, DB_URL, tables, table and fields null |
| `MySql.RowTextOfValue` | TreeMySQL.java:238-242 | for a row holding a value and fields without null, the inner loop appends the row's line once per occurrence of the field and does not fail |
| `MySql.RowsTextOfValues` | TreeMySQL.java:237-243 | when every row holds a value and no field is null, the fetch runs over all rows in retrieval order, each adding its line once per occurrence of the field |
| `MySql.RowTextAbsent` | TreeMySQL.java:238-242 | a field not among the stored fields adds nothing to a row |
| `MySql.RowsTextAbsent` | TreeMySQL.java:237-243 | a field not among the stored fields adds nothing over all the rows |
| `MySql.RowTextStopsAtFailure` | TreeMySQL.java:238-242 | after an exception inside a row, the later fields add nothing |
| `MySql.RowsTextStopsAtFailure` | TreeMySQL.java:237-247 | after an exception, the later rows add nothing, and the text built so far is returned |
| `MySql.ColumnFetchEmpty` | TreeMySQL.java:231-251 | getColumn gives "" when the queried table has no rows or the field is not among the stored fields |
| `MySql.ColumnFetchOneLinePerRow` | TreeMySQL.java:233-243 | for a reachable catalog holding the stored table, the field once among non-null fields, and a value in every row, the text is one line per row in retrieval order, starting with the first row's line |
| `MySql.PetNamesExample` | TreeMySQL.java:240 | the rows Rex, Mimi, Fido give "R\nMi\nFi\n": two characters are cut from every value |
| `MySql.TerminatedIsJoin` | TreeMySQL.java:397-400 | appending every name followed by ", " equals joining the names with ", " and adding one more ", " |
| `MySql.MySqlClass.constructor` | TreeMySQL.java:177-229 | every field of the new object equals the state discovery leaves (`Initial`) |
| `MySql.MySqlClass.GetColumn` | TreeMySQL.java:230-252 | the text is the fetch of the stored table and stored fields in catalog DB_Name_, not depending on table_; DB_URL becomes that catalog's URL and no other field changes |
| `MySql.MySqlClass.ReadRows` | TreeMySQL.java:237-247 | the nested row and field loops of getColumn give exactly the text of the row-by-row reading, stopping at the first exception |
| `MySql.MySqlClass.GetFields` | TreeMySQL.java:253-265 | the result is getFields of that table in that catalog, [null] when the catalog cannot be reached; only DB_URL changes, and the fields field is untouched |
| `MySql.MySqlClass.GetTables` | TreeMySQL.java:266-280 | the result is the catalog's table list, empty when it cannot be reached; only DB_URL changes, and the tables field is untouched |
| `MySql.MySqlClass.GetDataBases` | TreeMySQL.java:321-342 | the array holds exactly the driver's catalog names, in order and count, with none filtered out, or is empty when the metadata call fails |
| `MySql.MySqlClass.GetTablesOn` | TreeMySQL.java:343-366 | the array holds exactly the table names of the connection's catalog, in the driver's order, or is empty on failure |
| `MySql.MySqlClass.GetFieldsOn` | TreeMySQL.java:367-380 | the result is the column list of SELECT * on the table, or [null] when the query fails |
| `MySql.MySqlClass.GetFieldsOfMetaData` | TreeMySQL.java:381-394 | the array has one entry per column, entry i being the name of the column at ordinal i + 1 |
| `MySql.MySqlClass.FormQuery` | TreeMySQL.java:395-403 | with stored fields, the query is "SELECT " + their ", "-join + " FROM " + table; with an empty list it is "SELEC FROM " + table; a null list throws |
| `TreeView.Hierarchy` | TreeMySQL.java:110-119 | the root gets one child per entry of databases, labelled with that catalog, and none when databases is null or empty |
| `TreeView.HierarchyShape` | TreeMySQL.java:117-130 | the root has one node per catalog, a catalog one per table from getTables, a table one leaf per getFields entry, all in enumeration order |
| `TreeView.HierarchyDepth` | TreeMySQL.java:117-130 | the tree never goes deeper than root, catalog, table, column |
| `TreeView.Ancestry` | TreeMySQL.java:79-87 | the path from the root to a node holds one node per level, starting at the root, and each node is the parent of the next, which is its child at the path's index |
| `TreeView.AncestryFails` | TreeMySQL.java:79-87 | a path is refused only where it leaves the tree: some step k is reached and path[k] is not the index of a child of the node there |
| `TreeView.SelectedColumn` | TreeMySQL.java:85-88 | a fetch starts exactly for a node without children at least two levels below the root, and is given the texts of its grandparent, its parent and itself |
| `TreeView.SelectTableNodeNoFetch` | TreeMySQL.java:85 | selecting a table node that has column leaves is not a leaf selection and starts no fetch |
| `TreeView.SelectColumnLeaf` | TreeMySQL.java:85-88 | selecting column leaf k of table j of catalog i passes exactly (catalog i, table j, column k) to getColumn, with "" for a null field |
| `TreeView.SelectTableLeaf` | TreeMySQL.java:85-88 | selecting a table without column leaves passes ("Databases", catalog, table) to getColumn |
| `TreeView.SelectionDepth` | TreeMySQL.java:85-88 | no selection reaches below the column leaves, and selecting the root or a catalog node starts no fetch |
| `TreeView.TreeMySql.constructor` | TreeMySQL.java:37-59 | the tree is "Databases" over the hierarchy of the discovered catalogs; discovery is as `Initial` says except DB_URL, which createNodes leaves at the last catalog's URL; the pane is empty |
| `TreeView.TreeMySql.CreateNodes` | TreeMySQL.java:99-131 | the children of top are its previous children followed by the hierarchy of the discovered catalogs (none when databases is null or empty); only DB_URL of mysql changes, and it is left at the last catalog's URL when there is a catalog, otherwise unchanged |
| `TreeView.TreeMySql.CatalogSubtree` | TreeMySQL.java:118-129 | one iteration of the catalog loop: the catalog's node, with one table node per getTables entry, in order; DB_URL is left at that catalog's URL |
| `TreeView.TreeMySql.TableSubtree` | TreeMySQL.java:122-128 | one iteration of the table loop: the table's node, with one leaf per getFields entry, in order |
| `TreeView.TreeMySql.ValueChanged` | TreeMySQL.java:78-95 | for a selected leaf with a grandparent, the pane shows getColumn's text for that catalog and column, and DB_URL becomes that catalog's URL; otherwise nothing changes |

## Left out

- Swing and AWT: the JTree, the split and scroll panes, the look and feel,
  `createAndShowGUI` and `main`. They are presentation only. The tree is the
  value `top`, and the editor pane is the string `paneText`.
- The credentials dialog `setDatabaseParams`. It becomes the parameter
  `dialog`: the four typed values, or None for Cancel.
- Opening and closing connections, statements and result sets. A connection
  is a value, so no connection can leak, and the release of connections the
  code skips on its exception paths is not modelled.
- Printing stack traces in the catch blocks. It has no effect on the state or
  on results.
- The constructor's row loop (TreeMySQL.java:198-207). It builds strings that
  are thrown away.
- The `conn == null` test (TreeMySQL.java:185-187). getConnection never
  returns null.
- The in-place `DefaultMutableTreeNode.add` and parent pointers. The tree is
  built as an immutable value with the same children in the same order.
  Ancestry is a path of child indices from the root, and the model does not
  capture node identity or sharing.
- The exceptions `valueChanged` throws for a leaf that is the root or a child
  of the root. The model treats them as a selection that changes nothing.
- URL parsing. `Connect` is given the host and catalog parts that Java pastes
  into the URL. A catalog name that itself contains "/" or URL options is not
  modelled.
- MySQL's case-insensitive matching of column labels and table names. The
  model matches names exactly.
- Metadata failures. One flag (`metadataReadable`) decides whether
  `getCatalogs` and `getTables` fail. Other driver failures are the lookups
  that return None.
- The schema does not change while the program runs. So the same call made
  twice gives the same answer by construction.
- MySql.MySqlClass.GetFieldsOfMetaData: does not model its catch block
  (TreeMySQL.java:389-392), because the metadata of a result that was already
  returned is taken to be readable.
- MySql.DeleteLastChars: counts Unicode scalar values, where Java's `length`
  and `substring` count UTF-16 code units. For a value ending in a character
  outside the Basic Multilingual Plane the model cuts one character more than
  Java: Java turns "Rex🐶" into "Rex", the model into "Re". So `getColumn`'s
  text differs for such values.
- Jdbc.ExecuteQuery: accepts any table name pasted after "SELECT * FROM ".
  The server rejects a name that is a reserved word or holds special
  characters (a table `order` or `my-table`), so getFields gives [null] and
  getColumn gives "" for it. The model returns that table's columns and rows.
- Jdbc.Connect and Jdbc.ExecuteQuery: assume that every catalog and table
  the driver lists can be used. The server has one account with access to
  everything, so a listed catalog always accepts a connection and a listed
  table always answers "SELECT * FROM". Permission denials are not modelled:
  a catalog visible through SHOW DATABASES that the account may not use, a
  table it may only insert into, a view whose base table was dropped. In the
  program these give an empty catalog node or the [null] of a failed
  getFields, which createNodes turns into one leaf with a null label. The
  model's tree never holds such a leaf for a listed table.
- Jdbc.TableNames and MySql.TablesForOwnCatalog: assume that
  `getTables(null, null, "%", null)` lists only the tables of the connection's
  catalog. With MySQL Connector/J that holds only when the driver treats a null
  catalog as the current one (`nullCatalogMeansCurrent`). Otherwise every
  catalog's tables would appear under every catalog node.
- MySql.DeleteLastChars: takes n as a natural number. A negative n would make
  `substring` throw, and every caller passes 2.
