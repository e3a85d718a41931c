/**
  TreeMySQL of TreeMySQL.java without its Swing parts: the tree of catalogs,
  tables and columns that createNodes builds from what MySQLClass discovers,
  and the leaf branch of valueChanged that fetches a selected column's text.
*/
module TreeView {
  import opened Wrappers
  import opened Jdbc
  import opened MySql

  /** A DefaultMutableTreeNode: its user object (None for null) and its children. */
  datatype TreeNode = TreeNode(userObject: Option<string>, children: seq<TreeNode>)

  /** DefaultMutableTreeNode.toString: "" for a null user object. */
  function NodeText(n: TreeNode): (r: string)
  {
    match n.userObject
    case None => ""
    case Some(s) => s
  }

  const ROOT_LABEL: string := "Databases"

  // ---------------------------------------------------------------------------
  // The tree createNodes builds.

  function ColumnNode(f: Option<string>): (r: TreeNode)
  {
    TreeNode(f, [])
  }

  function ColumnNodes(fs: seq<Option<string>>): (r: seq<TreeNode>)
  {
    seq(|fs|, k requires 0 <= k < |fs| => ColumnNode(fs[k]))
  }

  function TableNode(srv: Server, login: Login, dbName: string, t: string): (r: TreeNode)
  {
    TreeNode(Some(t), ColumnNodes(FieldsFor(srv, login, dbName, t)))
  }

  function TableNodes(srv: Server, login: Login, dbName: string, ts: seq<string>): (r: seq<TreeNode>)
  {
    seq(|ts|, j requires 0 <= j < |ts| => TableNode(srv, login, dbName, ts[j]))
  }

  function CatalogNode(srv: Server, login: Login, dbName: string): (r: TreeNode)
  {
    TreeNode(Some(dbName), TableNodes(srv, login, dbName, TablesFor(srv, login, dbName)))
  }

  function CatalogNodes(srv: Server, login: Login, dbs: seq<string>): (r: seq<TreeNode>)
  {
    seq(|dbs|, i requires 0 <= i < |dbs| => CatalogNode(srv, login, dbs[i]))
  }

  /** The children createNodes adds to the root: none when databases is null
      or empty. */
  function Hierarchy(srv: Server, login: Login, databases: Option<seq<string>>): (r: seq<TreeNode>)
    ensures |r| == if databases.None? then 0 else |databases.value|
    ensures forall i :: 0 <= i < |r| ==> r[i].userObject == Some(databases.value[i])
  {
    match databases
    case None => []
    case Some(dbs) => CatalogNodes(srv, login, dbs)
  }

  /** Every path from `n` downwards reaches a node without children within `d` steps. */
  ghost predicate DepthAtMost(n: TreeNode, d: nat)
  {
    |n.children| == 0
    || (d > 0 && forall i :: 0 <= i < |n.children| ==> DepthAtMost(n.children[i], d - 1))
  }

  /** The tree never goes deeper than root, catalog, table, column. */
  lemma HierarchyDepth(srv: Server, login: Login, databases: Option<seq<string>>)
    ensures DepthAtMost(TreeNode(Some(ROOT_LABEL), Hierarchy(srv, login, databases)), 3)
  {
    var root := TreeNode(Some(ROOT_LABEL), Hierarchy(srv, login, databases));
    forall i | 0 <= i < |root.children| ensures DepthAtMost(root.children[i], 2) {
      var c := root.children[i];
      forall j | 0 <= j < |c.children| ensures DepthAtMost(c.children[j], 1) {
        var t := c.children[j];
        forall k | 0 <= k < |t.children| ensures DepthAtMost(t.children[k], 0) {
          assert |t.children[k].children| == 0;
        }
      }
    }
  }

  /** The shape of the tree, level by level, in enumeration order: one catalog
      node per discovered catalog, one table node per table getTables reports
      for it, one column leaf per entry getFields reports for the table. */
  lemma HierarchyShape(srv: Server, login: Login, dbs: seq<string>, i: nat, j: nat, k: nat)
    requires i < |dbs|
    ensures var cs := Hierarchy(srv, login, Some(dbs));
            |cs| == |dbs| && cs[i].userObject == Some(dbs[i])
    ensures var c := Hierarchy(srv, login, Some(dbs))[i];
            var ts := TablesFor(srv, login, dbs[i]);
            |c.children| == |ts|
            && (j < |ts| ==> c.children[j].userObject == Some(ts[j]))
    ensures var ts := TablesFor(srv, login, dbs[i]);
            j < |ts| ==>
              var t := Hierarchy(srv, login, Some(dbs))[i].children[j];
              var fs := FieldsFor(srv, login, dbs[i], ts[j]);
              |t.children| == |fs|
              && (k < |fs| ==> t.children[k] == TreeNode(fs[k], []))
  {
  }

  // ---------------------------------------------------------------------------
  // The leaf branch of valueChanged.

  /** The nodes from `n` down to the node at the child-index `path`, or None
      when the path leaves the tree. */
  function Ancestry(n: TreeNode, path: seq<nat>): (r: Option<seq<TreeNode>>)
    ensures r.Some? ==> |r.value| == |path| + 1 && r.value[0] == n
    ensures r.Some? ==> forall k :: 0 <= k < |path| ==>
                          path[k] < |r.value[k].children| && r.value[k + 1] == r.value[k].children[path[k]]
  {
    if |path| == 0 then Some([n])
    else if path[0] < |n.children| then
      match Ancestry(n.children[path[0]], path[1..])
      case None => None
      case Some(a) => Some([n] + a)
    else None
  }

  /** A path is refused only where it leaves the tree: at some step k the
      nodes down to step k exist and path[k] is not the index of a child. */
  lemma {:induction false} AncestryFails(n: TreeNode, path: seq<nat>)
    ensures Ancestry(n, path).None? ==>
              exists k :: 0 <= k < |path| && Ancestry(n, path[..k]).Some?
                          && path[k] >= |Ancestry(n, path[..k]).value[k].children|
  {
    if Ancestry(n, path).None? {
      assert path[..0] == [];
      if path[0] >= |n.children| {
        assert Ancestry(n, path[..0]) == Some([n]);
      } else {
        var c := n.children[path[0]];
        var rest := path[1..];
        AncestryFails(c, rest);
        var k' :| 0 <= k' < |rest| && Ancestry(c, rest[..k']).Some?
                  && rest[k'] >= |Ancestry(c, rest[..k']).value[k'].children|;
        var a := Ancestry(c, rest[..k']).value;
        var pre := path[..k' + 1];
        assert pre[0] == path[0] && pre[1..] == rest[..k'];
        assert Ancestry(n, pre) == Some([n] + a);
        assert ([n] + a)[k' + 1] == a[k'];
        assert path[k' + 1] == rest[k'];
      }
    }
  }

  /** The (catalog, table, column) valueChanged passes to getColumn for the node
      at `path`: the texts of its grandparent, its parent and itself. None when
      the node is not a leaf, or when it is the root or a child of the root, whose
      missing grandparent makes the handler throw before getColumn. */
  function SelectedColumn(top: TreeNode, path: seq<nat>): (r: Option<(string, string, string)>)
    ensures r.Some? <==> Ancestry(top, path).Some? && |path| >= 2
                         && |Ancestry(top, path).value[|path|].children| == 0
    ensures r.Some? ==> var a := Ancestry(top, path).value;
                        var p := |path|;
                        a[p - 1].children[path[p - 1]] == a[p] && a[p - 2].children[path[p - 2]] == a[p - 1]
                        && r.value == (NodeText(a[p - 2]), NodeText(a[p - 1]), NodeText(a[p]))
  {
    match Ancestry(top, path)
    case None => None
    case Some(a) =>
      var node := a[|a| - 1];
      if |node.children| != 0 || |a| < 3 then None
      else Some((NodeText(a[|a| - 3]), NodeText(a[|a| - 2]), NodeText(node)))
  }

  /** Selecting column leaf k of table j of catalog i passes exactly that
      catalog, table and column to getColumn. */
  lemma SelectColumnLeaf(srv: Server, login: Login, dbs: seq<string>, i: nat, j: nat, k: nat)
    requires i < |dbs|
    requires j < |TablesFor(srv, login, dbs[i])|
    requires k < |FieldsFor(srv, login, dbs[i], TablesFor(srv, login, dbs[i])[j])|
    ensures var ts := TablesFor(srv, login, dbs[i]);
            var fs := FieldsFor(srv, login, dbs[i], ts[j]);
            var top := TreeNode(Some(ROOT_LABEL), Hierarchy(srv, login, Some(dbs)));
            SelectedColumn(top, [i, j, k]) == Some((dbs[i], ts[j], match fs[k] case None => "" case Some(f) => f))
  {
    var top := TreeNode(Some(ROOT_LABEL), Hierarchy(srv, login, Some(dbs)));
    var c := top.children[i];
    var t := c.children[j];
    var leaf := t.children[k];
    assert [i, j, k][1..] == [j, k] && [j, k][1..] == [k] && [k][1..] == [];
    assert |t.children| == |FieldsFor(srv, login, dbs[i], TablesFor(srv, login, dbs[i])[j])|;
    assert Ancestry(leaf, []) == Some([leaf]);
    assert [t] + [leaf] == [t, leaf] && [c] + [t, leaf] == [c, t, leaf];
    assert [top] + [c, t, leaf] == [top, c, t, leaf];
    assert Ancestry(t, [k]) == Some([t, leaf]);
    assert Ancestry(c, [j, k]) == Some([c, t, leaf]);
    assert Ancestry(top, [i, j, k]) == Some([top, c, t, leaf]);
  }

  /** A table whose getFields gave no entries is a leaf too: selecting it passes
      the root's text as the catalog, the catalog as the table and the table as
      the column. */
  lemma SelectTableLeaf(srv: Server, login: Login, dbs: seq<string>, i: nat, j: nat)
    requires i < |dbs|
    requires j < |TablesFor(srv, login, dbs[i])|
    requires FieldsFor(srv, login, dbs[i], TablesFor(srv, login, dbs[i])[j]) == []
    ensures var top := TreeNode(Some(ROOT_LABEL), Hierarchy(srv, login, Some(dbs)));
            SelectedColumn(top, [i, j]) == Some((ROOT_LABEL, dbs[i], TablesFor(srv, login, dbs[i])[j]))
  {
    var top := TreeNode(Some(ROOT_LABEL), Hierarchy(srv, login, Some(dbs)));
    var c := top.children[i];
    var t := c.children[j];
    assert [i, j][1..] == [j] && [j][1..] == [];
    assert Ancestry(t, []) == Some([t]);
    assert [c] + [t] == [c, t] && [top] + [c, t] == [top, c, t];
    assert Ancestry(c, [j]) == Some([c, t]);
    assert Ancestry(top, [i, j]) == Some([top, c, t]);
  }

  /** A table node that has column leaves is not a leaf: selecting it starts
      no fetch. */
  lemma SelectTableNodeNoFetch(srv: Server, login: Login, dbs: seq<string>, i: nat, j: nat)
    requires i < |dbs|
    requires j < |TablesFor(srv, login, dbs[i])|
    requires FieldsFor(srv, login, dbs[i], TablesFor(srv, login, dbs[i])[j]) != []
    ensures var top := TreeNode(Some(ROOT_LABEL), Hierarchy(srv, login, Some(dbs)));
            SelectedColumn(top, [i, j]).None?
  {
    var top := TreeNode(Some(ROOT_LABEL), Hierarchy(srv, login, Some(dbs)));
    var c := top.children[i];
    var t := c.children[j];
    assert |t.children| > 0;
    assert [i, j][1..] == [j] && [j][1..] == [];
    assert Ancestry(t, []) == Some([t]);
    assert [c] + [t] == [c, t] && [top] + [c, t] == [top, c, t];
    assert Ancestry(c, [j]) == Some([c, t]);
    assert Ancestry(top, [i, j]) == Some([top, c, t]);
  }

  /** In the built tree no selection reaches below the column leaves, and the
      root and the catalog nodes never start a fetch. */
  lemma {:induction false} SelectionDepth(srv: Server, login: Login, databases: Option<seq<string>>, path: seq<nat>)
    ensures var top := TreeNode(Some(ROOT_LABEL), Hierarchy(srv, login, databases));
            && (Ancestry(top, path).Some? ==> |path| <= 3)
            && (|path| < 2 ==> SelectedColumn(top, path).None?)
  {
    var top := TreeNode(Some(ROOT_LABEL), Hierarchy(srv, login, databases));
    HierarchyDepth(srv, login, databases);
    AncestryDepth(top, 3, path);
  }

  lemma {:induction false} AncestryDepth(n: TreeNode, d: nat, path: seq<nat>)
    requires DepthAtMost(n, d)
    ensures Ancestry(n, path).Some? ==> |path| <= d
  {
    if |path| > 0 && path[0] < |n.children| {
      AncestryDepth(n.children[path[0]], d - 1, path[1..]);
    }
  }

  // ---------------------------------------------------------------------------

  class TreeMySql {
    const mysql: MySqlClass
    var top: TreeNode
    /** The text of the editor pane under the tree. */
    var paneText: string

    constructor (dialog: Option<Config>, srv: Server)
      ensures fresh(mysql)
      ensures mysql.State() == Initial(dialog, srv).(dbUrl := mysql.dbUrl)
      ensures top == TreeNode(Some(ROOT_LABEL), Hierarchy(srv, mysql.LoginOf(), mysql.databases))
      ensures mysql.dbUrl == LastUrl(mysql.dbHost, mysql.databases, Initial(dialog, srv).dbUrl)
      ensures paneText == ""
    {
      mysql := new MySqlClass(dialog, srv);
      top := TreeNode(Some(ROOT_LABEL), []);
      paneText := "";
      new;
      top := CreateNodes(top, srv);
    }

    /** Adds to `top` one node per catalog, under it one per table and under that one
        per field, in enumeration order. Each getTables and getFields call sets
        DB_URL, so the URL of the last catalog is left behind. The bodies of the
        two outer loops are the methods CatalogSubtree and TableSubtree. */
    method CreateNodes(top: TreeNode, srv: Server) returns (result: TreeNode)
      modifies mysql`dbUrl
      ensures result == TreeNode(top.userObject, top.children + Hierarchy(srv, mysql.LoginOf(), mysql.databases))
      ensures mysql.dbUrl == LastUrl(mysql.dbHost, mysql.databases, old(mysql.dbUrl))
    {
      result := top;
      if mysql.databases.None? || |mysql.databases.value| == 0 {
        return;
      }
      var dbs := mysql.databases.value;
      ghost var login := mysql.LoginOf();
      var catalogNodes: seq<TreeNode> := [];
      for dbCntr := 0 to |dbs|
        invariant mysql.LoginOf() == login && mysql.databases == Some(dbs)
        invariant |catalogNodes| == dbCntr
        invariant forall i :: 0 <= i < dbCntr ==> catalogNodes[i] == CatalogNode(srv, login, dbs[i])
        invariant dbCntr > 0 ==> mysql.dbUrl == Some(Url(mysql.dbHost, dbs[dbCntr - 1]))
      {
        var database := CatalogSubtree(srv, dbs[dbCntr]);
        catalogNodes := catalogNodes + [database];
      }
      assert catalogNodes == CatalogNodes(srv, login, dbs);
      result := TreeNode(top.userObject, top.children + catalogNodes);
    }

    /** The node of one catalog: getTables, then one TableSubtree per table. */
    method CatalogSubtree(srv: Server, dbName: string) returns (database: TreeNode)
      modifies mysql`dbUrl
      ensures database == CatalogNode(srv, mysql.LoginOf(), dbName)
      ensures mysql.dbUrl == Some(Url(mysql.dbHost, dbName))
    {
      ghost var login := mysql.LoginOf();
      var tables := mysql.GetTables(srv, dbName);
      var tableNodes: seq<TreeNode> := [];
      for tblCntr := 0 to |tables|
        invariant mysql.LoginOf() == login
        invariant |tableNodes| == tblCntr
        invariant forall j :: 0 <= j < tblCntr ==> tableNodes[j] == TableNode(srv, login, dbName, tables[j])
        invariant mysql.dbUrl == Some(Url(mysql.dbHost, dbName))
      {
        var table := TableSubtree(srv, dbName, tables[tblCntr]);
        tableNodes := tableNodes + [table];
      }
      assert tableNodes == TableNodes(srv, login, dbName, tables);
      database := TreeNode(Some(dbName), tableNodes);
    }

    /** The node of one table: getFields, then one leaf per field. */
    method TableSubtree(srv: Server, dbName: string, tableName: string) returns (table: TreeNode)
      modifies mysql`dbUrl
      ensures table == TableNode(srv, mysql.LoginOf(), dbName, tableName)
      ensures mysql.dbUrl == Some(Url(mysql.dbHost, dbName))
    {
      var fields := mysql.GetFields(srv, dbName, tableName);
      var fieldNodes: seq<TreeNode> := [];
      for fldCntr := 0 to |fields|
        invariant |fieldNodes| == fldCntr
        invariant forall k :: 0 <= k < fldCntr ==> fieldNodes[k] == ColumnNode(fields[k])
      {
        fieldNodes := fieldNodes + [ColumnNode(fields[fldCntr])];
      }
      assert fieldNodes == ColumnNodes(fields);
      table := TreeNode(Some(tableName), fieldNodes);
    }

    /** The handler for a selection of the node at `selection` (None when the
        selection is cleared). Only a leaf with a grandparent starts a fetch; the
        pane then shows getColumn's text, which is never null. */
    method ValueChanged(srv: Server, selection: Option<seq<nat>>)
      modifies this`paneText, mysql`dbUrl
      ensures selection.None? || SelectedColumn(top, selection.value).None? ==>
                paneText == old(paneText) && mysql.dbUrl == old(mysql.dbUrl)
      ensures selection.Some? && SelectedColumn(top, selection.value).Some? ==>
                var (catalog, _, column) := SelectedColumn(top, selection.value).value;
                && paneText == ColumnFetch(srv, mysql.LoginOf(), catalog, mysql.table, mysql.fields, column)
                && mysql.dbUrl == Some(Url(mysql.dbHost, catalog))
    {
      if selection.None? {
        return;
      }
      var selected := SelectedColumn(top, selection.value);
      if selected.None? {
        return;
      }
      var (database, table, node) := selected.value;
      var column_ := mysql.GetColumn(srv, database, table, node);
      paneText := column_;
    }
  }

  /** DB_URL after createNodes: the URL of the last catalog when there is one. */
  function LastUrl(host: string, databases: Option<seq<string>>, before: Option<string>): (r: Option<string>)
  {
    if databases.None? || |databases.value| == 0 then before
    else Some(Url(host, databases.value[|databases.value| - 1]))
  }
}
