/** The migration that moves the transaction table to its new name: a sequence of guarded statements
    that each take effect at once, and that may stop after any of them. */
module Migration {
  import opened Optional

  // ---------------------------------------------------------------- schemas and statements

  datatype Column = Column(name: string, dataType: string)

  datatype ForeignKey = ForeignKey(columns: seq<string>, refTable: string, refColumns: seq<string>,
                                   onDelete: Option<string>, onUpdate: Option<string>)

  /** rows: the identities of the rows; no statement here adds or removes one. */
  datatype Table = Table(columns: seq<Column>, indexes: set<string>, foreignKeys: map<string, ForeignKey>,
                         rows: seq<nat>)

  type Schema = map<string, Table>

  datatype Place = Last | After(column: string)

  datatype Statement =
    | CreateIfMissing(table: string, definition: Table)
    | AddColumn(table: string, column: Column, place: Place)
    | AddIndex(table: string, index: string)
    | AddForeignKeys(table: string, keys: map<string, ForeignKey>)
    | DropForeignKeys(table: string, names: set<string>)
    | Rename(table: string, to: string)

  /** accepts: the server may refuse any statement, as long as it decides by schema and statement. */
  datatype Server = Server(accepts: (Schema, Statement) -> bool)

  /** The columns of a table by name. */
  function ColumnMap(columns: seq<Column>): map<string, string> {
    if columns == [] then map[]
    else
      var n := |columns| - 1;
      ColumnMap(columns[..n])[columns[n].name := columns[n].dataType]
  }

  function Names(t: Table): set<string> {
    ColumnMap(t.columns).Keys
  }

  function Position(columns: seq<Column>, name: string): (i: nat)
    ensures i <= |columns|
    ensures i < |columns| ==> columns[i].name == name
    ensures forall k :: 0 <= k < i ==> columns[k].name != name
  {
    if columns == [] || columns[0].name == name then 0 else 1 + Position(columns[1..], name)
  }

  function Placed(columns: seq<Column>, c: Column, place: Place): seq<Column> {
    var i := if place.Last? then |columns| else Position(columns, place.column);
    var at := if i < |columns| then i + 1 else i;
    columns[..at] + [c] + columns[at..]
  }

  /** Keys that reference a renamed table follow it. */
  function Redirected(t: Table, from: string, to: string): Table {
    t.(foreignKeys := map name | name in t.foreignKeys ::
         if t.foreignKeys[name].refTable == from then t.foreignKeys[name].(refTable := to) else t.foreignKeys[name])
  }

  function Renamed(s: Schema, from: string, to: string): Schema
    requires from in s
  {
    map t | t in s.Keys - {from} + {to} :: Redirected(if t == to then s[from] else s[t], from, to)
  }

  /** The effect of a statement; absent when the server refuses it. */
  function Exec(server: Server, s: Schema, c: Statement): Option<Schema> {
    if !server.accepts(s, c) then None
    else match c
      case CreateIfMissing(t, definition) =>
        Some(if t in s then s else s[t := definition])
      case AddColumn(t, column, place) =>
        if t in s && column.name !in Names(s[t]) && (place.After? ==> place.column in Names(s[t])) then
          Some(s[t := s[t].(columns := Placed(s[t].columns, column, place))])
        else None
      case AddIndex(t, index) =>
        if t in s && index !in s[t].indexes then Some(s[t := s[t].(indexes := s[t].indexes + {index})]) else None
      case AddForeignKeys(t, keys) =>
        if t in s && keys.Keys !! s[t].foreignKeys.Keys then
          Some(s[t := s[t].(foreignKeys := s[t].foreignKeys + keys)])
        else None
      case DropForeignKeys(t, names) =>
        if t in s && names <= s[t].foreignKeys.Keys then
          Some(s[t := s[t].(foreignKeys := s[t].foreignKeys - names)])
        else None
      case Rename(t, to) =>
        if t in s && to !in s then Some(Renamed(s, t, to)) else None
  }

  // ---------------------------------------------------------------- the steps of the migration

  /** What is made sure of before the table is renamed. */
  datatype Step =
    | EnsureColumn(table: string, column: Column, place: Place)
    | EnsureIndex(table: string, index: string)
    | EnsureForeignKey(table: string, name: string, key: ForeignKey)

  predicate Present(s: Schema, e: Step) {
    e.table in s &&
    match e
    case EnsureColumn(t, column, _) => column.name in Names(s[t])
    case EnsureIndex(t, index) => index in s[t].indexes
    case EnsureForeignKey(t, name, _) => name in s[t].foreignKeys
  }

  function StatementOf(e: Step): Statement {
    match e
    case EnsureColumn(t, column, place) => AddColumn(t, column, place)
    case EnsureIndex(t, index) => AddIndex(t, index)
    case EnsureForeignKey(t, name, key) => AddForeignKeys(t, map[name := key])
  }

  datatype Ended = Done | Refused | Stopped

  /** left: how many more statements are executed before the process stops. */
  datatype Outcome = Outcome(schema: Schema, ended: Ended, left: nat)

  function Execute(server: Server, s: Schema, c: Statement, left: nat): Outcome {
    if left == 0 then Outcome(s, Stopped, 0)
    else
      var t := Exec(server, s, c);
      if t.None? then Outcome(s, Refused, left - 1) else Outcome(t.value, Done, left - 1)
  }

  function Ensure(server: Server, s: Schema, e: Step, left: nat): Outcome {
    if Present(s, e) then Outcome(s, Done, left) else Execute(server, s, StatementOf(e), left)
  }

  function EnsureAll(server: Server, s: Schema, steps: seq<Step>, left: nat): Outcome {
    if steps == [] then Outcome(s, Done, left)
    else
      var o := Ensure(server, s, steps[0], left);
      if o.ended.Done? then EnsureAll(server, o.schema, steps[1..], o.left) else o
  }

  const OLD := "weareplanet_transaction"
  const TEMP := "weareplanet_transaction_tmp"
  const REAL := "weareplanet_transaction_data"
  const REFUND := "weareplanet_refund"
  const REFUND_KEY := "fk.pln_refund.transaction_id"

  /** Columns that only the old plugin's table has. */
  const EXCLUSIVE := [
    Column("finalized_at", "datetime"), Column("refunded_at", "datetime"),
    Column("initial_transaction_mode", "varchar"),
    Column("manual_capture", "tinyint"), Column("partial_refunded_at", "datetime"), Column("refunded_amount", "double"),
    Column("amount_to_refund", "double")]

  /** A table belongs to the old plugin if it has all of them with these types. */
  predicate IsOldPluginTable(t: Table) {
    forall i :: 0 <= i < |EXCLUSIVE| ==>
      EXCLUSIVE[i].name in ColumnMap(t.columns) && ColumnMap(t.columns)[EXCLUSIVE[i].name] == EXCLUSIVE[i].dataType
  }

  predicate HasType(t: Table, name: string, dataType: string) {
    name in ColumnMap(t.columns) && ColumnMap(t.columns)[name] == dataType
  }

  lemma HasTypes(t: Table)
    ensures |EXCLUSIVE| == 7
    ensures IsOldPluginTable(t) <==>
              forall i :: 0 <= i < 7 ==> HasType(t, EXCLUSIVE[i].name, EXCLUSIVE[i].dataType)
  {
    hide ColumnMap;
  }

  /** A table is the old plugin's exactly if it has all seven columns with their types. */
  lemma OldPluginTableIff(t: Table)
    ensures IsOldPluginTable(t) <==>
              && HasType(t, "finalized_at", "datetime") && HasType(t, "refunded_at", "datetime")
              && HasType(t, "initial_transaction_mode", "varchar") && HasType(t, "manual_capture", "tinyint")
              && HasType(t, "partial_refunded_at", "datetime") && HasType(t, "refunded_amount", "double")
              && HasType(t, "amount_to_refund", "double")
  {
    hide HasType;
    HasTypes(t);
    assert EXCLUSIVE[0] == Column("finalized_at", "datetime") && EXCLUSIVE[1] == Column("refunded_at", "datetime");
    assert EXCLUSIVE[2] == Column("initial_transaction_mode", "varchar");
    assert EXCLUSIVE[3] == Column("manual_capture", "tinyint");
    assert EXCLUSIVE[4] == Column("partial_refunded_at", "datetime");
    assert EXCLUSIVE[5] == Column("refunded_amount", "double") && EXCLUSIVE[6] == Column("amount_to_refund", "double");
  }

  const COLUMNS := [
    (Column("confirmation_email_sent", "tinyint"), After("id")),
    (Column("erp_merchant_id", "varchar"), After("confirmation_email_sent")),
    (Column("data", "longtext"), After("erp_merchant_id")),
    (Column("payment_method_id", "binary"), Last),
    (Column("order_id", "binary"), Last),
    (Column("order_transaction_id", "binary"), Last),
    (Column("space_id", "int"), Last),
    (Column("state", "varchar"), Last),
    (Column("sales_channel_id", "binary"), Last),
    (Column("transaction_id", "int"), Last),
    (Column("order_version_id", "binary"), After("transaction_id")),
    (Column("created_at", "datetime"), Last),
    (Column("updated_at", "datetime"), Last)]

  const INDEXES := [
    "fk.pln_transaction.order_id", "fk.pln_transaction.order_transaction_id", "fk.pln_transaction.payment_method_id",
    "fk.pln_transaction.sales_channel_id", "fk.pln_transaction"]

  const ORDER_KEY :=
    ForeignKey(["order_id", "order_version_id"], "order", ["id", "version_id"], Some("CASCADE"), Some("CASCADE"))
  const METHOD_KEY := ForeignKey(["payment_method_id"], "payment_method", ["id"], Some("RESTRICT"), Some("CASCADE"))
  const CHANNEL_KEY := ForeignKey(["sales_channel_id"], "sales_channel", ["id"], Some("RESTRICT"), Some("CASCADE"))

  const KEYS := [
    ("fk.pln_transaction_order_id", ORDER_KEY),
    ("fk.pln_transaction_payment_method_id", METHOD_KEY),
    ("fk.pln_transaction_sales_channel_id", CHANNEL_KEY)]

  function ColumnSteps(table: string, columns: seq<(Column, Place)>): seq<Step> {
    seq(|columns|, i requires 0 <= i < |columns| => EnsureColumn(table, columns[i].0, columns[i].1))
  }

  function IndexSteps(table: string, indexes: seq<string>): seq<Step> {
    seq(|indexes|, i requires 0 <= i < |indexes| => EnsureIndex(table, indexes[i]))
  }

  function KeySteps(table: string, keys: seq<(string, ForeignKey)>): seq<Step> {
    seq(|keys|, i requires 0 <= i < |keys| => EnsureForeignKey(table, keys[i].0, keys[i].1))
  }

  function TransactionSteps(table: string): seq<Step> {
    ColumnSteps(table, COLUMNS) + IndexSteps(table, INDEXES) + KeySteps(table, KEYS)
  }

  function RefundSteps(table: string): seq<Step> {
    [EnsureIndex(REFUND, REFUND_KEY),
     EnsureForeignKey(REFUND, REFUND_KEY,
                      ForeignKey(["transaction_id"], table, ["transaction_id"], Some("CASCADE"), None))]
  }

  function Steps(): seq<Step> {
    TransactionSteps(OLD) + RefundSteps(OLD)
  }

  predicate Upgrades(s: Schema) {
    TEMP !in s && OLD in s && !IsOldPluginTable(s[OLD])
  }

  /** The whole migration, stopping after `left` statements. */
  function Update(server: Server, s: Schema, left: nat): Outcome {
    if TEMP in s then Execute(server, s, Rename(TEMP, REAL), left)
    else if Upgrades(s) then
      var o := EnsureAll(server, s, Steps(), left);
      if o.ended.Done? then Execute(server, o.schema, Rename(OLD, REAL), o.left) else o
    else Outcome(s, Done, left)
  }

  // ---------------------------------------------------------------- columns under insertion

  lemma {:induction false} InsertedColumn(a: seq<Column>, c: Column, b: seq<Column>)
    requires c.name !in ColumnMap(a + b)
    ensures ColumnMap(a + [c] + b) == ColumnMap(a + b)[c.name := c.dataType]
    decreases |b|
  {
    if b == [] {
      assert a + [c] + b == a + [c] && a + b == a;
      assert (a + [c])[..|a|] == a;
    } else {
      var n := |b| - 1;
      var x, y := a + [c] + b, a + b;
      assert y[..|y| - 1] == a + b[..n] && x[..|x| - 1] == a + [c] + b[..n];
      InsertedColumn(a, c, b[..n]);
    }
  }

  lemma PlacedColumn(columns: seq<Column>, c: Column, place: Place)
    requires c.name !in ColumnMap(columns)
    ensures ColumnMap(Placed(columns, c, place)) == ColumnMap(columns)[c.name := c.dataType]
  {
    hide ColumnMap, Position;
    var i := if place.Last? then |columns| else Position(columns, place.column);
    var at := if i < |columns| then i + 1 else i;
    assert columns[..at] + columns[at..] == columns;
    InsertedColumn(columns[..at], c, columns[at..]);
  }

  /** A column placed behind another one stands right behind it, and the others keep their order. */
  lemma PlacedBehind(columns: seq<Column>, c: Column, k: nat)
    requires k < |columns| && forall i :: 0 <= i < k ==> columns[i].name != columns[k].name
    ensures Placed(columns, c, After(columns[k].name)) == columns[..k + 1] + [c] + columns[k + 1..]
  {
    assert Position(columns, columns[k].name) == k;
  }

  /** What one step does to a table: only columns, indexes and keys are added, rows stay. */
  ghost predicate Grows(a: Table, b: Table) {
    && a.rows == b.rows
    && (forall name :: name in ColumnMap(a.columns) ==>
          name in ColumnMap(b.columns) && ColumnMap(b.columns)[name] == ColumnMap(a.columns)[name])
    && a.indexes <= b.indexes
    && (forall name :: name in a.foreignKeys ==> name in b.foreignKeys && b.foreignKeys[name] == a.foreignKeys[name])
  }

  ghost predicate SchemaGrows(s: Schema, t: Schema) {
    s.Keys == t.Keys && forall x :: x in s ==> Grows(s[x], t[x])
  }

  lemma EnsureGrows(server: Server, s: Schema, e: Step, left: nat)
    ensures var o := Ensure(server, s, e, left);
            SchemaGrows(s, o.schema) && (o.ended.Done? ==> Present(o.schema, e))
  {
    hide ColumnMap, Placed;
    if e.EnsureColumn? && e.table in s && !Present(s, e) {
      PlacedColumn(s[e.table].columns, e.column, e.place);
    }
  }

  lemma GrowsTransitive(s: Schema, t: Schema, u: Schema)
    requires SchemaGrows(s, t) && SchemaGrows(t, u)
    ensures SchemaGrows(s, u)
  {
    hide ColumnMap;
    forall x | x in s ensures Grows(s[x], u[x]) {
      assert Grows(s[x], t[x]) && Grows(t[x], u[x]);
    }
  }

  lemma PresentGrows(s: Schema, t: Schema, e: Step)
    requires SchemaGrows(s, t) && Present(s, e)
    ensures Present(t, e)
  {
    hide ColumnMap;
    assert Grows(s[e.table], t[e.table]);
  }

  lemma {:induction false} EnsureAllGrows(server: Server, s: Schema, steps: seq<Step>, left: nat)
    ensures SchemaGrows(s, EnsureAll(server, s, steps, left).schema)
    decreases |steps|
  {
    hide Grows, Ensure;
    if steps == [] {
      EnsureReflexive(s);
    } else {
      var o := Ensure(server, s, steps[0], left);
      EnsureGrows(server, s, steps[0], left);
      if o.ended.Done? {
        EnsureAllGrows(server, o.schema, steps[1..], o.left);
        GrowsTransitive(s, o.schema, EnsureAll(server, s, steps, left).schema);
      }
    }
  }

  lemma EnsureReflexive(s: Schema)
    ensures SchemaGrows(s, s)
  {
  }

  // ---------------------------------------------------------------- stopping and resuming

  /** With as many statements left as there are steps, the process does not stop, and it does not
      matter how many more are left. */
  lemma {:induction false} EnoughLeft(server: Server, s: Schema, steps: seq<Step>, m: nat, n: nat)
    requires |steps| <= m && |steps| <= n
    ensures var o, p := EnsureAll(server, s, steps, m), EnsureAll(server, s, steps, n);
            o.schema == p.schema && o.ended == p.ended && !o.ended.Stopped? && o.left >= m - |steps|
                && p.left >= n - |steps|
    decreases |steps|
  {
    hide Exec, Present;
    if steps != [] {
      var o, p := Ensure(server, s, steps[0], m), Ensure(server, s, steps[0], n);
      if o.ended.Done? {
        EnoughLeft(server, o.schema, steps[1..], o.left, p.left);
      }
    }
  }

  /** Steps that did not stop would not have done anything else with more statements left. */
  lemma {:induction false} NotStopped(server: Server, s: Schema, steps: seq<Step>, m: nat, n: nat)
    requires |steps| <= m && !EnsureAll(server, s, steps, n).ended.Stopped?
    ensures var o, p := EnsureAll(server, s, steps, m), EnsureAll(server, s, steps, n);
            o.schema == p.schema && o.ended == p.ended
    decreases |steps|
  {
    hide Exec, Present;
    if steps != [] {
      var o, p := Ensure(server, s, steps[0], m), Ensure(server, s, steps[0], n);
      if o.ended.Done? {
        NotStopped(server, o.schema, steps[1..], o.left, p.left);
      }
    }
  }

  /** Steps stopped anywhere and begun again end as if they had not been stopped. */
  lemma {:induction false} EnsureAllResumes(server: Server, s: Schema, steps: seq<Step>, n: nat, m: nat)
    requires |steps| <= m
    ensures var t := EnsureAll(server, s, steps, n).schema;
            var o, p := EnsureAll(server, t, steps, m), EnsureAll(server, s, steps, m);
            o.schema == p.schema && o.ended == p.ended
    decreases |steps|
  {
    hide Exec, Present, SchemaGrows;
    if steps != [] {
      var o := Ensure(server, s, steps[0], n);
      if o.ended.Done? {
        var t := EnsureAll(server, s, steps, n).schema;
        EnsureGrows(server, s, steps[0], n);
        EnsureAllGrows(server, o.schema, steps[1..], o.left);
        PresentGrows(o.schema, t, steps[0]);
        EnsureAllResumes(server, o.schema, steps[1..], o.left, m);
        EnoughLeft(server, o.schema, steps[1..], m, Ensure(server, s, steps[0], m).left);
      }
    }
  }

  // ---------------------------------------------------------------- the verdict on the old table

  predicate Exclusive(name: string) {
    exists i :: 0 <= i < |EXCLUSIVE| && EXCLUSIVE[i].name == name
  }

  /** None of the steps adds a column that only the old plugin's table has. */
  ghost predicate KeepsVerdict(steps: seq<Step>) {
    forall i :: 0 <= i < |steps| && steps[i].EnsureColumn? ==> !Exclusive(steps[i].column.name)
  }

  ghost predicate SameVerdict(s: Schema, t: Schema) {
    s.Keys == t.Keys && forall x :: x in s ==> (IsOldPluginTable(s[x]) <==> IsOldPluginTable(t[x]))
  }

  lemma EnsureKeepsVerdict(server: Server, s: Schema, e: Step, left: nat)
    requires e.EnsureColumn? ==> !Exclusive(e.column.name)
    ensures SameVerdict(s, Ensure(server, s, e, left).schema)
  {
    hide ColumnMap, Placed;
    if e.EnsureColumn? && e.table in s && !Present(s, e) {
      PlacedColumn(s[e.table].columns, e.column, e.place);
    }
  }

  lemma {:induction false} EnsureAllKeepsVerdict(server: Server, s: Schema, steps: seq<Step>, left: nat)
    requires KeepsVerdict(steps)
    ensures SameVerdict(s, EnsureAll(server, s, steps, left).schema)
    decreases |steps|
  {
    hide Exclusive, Ensure, IsOldPluginTable;
    if steps != [] {
      var o := Ensure(server, s, steps[0], left);
      EnsureKeepsVerdict(server, s, steps[0], left);
      if o.ended.Done? {
        EnsureAllKeepsVerdict(server, o.schema, steps[1..], o.left);
      }
    }
  }

  lemma ColumnsAreNotExclusive()
    ensures forall i :: 0 <= i < |COLUMNS| ==> !Exclusive(COLUMNS[i].0.name)
  {
    forall i | 0 <= i < |COLUMNS| ensures !Exclusive(COLUMNS[i].0.name) {
      forall j | 0 <= j < |EXCLUSIVE| ensures EXCLUSIVE[j].name != COLUMNS[i].0.name {
        NamesDiffer(COLUMNS[i].0.name, EXCLUSIVE[j].name);
      }
    }
  }

  lemma NamesDiffer(a: string, b: string)
    requires exists i :: 0 <= i < |COLUMNS| && COLUMNS[i].0.name == a
    requires exists j :: 0 <= j < |EXCLUSIVE| && EXCLUSIVE[j].name == b
    ensures a != b
  {
  }

  lemma StepsKeepVerdict()
    ensures KeepsVerdict(Steps()) && |Steps()| == 23
  {
    ColumnsAreNotExclusive();
    var steps := Steps();
    assert |COLUMNS| == 13 && |INDEXES| == 5 && |KEYS| == 3;
    forall i | 0 <= i < |steps| && steps[i].EnsureColumn? ensures !Exclusive(steps[i].column.name) {
      assert i < 13;
      assert steps[i] == ColumnSteps(OLD, COLUMNS)[i];
    }
  }
}
