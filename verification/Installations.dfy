/** Where a fresh installation and an upgrade end up: the historical migrations followed by the
    renaming, against the renaming of a table brought up to date. */
module Installations {
  import opened Optional
  import opened Migration
  import opened MigrationRuns

  // ---------------------------------------------------------------- what the steps add

  function ColumnsOf(steps: seq<Step>, table: string): set<string> {
    set i | 0 <= i < |steps| && steps[i].EnsureColumn? && steps[i].table == table :: steps[i].column.name
  }

  /** The keys that the steps provide for a table; the first step of a name counts. */
  function KeysOf(steps: seq<Step>, table: string): map<string, ForeignKey> {
    if steps == [] then map[]
    else if steps[0].EnsureForeignKey? && steps[0].table == table then
      KeysOf(steps[1..], table)[steps[0].name := steps[0].key]
    else KeysOf(steps[1..], table)
  }

  lemma ColumnsOfFirst(steps: seq<Step>, table: string)
    requires steps != []
    ensures ColumnsOf(steps, table) ==
            ColumnsOf(steps[1..], table)
            + if steps[0].EnsureColumn? && steps[0].table == table then {steps[0].column.name} else {}
  {
    var rest := steps[1..];
    forall name | name in ColumnsOf(steps, table)
      ensures name in ColumnsOf(rest, table) || (steps[0].EnsureColumn? && steps[0].table == table
          && name == steps[0].column.name)
    {
      var i :| 0 <= i < |steps| && steps[i].EnsureColumn? && steps[i].table == table && steps[i].column.name == name;
      if i > 0 {
        assert rest[i - 1] == steps[i];
      }
    }
    forall name | name in ColumnsOf(rest, table) ensures name in ColumnsOf(steps, table) {
      var i :| 0 <= i < |rest| && rest[i].EnsureColumn? && rest[i].table == table && rest[i].column.name == name;
      assert steps[i + 1] == rest[i];
    }
  }

  lemma EnsureAdds(server: Server, s: Schema, e: Step, left: nat, x: string)
    requires x in s && Ensure(server, s, e, left).ended.Done?
    ensures var t := Ensure(server, s, e, left).schema;
            && x in t
            && Names(t[x]) == Names(s[x]) + (if e.EnsureColumn? && e.table == x then {e.column.name} else {})
            && t[x].foreignKeys ==
                 (if e.EnsureForeignKey? && e.table == x then map[e.name := e.key] else map[]) + s[x].foreignKeys
  {
    hide ColumnMap, Placed;
    if e.EnsureColumn? && e.table in s && !Present(s, e) {
      PlacedColumn(s[e.table].columns, e.column, e.place);
    }
  }

  /** Steps that go through add their columns and keys, and keep a key that has the name already. */
  lemma {:induction false} EnsureAllAdds(server: Server, s: Schema, steps: seq<Step>, left: nat, x: string)
    requires x in s && EnsureAll(server, s, steps, left).ended.Done?
    ensures var t := EnsureAll(server, s, steps, left).schema;
            && x in t
            && Names(t[x]) == Names(s[x]) + ColumnsOf(steps, x)
            && t[x].foreignKeys == KeysOf(steps, x) + s[x].foreignKeys
    decreases |steps|
  {
    hide Ensure, Names, ColumnsOf;
    if steps == [] {
      NothingOf(x);
    } else {
      var o := Ensure(server, s, steps[0], left);
      EnsureAdds(server, s, steps[0], left, x);
      EnsureAllAdds(server, o.schema, steps[1..], o.left, x);
      ColumnsOfFirst(steps, x);
    }
  }

  lemma NothingOf(x: string)
    ensures ColumnsOf([], x) == {}
  {
  }

  lemma {:induction false} KeysOfAppend(a: seq<Step>, b: seq<Step>, table: string)
    ensures KeysOf(a + b, table) == KeysOf(b, table) + KeysOf(a, table)
  {
    if a == [] {
      assert a + b == b;
    } else {
      assert (a + b)[1..] == a[1..] + b;
      KeysOfAppend(a[1..], b, table);
    }
  }

  lemma {:induction false} NoKeysOf(a: seq<Step>, table: string)
    requires forall i :: 0 <= i < |a| ==> !(a[i].EnsureForeignKey? && a[i].table == table)
    ensures KeysOf(a, table) == map[]
  {
    if a != [] {
      NoKeysOf(a[1..], table);
    }
  }

  // ---------------------------------------------------------------- the target

  /** The columns of the final table: the identifier, and those the upgrade makes sure of. */
  ghost function FinalColumns(): set<string> {
    {"id"} + set i | 0 <= i < |COLUMNS| :: COLUMNS[i].0.name
  }

  const FINAL_KEYS := map[
    "fk.pln_transaction_order_id" :=
      ForeignKey(["order_id", "order_version_id"], "order", ["id", "version_id"], Some("CASCADE"), Some("CASCADE")),
    "fk.pln_transaction_payment_method_id" :=
      ForeignKey(["payment_method_id"], "payment_method", ["id"], Some("RESTRICT"), Some("CASCADE")),
    "fk.pln_transaction_sales_channel_id" :=
      ForeignKey(["sales_channel_id"], "sales_channel", ["id"], Some("RESTRICT"), Some("CASCADE"))]

  /** The final table's key on the refund side. */
  const FINAL_REFUND_KEY := ForeignKey(["transaction_id"], REAL, ["transaction_id"], Some("CASCADE"), None)

  /** The types of the columns that an upgrade adds where they are missing. */
  const FINAL_TYPES := map[
    "confirmation_email_sent" := "tinyint", "erp_merchant_id" := "varchar", "data" := "longtext",
    "payment_method_id" := "binary", "order_id" := "binary", "order_transaction_id" := "binary", "space_id" := "int",
    "state" := "varchar", "sales_channel_id" := "binary", "transaction_id" := "int", "order_version_id" := "binary",
    "created_at" := "datetime", "updated_at" := "datetime"]

  lemma StepsColumns()
    ensures ColumnsOf(Steps(), OLD) + {"id"} == FinalColumns()
  {
    var steps := Steps();
    forall i | 0 <= i < |COLUMNS| ensures steps[i] == EnsureColumn(OLD, COLUMNS[i].0, COLUMNS[i].1) {
    }
    forall i | |COLUMNS| <= i < |steps| ensures !steps[i].EnsureColumn? {
    }
    forall name | name in ColumnsOf(steps, OLD) ensures name in FinalColumns() {
      var i :| 0 <= i < |steps| && steps[i].EnsureColumn? && steps[i].column.name == name;
      assert COLUMNS[i].0.name == name;
    }
    forall name | name in FinalColumns() && name != "id" ensures name in ColumnsOf(steps, OLD) {
      var i :| 0 <= i < |COLUMNS| && COLUMNS[i].0.name == name;
      assert steps[i].column.name == name;
    }
  }

  lemma IdIsNotAdded()
    ensures "id" !in ColumnsOf(Steps(), OLD)
  {
    var steps := Steps();
    forall i | 0 <= i < |steps| && steps[i].EnsureColumn? ensures steps[i].column.name != "id" {
      OnlyColumns(i);
      StepAt(i);
      AddedIsNotId(i);
    }
  }

  lemma AddedIsNotId(i: nat)
    requires i < |COLUMNS|
    ensures COLUMNS[i].0.name != "id"
  {
  }

  function KeyMap(keys: seq<(string, ForeignKey)>): map<string, ForeignKey> {
    if keys == [] then map[] else KeyMap(keys[1..])[keys[0].0 := keys[0].1]
  }

  lemma {:induction false} KeysOfKeySteps(table: string, keys: seq<(string, ForeignKey)>)
    ensures KeysOf(KeySteps(table, keys), table) == KeyMap(keys)
  {
    if keys != [] {
      KeysOfKeySteps(table, keys[1..]);
      assert KeySteps(table, keys)[1..] == KeySteps(table, keys[1..]);
    }
  }

  lemma KeyMapIsFinal()
    ensures KeyMap(KEYS) == FINAL_KEYS
  {
    var none: seq<(string, ForeignKey)> := [];
    assert [KEYS[2]][1..] == none && [KEYS[1], KEYS[2]][1..] == [KEYS[2]] && KEYS[1..] == [KEYS[1], KEYS[2]];
    assert KeyMap([KEYS[2]]) == map[KEYS[2].0 := KEYS[2].1];
    assert KeyMap([KEYS[1], KEYS[2]]) == map[KEYS[2].0 := KEYS[2].1, KEYS[1].0 := KEYS[1].1];
  }

  lemma StepsKeys()
    ensures KeysOf(Steps(), OLD) == FINAL_KEYS
  {
    hide KeysOf, KeyMap;
    var others := ColumnSteps(OLD, COLUMNS) + IndexSteps(OLD, INDEXES);
    var keys := KeySteps(OLD, KEYS);
    assert Steps() == others + (keys + RefundSteps(OLD));
    KeysOfAppend(others, keys + RefundSteps(OLD), OLD);
    KeysOfAppend(keys, RefundSteps(OLD), OLD);
    NoKeysOf(others, OLD);
    NoKeysOf(RefundSteps(OLD), OLD);
    KeysOfKeySteps(OLD, KEYS);
    KeyMapIsFinal();
  }

  lemma StepsRefundKeys()
    ensures KeysOf(Steps(), REFUND) == map[REFUND_KEY := RefundSteps(OLD)[1].key]
  {
    hide KeysOf, KeyMap;
    KeysOfAppend(TransactionSteps(OLD), RefundSteps(OLD), REFUND);
    NoKeysOf(TransactionSteps(OLD), REFUND);
    RefundKeys();
  }

  lemma RefundKeys()
    ensures KeysOf(RefundSteps(OLD), REFUND) == map[REFUND_KEY := RefundSteps(OLD)[1].key]
  {
    var steps := RefundSteps(OLD);
    assert [steps[1]][1..] == [] && steps[1..] == [steps[1]];
    assert KeysOf([steps[1]], REFUND) == map[steps[1].name := steps[1].key];
  }

  // ---------------------------------------------------------------- an upgrade

  /** An upgrade that goes through ends with the columns it made sure of and its keys; the refund key
      follows the table to its new name. */
  lemma UpgradeEnds(server: Server, s: Schema, left: nat)
    requires Upgrades(s) && Update(server, s, left).ended.Done?
    ensures var t := Update(server, s, left).schema;
            && OLD !in t && REAL in t && REFUND in s && REFUND in t
            && Names(t[REAL]) == Names(s[OLD]) + (FinalColumns() - {"id"})
            && t[REAL].foreignKeys
               == Redirected(s[OLD].(foreignKeys := FINAL_KEYS + s[OLD].foreignKeys), OLD, REAL).foreignKeys
            && REFUND_KEY in t[REFUND].foreignKeys
            && (REFUND_KEY !in s[REFUND].foreignKeys ==> t[REFUND].foreignKeys[REFUND_KEY] == FINAL_REFUND_KEY)
            && var target := t[REFUND].foreignKeys[REFUND_KEY].refTable;
               if REFUND_KEY in s[REFUND].foreignKeys && s[REFUND].foreignKeys[REFUND_KEY].refTable != OLD
               then target == s[REFUND].foreignKeys[REFUND_KEY].refTable else target == REAL
  {
    hide IsOldPluginTable, EnsureAll, Steps, ColumnMap, FinalColumns;
    var o := EnsureAll(server, s, Steps(), left);
    EnsureAllAdds(server, s, Steps(), left, OLD);
    StepsColumns();
    IdIsNotAdded();
    StepsKeys();
    RefundIsThere(server, s, left);
    EnsureAllAdds(server, s, Steps(), left, REFUND);
    StepsRefundKeys();
  }

  lemma TypesListed(i: nat)
    requires i < |COLUMNS|
    ensures COLUMNS[i].0.name in FINAL_TYPES && FINAL_TYPES[COLUMNS[i].0.name] == COLUMNS[i].0.dataType
  {
  }

  /** The type of a column under its name; a step that finds it leaves it, and one that does not adds it with
      its own type. */
  lemma EnsureTypes(server: Server, s: Schema, e: Step, left: nat, x: string, name: string)
    requires x in s && Ensure(server, s, e, left).ended.Done?
    ensures var t := Ensure(server, s, e, left).schema;
            && x in t
            && (name in Names(t[x]) <==> name in Names(s[x]) || Provides(e, x, name))
            && (name in Names(t[x]) ==>
                  ColumnMap(t[x].columns)[name]
                  == if name in Names(s[x]) then ColumnMap(s[x].columns)[name] else e.column.dataType)
  {
    hide ColumnMap, Placed;
    if e.EnsureColumn? && e.table in s && !Present(s, e) {
      PlacedColumn(s[e.table].columns, e.column, e.place);
    }
  }

  /** All steps for a column agree on its type. */
  ghost predicate Agree(steps: seq<Step>, x: string, name: string, dataType: string) {
    forall i :: 0 <= i < |steps| && Provides(steps[i], x, name) ==> steps[i].column.dataType == dataType
  }

  lemma {:induction false} EnsureAllTypes(server: Server, s: Schema, steps: seq<Step>, left: nat, x: string,
                                          name: string, dataType: string)
    requires x in s && EnsureAll(server, s, steps, left).ended.Done? && Agree(steps, x, name, dataType)
    ensures var t := EnsureAll(server, s, steps, left).schema;
            && x in t
            && (name in Names(t[x]) ==>
                  ColumnMap(t[x].columns)[name]
                  == if name in Names(s[x]) then ColumnMap(s[x].columns)[name] else dataType)
    decreases |steps|
  {
    hide Ensure, ColumnMap;
    if steps != [] {
      var o := Ensure(server, s, steps[0], left);
      EnsureTypes(server, s, steps[0], left, x, name);
      EnsureAllTypes(server, o.schema, steps[1..], o.left, x, name, dataType);
    }
  }

  /** The columns of an upgraded table have the types they had, and those that were added their own. */
  lemma UpgradeTypes(server: Server, s: Schema, left: nat, name: string)
    requires Upgrades(s) && Update(server, s, left).ended.Done?
    ensures var t := Update(server, s, left).schema;
            && REAL in t
            && (name in FINAL_TYPES ==> name in Names(t[REAL]))
            && (name in Names(t[REAL]) <==> name in Names(s[OLD]) || name in FINAL_TYPES)
            && (name in Names(t[REAL]) ==>
                  ColumnMap(t[REAL].columns)[name]
                  == if name in Names(s[OLD]) then ColumnMap(s[OLD].columns)[name] else FINAL_TYPES[name])
  {
    hide IsOldPluginTable, EnsureAll, Steps, ColumnMap;
    EnsureAllAdds(server, s, Steps(), left, OLD);
    StepsColumns();
    FinalNames();
    IdIsNotAdded();
    var dataType := if name in FINAL_TYPES then FINAL_TYPES[name] else "";
    forall i | 0 <= i < |Steps()| && Provides(Steps()[i], OLD, name) ensures Steps()[i].column.dataType == dataType {
      OnlyColumns(i);
      StepAt(i);
      TypesListed(i);
    }
    EnsureAllTypes(server, s, Steps(), left, OLD, name, dataType);
  }

  lemma FinalNames()
    ensures FinalColumns() == FINAL_TYPES.Keys + {"id"} && "id" !in FINAL_TYPES
  {
    forall i | 0 <= i < |COLUMNS| ensures COLUMNS[i].0.name in FINAL_TYPES {
      TypesListed(i);
    }
    forall name | name in FINAL_TYPES ensures name in FinalColumns() {
      NameListed(name);
    }
  }

  lemma NameListed(name: string)
    requires name in FINAL_TYPES
    ensures exists i :: 0 <= i < |COLUMNS| && COLUMNS[i].0.name == name
  {
    assert COLUMNS[0].0.name == "confirmation_email_sent" && COLUMNS[1].0.name == "erp_merchant_id";
    assert COLUMNS[2].0.name == "data" && COLUMNS[3].0.name == "payment_method_id";
    assert COLUMNS[4].0.name == "order_id" && COLUMNS[5].0.name == "order_transaction_id";
    assert COLUMNS[6].0.name == "space_id" && COLUMNS[7].0.name == "state";
    assert COLUMNS[8].0.name == "sales_channel_id" && COLUMNS[9].0.name == "transaction_id";
    assert COLUMNS[10].0.name == "order_version_id" && COLUMNS[11].0.name == "created_at";
    assert COLUMNS[12].0.name == "updated_at";
  }

  lemma {:induction false} AllPresent(server: Server, s: Schema, steps: seq<Step>, left: nat, i: nat)
    requires EnsureAll(server, s, steps, left).ended.Done? && i < |steps|
    ensures var t := EnsureAll(server, s, steps, left).schema; s.Keys == t.Keys && Present(t, steps[i])
    decreases |steps|
  {
    hide Ensure, Present, Grows;
    var o := Ensure(server, s, steps[0], left);
    EnsureGrows(server, s, steps[0], left);
    EnsureAllGrows(server, o.schema, steps[1..], o.left);
    if i == 0 {
      PresentGrows(o.schema, EnsureAll(server, s, steps, left).schema, steps[0]);
    } else {
      AllPresent(server, o.schema, steps[1..], o.left, i - 1);
    }
  }

  lemma RefundIsThere(server: Server, s: Schema, left: nat)
    requires EnsureAll(server, s, Steps(), left).ended.Done?
    ensures REFUND in s
  {
    StepsKeepVerdict();
    AllPresent(server, s, Steps(), left, 21);
    assert Steps()[21] == RefundSteps(OLD)[0];
  }

  /** It has all the indexes, and so has the refund table. */
  lemma UpgradeHasIndexes(server: Server, s: Schema, left: nat, i: nat)
    requires Upgrades(s) && Update(server, s, left).ended.Done? && i < |INDEXES|
    ensures var t := Update(server, s, left).schema;
            && REAL in t && INDEXES[i] in t[REAL].indexes
            && REFUND in t && REFUND_KEY in t[REFUND].indexes
  {
    hide IsOldPluginTable, EnsureAll, ColumnMap;
    StepsKeepVerdict();
    AllPresent(server, s, Steps(), left, 13 + i);
    AllPresent(server, s, Steps(), left, 21);
    IndexStepAt(i);
  }

  lemma IndexStepAt(i: nat)
    requires i < |INDEXES|
    ensures |Steps()| == 23 && Steps()[13 + i] == EnsureIndex(OLD, INDEXES[i])
        && Steps()[21] == EnsureIndex(REFUND, REFUND_KEY)
  {
    var before := ColumnSteps(OLD, COLUMNS);
    assert |before| == 13 && |INDEXES| == 5;
    assert IndexSteps(OLD, INDEXES)[i] == EnsureIndex(OLD, INDEXES[i]);
  }

  /** A server that refuses a statement only where a table, a column to stand behind or a free name is missing. */
  ghost predicate Lenient(server: Server) {
    forall s, c :: server.accepts(s, c)
  }

  /** Every column that a step places behind another is there, or comes with an earlier step. */
  ghost predicate WellPlaced(s: Schema, steps: seq<Step>) {
    forall i :: 0 <= i < |steps| ==>
      && steps[i].table in s
      && (steps[i].EnsureColumn? && steps[i].place.After? ==>
            steps[i].place.column in Names(s[steps[i].table])
            || exists j :: 0 <= j < i && Provides(steps[j], steps[i].table, steps[i].place.column))
  }

  predicate Provides(e: Step, table: string, column: string) {
    e.EnsureColumn? && e.table == table && e.column.name == column
  }

  lemma {:induction false} WellPlacedGoesThrough(server: Server, s: Schema, steps: seq<Step>, left: nat)
    requires Lenient(server) && WellPlaced(s, steps) && |steps| <= left
    ensures EnsureAll(server, s, steps, left).ended.Done?
    decreases |steps|
  {
    hide ColumnMap;
    if steps != [] {
      assert steps[0].table in s;
      var o := Ensure(server, s, steps[0], left);
      assert o.ended.Done?;
      EnsureGrows(server, s, steps[0], left);
      RestWellPlaced(server, s, steps, left);
      WellPlacedGoesThrough(server, o.schema, steps[1..], o.left);
    }
  }

  lemma RestWellPlaced(server: Server, s: Schema, steps: seq<Step>, left: nat)
    requires steps != [] && WellPlaced(s, steps) && Ensure(server, s, steps[0], left).ended.Done?
    ensures WellPlaced(Ensure(server, s, steps[0], left).schema, steps[1..])
  {
    hide ColumnMap, Ensure;
    var t := Ensure(server, s, steps[0], left).schema;
    var rest := steps[1..];
    EnsureGrows(server, s, steps[0], left);
    forall i | 0 <= i < |rest|
      ensures && rest[i].table in t
              && (rest[i].EnsureColumn? && rest[i].place.After? ==>
                    rest[i].place.column in Names(t[rest[i].table])
                    || exists j :: 0 <= j < i && Provides(rest[j], rest[i].table, rest[i].place.column))
    {
      assert steps[i + 1] == rest[i];
      if rest[i].EnsureColumn? && rest[i].place.After? {
        var table, column := rest[i].table, rest[i].place.column;
        assert Grows(s[table], t[table]);
        if column !in Names(t[table]) {
          var j :| 0 <= j < i + 1 && Provides(steps[j], table, column);
          assert j > 0 && Provides(rest[j - 1], table, column);
        }
      }
    }
  }

  lemma StepAt(i: nat)
    requires i < |COLUMNS|
    ensures i < |Steps()| && Steps()[i] == EnsureColumn(OLD, COLUMNS[i].0, COLUMNS[i].1)
  {
  }

  lemma LaterStepsWellPlaced(s: Schema)
    requires OLD in s && REFUND in s && COLUMNS[0].0.name in Names(s[OLD])
    ensures |Steps()| == 23 && WellPlaced(s, Steps()[1..])
  {
    hide ColumnMap, IsOldPluginTable;
    StepsKeepVerdict();
    StepsConcernTwoTables();
    var rest := Steps()[1..];
    forall i | 0 <= i < |rest|
      ensures && rest[i].table in s
              && (rest[i].EnsureColumn? && rest[i].place.After? ==>
                    rest[i].place.column in Names(s[rest[i].table])
                    || exists j :: 0 <= j < i && Provides(rest[j], rest[i].table, rest[i].place.column))
    {
      assert rest[i] == Steps()[i + 1];
      if rest[i].EnsureColumn? && rest[i].place.After? {
        OnlyColumns(i + 1);
        StepAt(i + 1);
        ListedBehind(i + 1);
        if i > 0 {
          StepAt(i);
          assert rest[i - 1] == Steps()[i];
          assert Provides(rest[i - 1], rest[i].table, rest[i].place.column);
        }
      }
    }
  }

  lemma OnlyColumns(i: nat)
    requires i < |Steps()| && Steps()[i].EnsureColumn?
    ensures i < |COLUMNS|
  {
  }

  /** A column that is placed behind another one comes right after it in the list. */
  lemma ListedBehind(i: nat)
    requires 0 < i < |COLUMNS| && COLUMNS[i].1.After?
    ensures COLUMNS[i].1.column == COLUMNS[i - 1].0.name
  {
  }

  /** On such a server an upgrade goes through exactly if the final name is free, there is a refund table,
      and the first column has a place. */
  lemma UpgradeGoesThrough(server: Server, s: Schema, left: nat)
    requires Lenient(server) && Upgrades(s) && ENOUGH <= left
    ensures Update(server, s, left).ended.Done? <==>
            REAL !in s && REFUND in s && ("id" in Names(s[OLD]) || "confirmation_email_sent" in Names(s[OLD]))
  {
    hide ColumnMap, IsOldPluginTable, WellPlaced, EnsureAll, SchemaGrows, Placed;
    StepsKeepVerdict();
    var steps := Steps();
    StepAt(0);
    FirstStep(server, s, steps, left);
    var o := Ensure(server, s, steps[0], left);
    EnsureGrows(server, s, steps[0], left);
    if REFUND in s && o.ended.Done? {
      KeepsTables(s, o.schema);
      LaterStepsWellPlaced(o.schema);
      WellPlacedGoesThrough(server, o.schema, steps[1..], o.left);
    }
    EnsureAllGrows(server, s, steps, left);
    KeepsTables(s, EnsureAll(server, s, steps, left).schema);
    EnoughLeft(server, s, steps, left, left);
    if EnsureAll(server, s, steps, left).ended.Done? {
      RefundIsThere(server, s, left);
    }
  }

  lemma KeepsTables(s: Schema, t: Schema)
    requires SchemaGrows(s, t)
    ensures s.Keys == t.Keys
  {
  }

  lemma FirstStep(server: Server, s: Schema, steps: seq<Step>, left: nat)
    requires steps != []
    ensures var o := Ensure(server, s, steps[0], left);
            EnsureAll(server, s, steps, left) ==
              if o.ended.Done? then EnsureAll(server, o.schema, steps[1..], o.left) else o
  {
    hide Ensure;
  }

  // ---------------------------------------------------------------- a fresh installation

  const CREATED := Table(
    [Column("id", "binary"), Column("data", "json"), Column("payment_method_id", "binary"),
     Column("order_id", "binary"),
     Column("order_transaction_id", "binary"), Column("space_id", "int"), Column("state", "varchar"),
     Column("sales_channel_id", "binary"), Column("transaction_id", "int"), Column("created_at", "datetime"),
     Column("updated_at", "datetime")],
    {"PRIMARY", "transaction_id_UNIQUE", "fk.pln_transaction.order_id", "fk.pln_transaction.order_transaction_id",
     "fk.pln_transaction.payment_method_id", "fk.pln_transaction.sales_channel_id"},
    map["fk.pln_transaction.order_id" := ForeignKey(["order_id"], "order", ["id"], Some("CASCADE"), None),
        "fk.pln_transaction.order_transaction_id" :=
          ForeignKey(["order_transaction_id"], "order_transaction", ["id"], Some("CASCADE"), None),
        "fk.pln_transaction.payment_method_id" :=
          ForeignKey(["payment_method_id"], "payment_method", ["id"], Some("CASCADE"), None),
        "fk.pln_transaction.sales_channel_id" :=
          ForeignKey(["sales_channel_id"], "sales_channel", ["id"], Some("CASCADE"), None)],
    [])

  const CREATED_REFUND := Table(
    [Column("id", "binary"), Column("data", "json"), Column("refund_id", "int"), Column("space_id", "int"),
     Column("state", "varchar"), Column("transaction_id", "int"), Column("created_at", "datetime"),
     Column("updated_at", "datetime")],
    {"PRIMARY", "refund_id_UNIQUE", "fk.pln_refund.transaction_id"},
    map[REFUND_KEY := ForeignKey(["transaction_id"], TEMP, ["transaction_id"], Some("CASCADE"), None)],
    [])

  /** The statements of one earlier migration that gives up at the first refusal. */
  function Attempt(server: Server, s: Schema, statements: seq<Statement>): Schema
    decreases |statements|
  {
    if statements == [] then s
    else
      var t := Exec(server, s, statements[0]);
      if t.None? then s else Attempt(server, t.value, statements[1..])
  }

  /** The migrations before this one, in the order of their time stamps. */
  function Chain(server: Server, s: Schema): Option<Schema> {
    var a := Exec(server, s, CreateIfMissing(TEMP, CREATED));
    if a.None? then None
    else
      var b := Exec(server, a.value, CreateIfMissing(REFUND, CREATED_REFUND));
      if b.None? then None
      else
        var c := Attempt(server, b.value, [AddColumn(TEMP, COLUMNS[0].0, After("id"))]);
        var d := Attempt(server, c, VersionStatements());
        Some(Attempt(server, d, [AddColumn(TEMP, COLUMNS[1].0, After("confirmation_email_sent"))]))
  }

  lemma {:induction false} NamesListed(columns: seq<Column>)
    ensures ColumnMap(columns).Keys == set i | 0 <= i < |columns| :: columns[i].name
  {
    if columns != [] {
      var n := |columns| - 1;
      NamesListed(columns[..n]);
      assert columns == columns[..n] + [columns[n]];
    }
  }

  lemma CreatedColumns()
    ensures Names(CREATED) + {"confirmation_email_sent", "order_version_id", "erp_merchant_id"} == FinalColumns()
    ensures "id" in Names(CREATED) && "transaction_id" in Names(CREATED)
    ensures "confirmation_email_sent" !in Names(CREATED) && "order_version_id" !in Names(CREATED)
        && "erp_merchant_id" !in Names(CREATED)
  {
    hide ColumnMap;
    var created := CREATED.columns;
    NamesListed(created);
    assert |created| == 11 && |COLUMNS| == 13;
    assert created[0].name == "id" && created[8].name == "transaction_id";
    forall i | 1 <= i < 9 ensures created[i].name == COLUMNS[i + 1].0.name {
    }
    forall i | 9 <= i < 11 ensures created[i].name == COLUMNS[i + 2].0.name {
    }
    AddedLater();
    forall name | name in FinalColumns()
      ensures name in Names(CREATED) + {"confirmation_email_sent", "order_version_id", "erp_merchant_id"}
    {
      if name != "id" {
        var i :| 0 <= i < |COLUMNS| && COLUMNS[i].0.name == name;
        if 2 <= i < 10 {
          assert created[i - 1].name == name;
        } else if 11 <= i {
          assert created[i - 2].name == name;
        }
      }
    }
    NewNames();
  }

  lemma AddedLater()
    ensures COLUMNS[0].0.name == "confirmation_email_sent" && COLUMNS[1].0.name == "erp_merchant_id"
            && COLUMNS[10].0.name == "order_version_id"
  {
  }

  lemma NewNames()
    ensures forall i :: 0 <= i < |CREATED.columns| ==>
              CREATED.columns[i].name !in {"confirmation_email_sent", "order_version_id", "erp_merchant_id"}
  {
  }

  lemma AddsColumn(server: Server, s: Schema, table: string, c: Column, behind: string)
    requires Lenient(server) && table in s && c.name !in Names(s[table]) && behind in Names(s[table])
    ensures var t := Exec(server, s, AddColumn(table, c, After(behind)));
            && t.Some? && t.value.Keys == s.Keys
            && Names(t.value[table]) == Names(s[table]) + {c.name}
            && t.value[table].foreignKeys == s[table].foreignKeys
            && t.value == s[table := t.value[table]]
  {
    hide ColumnMap, Placed;
    PlacedColumn(s[table].columns, c, After(behind));
  }

  /** A migration with one added column. */
  lemma AddsOneColumn(server: Server, s: Schema, c: Column, behind: string)
    requires Lenient(server) && TEMP in s && c.name !in Names(s[TEMP]) && behind in Names(s[TEMP])
    ensures var t := Attempt(server, s, [AddColumn(TEMP, c, After(behind))]);
            && TEMP in t && t == s[TEMP := t[TEMP]]
            && Names(t[TEMP]) == Names(s[TEMP]) + {c.name}
            && t[TEMP].foreignKeys == s[TEMP].foreignKeys
  {
    hide Names, Exec;
    AddsColumn(server, s, TEMP, c, behind);
    var one := [AddColumn(TEMP, c, After(behind))];
    assert one[1..] == [];
  }

  /** The migration that adds the version column and replaces the keys. */
  function VersionStatements(): seq<Statement> {
    [AddColumn(TEMP, Column("order_version_id", "binary"), After("transaction_id")),
     DropForeignKeys(TEMP, CREATED.foreignKeys.Keys),
     AddForeignKeys(TEMP, FINAL_KEYS)]
  }

  lemma VersionMigration(server: Server, s: Schema)
    requires Lenient(server) && TEMP in s && s[TEMP].foreignKeys == CREATED.foreignKeys
    requires "order_version_id" !in Names(s[TEMP]) && "transaction_id" in Names(s[TEMP])
    ensures var t := Attempt(server, s, VersionStatements());
            && TEMP in t && t == s[TEMP := t[TEMP]]
            && Names(t[TEMP]) == Names(s[TEMP]) + {"order_version_id"}
            && t[TEMP].foreignKeys == FINAL_KEYS
  {
    hide ColumnMap, Placed;
    var all := VersionStatements();
    AddsColumn(server, s, TEMP, Column("order_version_id", "binary"), "transaction_id");
    var a := Exec(server, s, all[0]).value;
    KeysReplaced(server, a, CREATED.foreignKeys.Keys, FINAL_KEYS);
    var rest := [all[1], all[2]];
    assert all[1..] == rest && rest[1..] == [all[2]] && [all[2]][1..] == [];
    assert Attempt(server, s, all) == Attempt(server, a, rest);
    var b := Exec(server, a, all[1]).value;
    assert Attempt(server, a, rest) == Attempt(server, b, [all[2]]);
    assert Attempt(server, b, [all[2]]) == Exec(server, b, all[2]).value;
  }

  lemma KeysReplaced(server: Server, s: Schema, names: set<string>, keys: map<string, ForeignKey>)
    requires Lenient(server) && TEMP in s && s[TEMP].foreignKeys.Keys == names
    ensures var t := Exec(server, s, DropForeignKeys(TEMP, names));
            && t.Some? && TEMP in t.value
            && var u := Exec(server, t.value, AddForeignKeys(TEMP, keys));
               u == Some(s[TEMP := s[TEMP].(foreignKeys := keys)])
  {
    var none := s[TEMP].foreignKeys - names;
    assert none == map[] && none + keys == keys;
    var t := s[TEMP := s[TEMP].(foreignKeys := none)];
    assert Exec(server, s, DropForeignKeys(TEMP, names)) == Some(t);
    assert Exec(server, t, AddForeignKeys(TEMP, keys)) == Some(t[TEMP := t[TEMP].(foreignKeys := keys)]);
    assert t[TEMP := t[TEMP].(foreignKeys := keys)] == s[TEMP := s[TEMP].(foreignKeys := keys)];
  }

  /** What the earlier migrations leave behind on a shop without the temporary table; a refund table that
      exists is left as it is. */
  lemma ChainEnds(server: Server, s: Schema)
    requires Lenient(server) && TEMP !in s
    ensures var t := Chain(server, s);
            && t.Some? && t.value.Keys == s.Keys + {TEMP, REFUND}
            && Names(t.value[TEMP]) == FinalColumns()
            && t.value[TEMP].foreignKeys == FINAL_KEYS
            && t.value[REFUND] == (if REFUND in s then s[REFUND] else CREATED_REFUND)
            && forall x :: x in s ==> t.value[x] == s[x]
  {
    hide Names, FinalColumns, Attempt, VersionStatements;
    CreatedColumns();
    AddedLater();
    var a := s[TEMP := CREATED];
    var b := if REFUND in s then a else a[REFUND := CREATED_REFUND];
    AddsOneColumn(server, b, COLUMNS[0].0, "id");
    var c := Attempt(server, b, [AddColumn(TEMP, COLUMNS[0].0, After("id"))]);
    OtherNames();
    VersionMigration(server, c);
    var d := Attempt(server, c, VersionStatements());
    AddsOneColumn(server, d, COLUMNS[1].0, "confirmation_email_sent");
  }

  lemma OtherNames()
    ensures "confirmation_email_sent" != "order_version_id" && "order_version_id" != "erp_merchant_id"
            && "erp_merchant_id" != "confirmation_email_sent"
  {
  }

  lemma FinalKeysStay()
    ensures forall name :: name in FINAL_KEYS ==> FINAL_KEYS[name].refTable !in {OLD, TEMP, REAL}
  {
  }

  /** A table with the final columns and keys, and a refund table that references it. */
  ghost predicate AtTarget(t: Schema) {
    && REAL in t && Names(t[REAL]) == FinalColumns() && t[REAL].foreignKeys == FINAL_KEYS
    && REFUND in t && REFUND_KEY in t[REFUND].foreignKeys && t[REFUND].foreignKeys[REFUND_KEY].refTable == REAL
  }

  /** All keys of a table are final ones. */
  ghost predicate OnlyFinalKeys(t: Table) {
    forall name :: name in t.foreignKeys ==> name in FINAL_KEYS && t.foreignKeys[name] == FINAL_KEYS[name]
  }

  lemma SameNames(t: Table, from: string, to: string)
    ensures Names(Redirected(t, from, to)) == Names(t)
  {
  }

  /** Redirecting keys to the final name makes them final exactly if they are final already. */
  lemma RedirectedKeys(t: Table, from: string)
    requires from == OLD || from == TEMP
    ensures Redirected(t, from, REAL).foreignKeys == FINAL_KEYS <==> t.foreignKeys == FINAL_KEYS
  {
    FinalKeysStay();
    var keys := Redirected(t, from, REAL).foreignKeys;
    if keys == FINAL_KEYS {
      forall name | name in t.foreignKeys ensures name in FINAL_KEYS && t.foreignKeys[name] == FINAL_KEYS[name] {
        assert name in keys && keys[name].refTable != REAL;
      }
      forall name | name in FINAL_KEYS ensures name in t.foreignKeys {
        assert name in keys;
      }
    }
  }

  lemma KeysAfterUpgrade(t: Table)
    ensures FINAL_KEYS + t.foreignKeys == FINAL_KEYS <==> OnlyFinalKeys(t)
  {
    var keys := FINAL_KEYS + t.foreignKeys;
    if keys == FINAL_KEYS {
      forall name | name in t.foreignKeys ensures name in FINAL_KEYS && t.foreignKeys[name] == FINAL_KEYS[name] {
        assert name in keys && keys[name] == t.foreignKeys[name];
      }
    }
  }

  /** An upgrade that goes through is at the target exactly if the old table has the identifier, no column
      and no key besides the final ones, and the refund key is missing or references the table under its old
      or its final name. */
  lemma UpgradeAtTarget(server: Server, s: Schema, n: nat)
    requires Upgrades(s) && Update(server, s, n).ended.Done?
    ensures REFUND in s
    ensures AtTarget(Update(server, s, n).schema) <==>
              && "id" in Names(s[OLD]) && Names(s[OLD]) <= FinalColumns()
              && OnlyFinalKeys(s[OLD])
              && (REFUND_KEY in s[REFUND].foreignKeys ==> s[REFUND].foreignKeys[REFUND_KEY].refTable in {OLD, REAL})
  {
    hide ColumnMap, Update, IsOldPluginTable, Names, Redirected, OnlyFinalKeys;
    UpgradeEnds(server, s, n);
    KeysAfterUpgrade(s[OLD]);
    RedirectedKeys(s[OLD].(foreignKeys := FINAL_KEYS + s[OLD].foreignKeys), OLD);
  }

  /** The renaming of a fresh table is at the target exactly if the table is as the earlier migrations should
      leave it, and the refund key references it under its temporary or its final name: the refund table is
      not brought up to date in this branch. */
  lemma FreshBranchAtTarget(server: Server, s: Schema, m: nat)
    requires TEMP in s && Update(server, s, m).ended.Done?
    ensures AtTarget(Update(server, s, m).schema) <==>
              && Names(s[TEMP]) == FinalColumns() && s[TEMP].foreignKeys == FINAL_KEYS
              && REFUND in s && REFUND_KEY in s[REFUND].foreignKeys
              && s[REFUND].foreignKeys[REFUND_KEY].refTable in {TEMP, REAL}
  {
    hide ColumnMap, FinalColumns, EnsureAll, IsOldPluginTable, Steps, Names;
    SameNames(s[TEMP], TEMP, REAL);
    RedirectedKeys(s[TEMP], TEMP);
  }

  /** A shop without the temporary table: the installation goes through exactly if the final name is free, and
      then is at the target exactly if there was no refund table, or its key was there and references the
      temporary or the final name. */
  lemma FreshAtTarget(server: Server, shop: Schema, m: nat)
    requires Lenient(server) && TEMP !in shop
    ensures Chain(server, shop).Some?
    ensures var o := Update(server, Chain(server, shop).value, m);
            && (o.ended.Done? <==> REAL !in shop && m > 0)
            && (o.ended.Done? ==>
                  (AtTarget(o.schema) <==>
                     REFUND in shop ==>
                       && REFUND_KEY in shop[REFUND].foreignKeys
                       && shop[REFUND].foreignKeys[REFUND_KEY].refTable in {TEMP, REAL}))
  {
    hide ColumnMap, FinalColumns, EnsureAll, IsOldPluginTable, Chain, Steps, Names, AtTarget;
    ChainEnds(server, shop);
    if REAL !in shop && m > 0 {
      FreshBranchAtTarget(server, Chain(server, shop).value, m);
    }
  }

  const OLD_REFUND := CREATED_REFUND.(
    foreignKeys := map[REFUND_KEY := ForeignKey(["transaction_id"], OLD, ["transaction_id"], Some("CASCADE"), None)])

  /** A table as the first migration made it: the upgrade goes through, but keeps the four original keys, so
      that deleting an order transaction still deletes the transaction. */
  lemma OriginalKeysSurvive(server: Server)
    requires Lenient(server)
    ensures var s := map[OLD := CREATED, REFUND := OLD_REFUND];
            var o := Update(server, s, ENOUGH);
            var name := "fk.pln_transaction.order_transaction_id";
            && Upgrades(s) && Names(s[OLD]) <= FinalColumns() && o.ended.Done? && !AtTarget(o.schema)
            && REAL in o.schema && name in o.schema[REAL].foreignKeys
            && o.schema[REAL].foreignKeys[name].onDelete == Some("CASCADE")
  {
    hide ColumnMap, Update, AtTarget, FinalColumns, Names;
    var s := map[OLD := CREATED, REFUND := OLD_REFUND];
    var name := "fk.pln_transaction.order_transaction_id";
    CreatedColumns();
    CreatedIsNotOld();
    UpgradeGoesThrough(server, s, ENOUGH);
    UpgradeEnds(server, s, ENOUGH);
    UpgradeAtTarget(server, s, ENOUGH);
    assert name in CREATED.foreignKeys;
    NotFinal(name);
  }

  lemma NotFinal(name: string)
    requires name == "fk.pln_transaction.order_transaction_id"
    ensures name !in FINAL_KEYS
  {
    assert |name| == 39;
  }

  lemma CreatedIsNotOld()
    ensures !IsOldPluginTable(CREATED)
  {
    NamesListed(CREATED.columns);
    assert forall i :: 0 <= i < |CREATED.columns| ==> CREATED.columns[i].name != EXCLUSIVE[0].name;
  }

  /** A refund table that references the old name is left as it is by a fresh installation, which goes through. */
  lemma ExistingRefundTableIsKept(server: Server)
    requires Lenient(server)
    ensures var shop := map[OLD := CREATED, REFUND := OLD_REFUND];
            var c := Chain(server, shop);
            c.Some? && Update(server, c.value, 1).ended.Done? && !AtTarget(Update(server, c.value, 1).schema)
  {
    hide AtTarget, Chain, Update;
    FreshAtTarget(server, map[OLD := CREATED, REFUND := OLD_REFUND], 1);
  }
}
