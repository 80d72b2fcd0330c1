/** Whole runs of the migration: stopping and resuming, what is never touched, and where installations
    of different age end up. */
module MigrationRuns {
  import opened Migration

  /** More statements than the migration has. */
  const ENOUGH := 24

  ghost predicate SameResult(o: Outcome, p: Outcome) {
    o.schema == p.schema && o.ended == p.ended
  }

  /** A fresh installation that goes through, next to a table that a later run takes for an upgrade. */
  predicate LeftBehind(server: Server, s: Schema) {
    && TEMP in s && Exec(server, s, Rename(TEMP, REAL)).Some?
    && OLD in s && !IsOldPluginTable(s[OLD])
  }

  // ---------------------------------------------------------------- stopping and resuming

  lemma RenamedVerdict(s: Schema, from: string, to: string, x: string)
    requires from in s && to !in s && x in s && x != from
    ensures var t := Renamed(s, from, to); x in t && t[x] == Redirected(s[x], from, to)
                                           && (IsOldPluginTable(t[x]) <==> IsOldPluginTable(s[x]))
  {
  }

  lemma UpgradeResumes(server: Server, s: Schema, n: nat, m: nat)
    requires Upgrades(s) && ENOUGH <= m
    ensures SameResult(Update(server, Update(server, s, n).schema, m), Update(server, s, m))
  {
    hide EnsureAll, Exec, IsOldPluginTable, Steps, KeepsVerdict, SchemaGrows;
    StepsKeepVerdict();
    EnsureAllResumes(server, s, Steps(), n, m);
    EnsureAllKeepsVerdict(server, s, Steps(), n);
    EnoughLeft(server, s, Steps(), m, m);
    var o := EnsureAll(server, s, Steps(), n);
    EnoughLeft(server, o.schema, Steps(), m, m);
    if !o.ended.Stopped? {
      NotStopped(server, s, Steps(), m, n);
    }
    RenameMoves(server, o.schema, OLD);
  }

  lemma RenameMoves(server: Server, s: Schema, from: string)
    requires from in s && TEMP !in s && from == OLD
    ensures var t := Exec(server, s, Rename(from, REAL)); t.Some? ==> from !in t.value && TEMP !in t.value
  {
  }

  /** Unless a table was left behind, a run stopped after any statement and begun again ends with
      the schema and the verdict of an uninterrupted run. */
  lemma StoppedRunResumes(server: Server, s: Schema, n: nat, m: nat)
    requires !LeftBehind(server, s) && ENOUGH <= m
    ensures SameResult(Update(server, Update(server, s, n).schema, m), Update(server, s, m))
  {
    if Upgrades(s) {
      UpgradeResumes(server, s, n, m);
    } else if TEMP in s {
      hide IsOldPluginTable, EnsureAll, Steps;
      if OLD in s && Exec(server, s, Rename(TEMP, REAL)).Some? {
        RenamedVerdict(s, TEMP, REAL, OLD);
      }
    }
  }

  /** With a table left behind, the second run fails although the first one went through. */
  lemma LeftBehindFails(server: Server, s: Schema, n: nat, m: nat)
    requires LeftBehind(server, s) && 1 <= n && ENOUGH <= m
    ensures Update(server, s, m).ended.Done? && Update(server, Update(server, s, n).schema, m).ended.Refused?
  {
    hide IsOldPluginTable, EnsureAll, Steps, KeepsVerdict, SchemaGrows;
    RenamedVerdict(s, TEMP, REAL, OLD);
    var t := Update(server, s, n).schema;
    StepsKeepVerdict();
    EnoughLeft(server, t, Steps(), m, m);
    EnsureAllKeepsVerdict(server, t, Steps(), m);
    assert REAL in t;
  }

  /** A shop on which it happens: the earlier migrations made a fresh table beside an existing one. */
  lemma LeftBehindExample()
    ensures var created := Table([Column("id", "binary")], {}, map[], []);
            var existing := created.(rows := [7]);
            LeftBehind(Server((s, c) => true), map[TEMP := created, OLD := existing])
  {
    var existing := Table([Column("id", "binary")], {}, map[], [7]);
    assert existing.columns[..0] == [];
    assert EXCLUSIVE[0].name !in ColumnMap(existing.columns);
  }

  /** Stopping after any prefix of the statements and running again is the same as one run, and a
      further run changes nothing, exactly if no table was left behind. */
  lemma ResumesExactlyUnlessLeftBehind(server: Server, s: Schema, m: nat)
    requires ENOUGH <= m
    ensures (forall n: nat :: SameResult(Update(server, Update(server, s, n).schema, m), Update(server, s, m)))
            <==> !LeftBehind(server, s)
  {
    hide Update, LeftBehind;
    if LeftBehind(server, s) {
      LeftBehindFails(server, s, 1, m);
    } else {
      forall n: nat ensures SameResult(Update(server, Update(server, s, n).schema, m), Update(server, s, m)) {
        StoppedRunResumes(server, s, n, m);
      }
    }
  }

  // ---------------------------------------------------------------- what is never touched

  /** The same table, up to keys that follow the renamed tables. */
  ghost predicate Untouched(a: Table, b: Table) {
    && a.columns == b.columns && a.indexes == b.indexes && a.rows == b.rows
    && a.foreignKeys.Keys == b.foreignKeys.Keys
    && forall name :: name in a.foreignKeys ==>
         b.foreignKeys[name] == a.foreignKeys[name]
         || (a.foreignKeys[name].refTable in {TEMP, OLD}
             && b.foreignKeys[name] == a.foreignKeys[name].(refTable := REAL))
  }

  /** The tables the migration has no business with: all but the fresh one, the refund table and an
      old one that is not the old plugin's. A table that already has the final name is among them. */
  predicate Foreign(s: Schema, x: string) {
    x in s && x != TEMP && x != REFUND && (x == OLD ==> IsOldPluginTable(s[OLD]))
  }

  lemma EnsureLeavesOthers(server: Server, s: Schema, e: Step, left: nat, x: string)
    requires x in s && x != e.table
    ensures var o := Ensure(server, s, e, left); x in o.schema && o.schema[x] == s[x]
  {
  }

  lemma {:induction false} EnsureAllLeavesOthers(server: Server, s: Schema, steps: seq<Step>, left: nat, x: string)
    requires x in s && forall i :: 0 <= i < |steps| ==> steps[i].table != x
    ensures var o := EnsureAll(server, s, steps, left); x in o.schema && o.schema[x] == s[x]
    decreases |steps|
  {
    hide Ensure;
    if steps != [] {
      EnsureLeavesOthers(server, s, steps[0], left, x);
      var o := Ensure(server, s, steps[0], left);
      if o.ended.Done? {
        EnsureAllLeavesOthers(server, o.schema, steps[1..], o.left, x);
      }
    }
  }

  lemma StepsConcernTwoTables()
    ensures forall i :: 0 <= i < |Steps()| ==> Steps()[i].table == OLD || Steps()[i].table == REFUND
  {
  }

  lemma UpdateLeavesForeign(server: Server, s: Schema, left: nat, x: string)
    requires Foreign(s, x)
    ensures var t := Update(server, s, left).schema; x in t && Untouched(s[x], t[x]) && Foreign(t, x)
  {
    hide IsOldPluginTable, EnsureAll, Steps;
    if Upgrades(s) {
      StepsConcernTwoTables();
      EnsureAllLeavesOthers(server, s, Steps(), left, x);
      var o := EnsureAll(server, s, Steps(), left).schema;
      if OLD in o && REAL !in o {
        RenamedVerdict(o, OLD, REAL, x);
      }
    } else if TEMP in s && REAL !in s {
      RenamedVerdict(s, TEMP, REAL, x);
    }
  }

  /** Runs of the migration one after another, each stopped after some number of statements. */
  function Runs(server: Server, s: Schema, stops: seq<nat>): Schema {
    if stops == [] then s else Update(server, Runs(server, s, stops[..|stops| - 1]), stops[|stops| - 1]).schema
  }

  lemma UntouchedTransitive(a: Table, b: Table, c: Table)
    requires Untouched(a, b) && Untouched(b, c)
    ensures Untouched(a, c)
  {
    forall name | name in a.foreignKeys
      ensures c.foreignKeys[name] == a.foreignKeys[name]
              || (a.foreignKeys[name].refTable in {TEMP, OLD}
                  && c.foreignKeys[name] == a.foreignKeys[name].(refTable := REAL))
    {
      assert name in b.foreignKeys;
    }
  }

  /** No number of runs, however stopped, alters or renames a table of the old plugin, nor any other
      table the migration has no business with. */
  lemma {:induction false} ForeignTablesSurvive(server: Server, s: Schema, stops: seq<nat>, x: string)
    requires Foreign(s, x)
    ensures var t := Runs(server, s, stops); x in t && Untouched(s[x], t[x]) && Foreign(t, x)
  {
    hide Update, Untouched, IsOldPluginTable;
    if stops == [] {
      UntouchedReflexive(s[x]);
    } else {
      var t := Runs(server, s, stops[..|stops| - 1]);
      ForeignTablesSurvive(server, s, stops[..|stops| - 1], x);
      UpdateLeavesForeign(server, t, stops[|stops| - 1], x);
      UntouchedTransitive(s[x], t[x], Runs(server, s, stops)[x]);
    }
  }

  lemma UntouchedReflexive(a: Table)
    ensures Untouched(a, a)
  {
  }

  /** The rows of a table are under its name, or under the final name once it was renamed. */
  ghost predicate RowsKept(s: Schema, t: Schema, x: string)
    requires x in s
  {
    if x in t then t[x].rows == s[x].rows
    else (x == TEMP || x == OLD) && REAL in t && t[REAL].rows == s[x].rows
  }

  lemma UpdateKeepsRows(server: Server, s: Schema, left: nat, x: string)
    requires x in s
    ensures var t := Update(server, s, left).schema;
            RowsKept(s, t, x) && forall y :: y in t ==> y in s || y == REAL
  {
    hide IsOldPluginTable, EnsureAll, Steps, ColumnMap;
    if Upgrades(s) {
      EnsureAllGrows(server, s, Steps(), left);
      var o := EnsureAll(server, s, Steps(), left).schema;
      assert Grows(s[x], o[x]);
    }
  }

  /** No number of runs, however stopped, loses the rows of any table. */
  lemma {:induction false} RowsSurvive(server: Server, s: Schema, stops: seq<nat>, x: string)
    requires x in s
    ensures RowsKept(s, Runs(server, s, stops), x)
  {
    hide Update;
    if stops != [] {
      var t := Runs(server, s, stops[..|stops| - 1]);
      RowsSurvive(server, s, stops[..|stops| - 1], x);
      UpdateKeepsRows(server, t, stops[|stops| - 1], if x in t then x else REAL);
    }
  }
}
