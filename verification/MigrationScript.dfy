/** The migration as it is carried out: checks and statements on a connection whose process may stop
    before any statement. Every method does what its specification on schemas says. */
module MigrationScript {
  import opened Optional
  import opened Migration

  class Connection {
    const server: Server
    var schema: Schema
    /** How many more statements are executed. */
    var left: nat

    constructor (server: Server, schema: Schema, left: nat)
      ensures this.server == server && this.schema == schema && this.left == left
    {
      this.server, this.schema, this.left := server, schema, left;
    }

    method ExecuteStatement(c: Statement) returns (ended: Ended)
      modifies this
      ensures Outcome(schema, ended, left) == Execute(server, old(schema), c, old(left))
    {
      if left == 0 {
        return Stopped;
      }
      left := left - 1;
      var t := Exec(server, schema, c);
      if t == None {
        return Refused;
      }
      schema := t.value;
      return Done;
    }

    predicate TableExists(table: string)
      reads this
    {
      table in schema
    }

    predicate ColumnExists(table: string, column: string)
      reads this
    {
      table in schema && column in Names(schema[table])
    }

    predicate IndexExists(table: string, index: string)
      reads this
    {
      table in schema && index in schema[table].indexes
    }

    predicate ForeignKeyExists(table: string, name: string)
      reads this
    {
      table in schema && name in schema[table].foreignKeys
    }
  }

  class TransactionMigration {
    constructor () {
    }

    method IsOldPluginTable(connection: Connection, table: string) returns (r: bool)
      requires connection.TableExists(table)
      ensures r <==> Migration.IsOldPluginTable(connection.schema[table])
    {
      var resultColumns := connection.schema[table].columns;
      var dbColumns: map<string, string> := map[];
      for i := 0 to |resultColumns|
        invariant dbColumns == ColumnMap(resultColumns[..i])
      {
        assert resultColumns[..i + 1][..i] == resultColumns[..i];
        dbColumns := dbColumns[resultColumns[i].name := resultColumns[i].dataType];
      }
      assert resultColumns[..|resultColumns|] == resultColumns;
      r := true;
      for i := 0 to |EXCLUSIVE|
        invariant r
        invariant forall k :: 0 <= k < i ==>
            EXCLUSIVE[k].name in dbColumns && dbColumns[EXCLUSIVE[k].name] == EXCLUSIVE[k].dataType
      {
        if EXCLUSIVE[i].name !in dbColumns {
          r := false;
          break;
        }
        if dbColumns[EXCLUSIVE[i].name] != EXCLUSIVE[i].dataType {
          r := false;
          break;
        }
      }
    }

    method AddColumnIfMissing(connection: Connection, table: string, column: Column, place: Place)
            returns (ended: Ended)
      modifies connection
      ensures Outcome(connection.schema, ended, connection.left)
              == Ensure(connection.server, old(connection.schema), EnsureColumn(table, column, place),
                  old(connection.left))
    {
      if connection.ColumnExists(table, column.name) {
        return Done;
      }
      ended := connection.ExecuteStatement(AddColumn(table, column, place));
    }

    method EnsureIndexBySql(connection: Connection, table: string, index: string) returns (ended: Ended)
      modifies connection
      ensures Outcome(connection.schema, ended, connection.left)
              == Ensure(connection.server, old(connection.schema), EnsureIndex(table, index), old(connection.left))
    {
      if connection.IndexExists(table, index) {
        return Done;
      }
      ended := connection.ExecuteStatement(AddIndex(table, index));
    }

    method EnsureTheForeignKey(connection: Connection, table: string, name: string, key: ForeignKey)
            returns (ended: Ended)
      modifies connection
      ensures Outcome(connection.schema, ended, connection.left)
              == Ensure(connection.server, old(connection.schema), EnsureForeignKey(table, name, key),
                  old(connection.left))
    {
      if connection.ForeignKeyExists(table, name) {
        return Done;
      }
      ended := connection.ExecuteStatement(AddForeignKeys(table, map[name := key]));
    }

    method EnsureStep(connection: Connection, e: Step) returns (ended: Ended)
      modifies connection
      ensures Outcome(connection.schema, ended, connection.left)
              == Ensure(connection.server, old(connection.schema), e, old(connection.left))
    {
      match e
      case EnsureColumn(table, column, place) => ended := AddColumnIfMissing(connection, table, column, place);
      case EnsureIndex(table, index) => ended := EnsureIndexBySql(connection, table, index);
      case EnsureForeignKey(table, name, key) => ended := EnsureTheForeignKey(connection, table, name, key);
    }

    /** One step after the other; an exception ends the sequence. */
    method Sync(connection: Connection, steps: seq<Step>) returns (ended: Ended)
      modifies connection
      ensures Outcome(connection.schema, ended, connection.left)
              == EnsureAll(connection.server, old(connection.schema), steps, old(connection.left))
    {
      hide Ensure;
      ended := Done;
      for i := 0 to |steps|
        invariant ended == Done
        invariant EnsureAll(connection.server, connection.schema, steps[i..], connection.left)
                  == EnsureAll(connection.server, old(connection.schema), steps, old(connection.left))
      {
        ended := EnsureStep(connection, steps[i]);
        if ended != Done {
          return;
        }
        assert steps[i..][1..] == steps[i + 1..];
      }
    }

    method SyncTransactionTable(connection: Connection, table: string) returns (ended: Ended)
      modifies connection
      ensures Outcome(connection.schema, ended, connection.left)
              == EnsureAll(connection.server, old(connection.schema), TransactionSteps(table), old(connection.left))
    {
      ended := Sync(connection, TransactionSteps(table));
    }

    method SyncRefundTable(connection: Connection, table: string) returns (ended: Ended)
      modifies connection
      ensures Outcome(connection.schema, ended, connection.left)
              == EnsureAll(connection.server, old(connection.schema), RefundSteps(table), old(connection.left))
    {
      ended := Sync(connection, RefundSteps(table));
    }

    method Update(connection: Connection) returns (ended: Ended)
      modifies connection
      ensures Outcome(connection.schema, ended, connection.left)
              == Migration.Update(connection.server, old(connection.schema), old(connection.left))
    {
      hide EnsureAll, TransactionSteps, RefundSteps, Migration.IsOldPluginTable;
      if connection.TableExists(TEMP) {
        ended := connection.ExecuteStatement(Rename(TEMP, REAL));
        return;
      }
      ended := Done;
      if connection.TableExists(OLD) {
        var oldPlugin := IsOldPluginTable(connection, OLD);
        if !oldPlugin {
          EnsureAllInParts(connection.server, connection.schema, TransactionSteps(OLD), RefundSteps(OLD),
              connection.left);
          ended := SyncTransactionTable(connection, OLD);
          if ended != Done {
            return;
          }
          ended := SyncRefundTable(connection, OLD);
          if ended != Done {
            return;
          }
          ended := connection.ExecuteStatement(Rename(OLD, REAL));
        }
      }
    }
  }

  /** Steps one after the other. */
  lemma {:induction false} EnsureAllInParts(server: Server, s: Schema, a: seq<Step>, b: seq<Step>, left: nat)
    ensures var o := EnsureAll(server, s, a, left);
            EnsureAll(server, s, a + b, left) == if o.ended.Done? then EnsureAll(server, o.schema, b, o.left) else o
    decreases |a|
  {
    hide Ensure;
    if a == [] {
      assert a + b == b;
    } else {
      assert (a + b)[1..] == a[1..] + b;
      var o := Ensure(server, s, a[0], left);
      if o.ended.Done? {
        EnsureAllInParts(server, o.schema, a[1..], b, o.left);
      }
    }
  }
}
