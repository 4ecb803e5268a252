/** The repository's transactions: each is applied whole or, failing, not at all. */
module Repositories {
  import opened Model
  import opened Storage

  class Repository {
    var tables: Tables

    constructor (tables: Tables)
      ensures this.tables == Migrate(tables)
    {
      this.tables := Migrate(tables);
    }

    /** INSERT INTO allocations, subject to the primary key and the unique index. */
    method InsertAllocation(a: Allocation, fails: bool) returns (r: Result<(), RepositoryError>)
      modifies this
      ensures r.Ok? == (!fails && a.id !in old(tables.allocations)
                        && !IndexTaken(old(tables), AsStr(a.protocol), a.port as int))
      ensures r.Err? ==> tables == old(tables)
      ensures r.Ok? ==> tables == old(tables).(allocations := old(tables.allocations)[a.id := RowOf(a)])
    {
      if fails || a.id in tables.allocations || IndexTaken(tables, AsStr(a.protocol), a.port as int) {
        return Err(Database);
      }
      tables := tables.(allocations := tables.allocations[a.id := RowOf(a)]);
      r := Ok(());
    }

    /** The two inserts of a created allocation that already has a target port. */
    method InsertWithBinding(a: Allocation, b: Binding, fails: bool) returns (r: Result<(), RepositoryError>)
      modifies this
      ensures r.Ok? == (!fails && a.id !in old(tables.allocations) && a.id !in old(tables.bindings)
                        && !IndexTaken(old(tables), AsStr(a.protocol), a.port as int))
      ensures r.Err? ==> tables == old(tables)
      ensures r.Ok? ==> tables == Tables(
                old(tables.allocations)[
                  a.id := AllocationRow(AsStr(a.protocol), a.port as int, b.targetPort as int, b.host,
                                        a.createdAtMs, b.updatedAtMs)],
                old(tables.bindings)[a.id := BindingRowOf(b)])
    {
      if fails || a.id in tables.allocations || a.id in tables.bindings
         || IndexTaken(tables, AsStr(a.protocol), a.port as int) {
        return Err(Database);
      }
      var row := AllocationRow(AsStr(a.protocol), a.port as int, b.targetPort as int, b.host, a.createdAtMs,
                               b.updatedAtMs);
      tables := Tables(tables.allocations[a.id := row], tables.bindings[a.id := BindingRowOf(b)]);
      r := Ok(());
    }

    /** Upsert the binding, keeping its creation time, and mirror it into the allocation's legacy columns. */
    method PutBinding(b: Binding, fails: bool) returns (r: Result<(), RepositoryError>)
      modifies this
      ensures r == if fails then Err(Database) else Ok(())
      ensures r.Err? ==> tables == old(tables)
      ensures r.Ok? ==>
                var id := b.allocationId;
                var created :=
                  if id in old(tables.bindings) then old(tables.bindings)[id].createdAtMs else b.createdAtMs;
                && tables.bindings == old(tables.bindings)[id := BindingRowOf(b).(createdAtMs := created)]
                && tables.allocations.Keys == old(tables.allocations).Keys
                && (forall other :: other in tables.allocations && other != id ==>
                      tables.allocations[other] == old(tables.allocations)[other])
                && (id in tables.allocations ==>
                      tables.allocations[id] == old(tables.allocations)[id].(
                        targetPort := b.targetPort as int, host := b.host, updatedAtMs := b.updatedAtMs))
    {
      if fails {
        return Err(Database);
      }
      var id := b.allocationId;
      var row := BindingRowOf(b);
      if id in tables.bindings {
        row := tables.bindings[id].(targetPort := row.targetPort, host := row.host, updatedAtMs := row.updatedAtMs);
      }
      tables := tables.(bindings := tables.bindings[id := row]);
      if id in tables.allocations {
        tables := tables.(allocations := tables.allocations[id := tables.allocations[id].(
          targetPort := b.targetPort as int, host := b.host, updatedAtMs := b.updatedAtMs)]);
      }
      r := Ok(());
    }

    /** Delete the binding and clear the mirrored columns; false when there was none. */
    method DeleteBinding(id: string, updatedAtMs: int, fails: bool) returns (r: Result<bool, RepositoryError>)
      modifies this
      ensures r == if fails then Err(Database) else Ok(id in old(tables.bindings))
      ensures r.Err? || !r.value ==> tables == old(tables)
      ensures r.Ok? && r.value ==>
                && tables.bindings == old(tables.bindings) - {id}
                && tables.allocations.Keys == old(tables.allocations).Keys
                && (forall other :: other in tables.allocations && other != id ==>
                      tables.allocations[other] == old(tables.allocations)[other])
                && (id in tables.allocations ==>
                      tables.allocations[id] == old(tables.allocations)[id].(
                        targetPort := 0, host := None, updatedAtMs := updatedAtMs))
    {
      if fails {
        return Err(Database);
      }
      var changed := id in tables.bindings;
      if changed {
        tables := tables.(bindings := tables.bindings - {id});
        if id in tables.allocations {
          tables := tables.(allocations := tables.allocations[id := tables.allocations[id].(
            targetPort := 0, host := None, updatedAtMs := updatedAtMs)]);
        }
      }
      r := Ok(changed);
    }

    /** Delete both rows; false when there was no allocation. */
    method DeleteAllocation(id: string, fails: bool) returns (r: Result<bool, RepositoryError>)
      modifies this
      ensures r == if fails then Err(Database) else Ok(id in old(tables.allocations))
      ensures r.Err? ==> tables == old(tables)
      ensures r.Ok? ==> tables == Tables(old(tables.allocations) - {id}, old(tables.bindings) - {id})
    {
      if fails {
        return Err(Database);
      }
      var changed := id in tables.allocations;
      tables := Tables(tables.allocations - {id}, tables.bindings - {id});
      r := Ok(changed);
    }

    /** Every row, each once, in whatever order the tables yield them; one unreadable row fails the listing. */
    method ListAllocations(fails: bool) returns (r: Result<seq<Allocation>, RepositoryError>)
      ensures r.Ok? <==> !fails && forall id :: id in tables.allocations ==> GetAllocation(tables, id).Ok?
      ensures r.Ok? ==> forall a :: a in r.value <==> Hydrated(tables, a.id) == Some(a)
    {
      if fails {
        return Err(Database);
      }
      var list: seq<Allocation> := [];
      var rest := tables.allocations.Keys;
      while rest != {}
        invariant rest <= tables.allocations.Keys
        invariant forall id :: id in tables.allocations && id !in rest ==> GetAllocation(tables, id).Ok?
        invariant forall a :: a in list <==> a.id !in rest && Hydrated(tables, a.id) == Some(a)
        decreases rest
      {
        var id :| id in rest;
        ReadingsAgree(tables, id);
        match ListedRow(tables, id) {
          case Err(e) => return Err(e);
          case Ok(a) => list := list + [a];
        }
        rest := rest - {id};
      }
      r := Ok(list);
    }
  }

  /** Some row already has this protocol text and port. */
  predicate IndexTaken(t: Tables, text: string, port: int) {
    exists id :: id in t.allocations && t.allocations[id].protocol == text && t.allocations[id].port == port
  }

  function RowOf(a: Allocation): AllocationRow {
    AllocationRow(AsStr(a.protocol), a.port as int, if a.targetPort.Some? then a.targetPort.value as int else 0,
                  a.host, a.createdAtMs, a.updatedAtMs)
  }

  function BindingRowOf(b: Binding): BindingRow {
    BindingRow(b.targetPort as int, b.host, b.createdAtMs, b.updatedAtMs)
  }
}
