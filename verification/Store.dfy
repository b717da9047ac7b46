/**
 * The projection database: four tables with their keys, one committed snapshot and at most one open
 * transaction. Any statement may fail for reasons of its own; `faults` says which ones do.
 */
module Store {
  import opened Wrappers
  import opened Projector

  datatype EntityNode = EntityNode(id: string, title: string, aliases: Option<seq<string>>, sourceRef: string)

  datatype TaskRow = TaskRow(id: string, title: string, status: string, sourceRef: string, updatedAt: Option<string>)

  /** The columns of the unique index on the edge table. */
  datatype EdgeKey = EdgeKey(from: string, to: string, kind: string)

  datatype Tables = Tables(
    facts: map<string, Fact>,
    nodes: map<string, EntityNode>,
    edges: map<EdgeKey, string>,
    tasks: map<string, TaskRow>)

  const NO_ROWS := Tables(map[], map[], map[], map[])

  class ProjectionStore {
    const faults: nat -> bool
    var statements: nat
    var committed: Tables
    var work: Option<Tables>

    constructor (tables: Tables, faults: nat -> bool)
      ensures committed == tables && work.None? && this.faults == faults && statements == 0
    {
      this.faults := faults;
      committed, work, statements := tables, None, 0;
    }

    /** The tables as this connection sees them. */
    function Visible(): Tables
      reads this
    {
      work.GetOr(committed)
    }

    /** Some statement issued since the count was `before` has failed. */
    ghost predicate FaultSince(before: nat)
      reads this
    {
      exists n :: before <= n < statements && faults(n)
    }

    twostate predicate SameSnapshot()
      reads this
    {
      && old(statements) <= statements
      && (old(work.Some?) ==> work.Some? && committed == old(committed))
      && (old(work.None?) ==> work.None?)
    }

    method Exec(tables: Tables) returns (ok: bool)
      modifies this
      ensures SameSnapshot() && statements == old(statements) + 1
      ensures ok <==> !faults(old(statements))
      ensures Visible() == if ok then tables else old(Visible())
      ensures !ok ==> FaultSince(old(statements))
    {
      ok := !faults(statements);
      statements := statements + 1;
      if ok {
        if work.Some? { work := Some(tables); } else { committed := tables; }
      }
    }

    method BeginImmediate() returns (ok: bool)
      requires work.None?
      modifies this
      ensures committed == old(committed) && statements == old(statements) + 1
      ensures work == if ok then Some(committed) else None
      ensures !ok ==> FaultSince(old(statements))
    {
      ok := !faults(statements);
      statements := statements + 1;
      if ok { work := Some(committed); }
    }

    method Commit() returns (ok: bool)
      requires work.Some?
      modifies this
      ensures statements == old(statements) + 1
      ensures if ok then committed == old(work.value) && work.None? else committed == old(committed) && work == old(work)
      ensures !ok ==> FaultSince(old(statements))
    {
      ok := !faults(statements);
      statements := statements + 1;
      if ok { committed, work := work.value, None; }
    }

    /** A failing rollback is swallowed by the caller. */
    method Rollback()
      modifies this
      ensures committed == old(committed) && statements == old(statements) + 1
    {
      if !faults(statements) { work := None; }
      statements := statements + 1;
    }

    /** Closing the connection discards a transaction still open. */
    method Close()
      modifies this
      ensures committed == old(committed) && work.None? && statements == old(statements)
    {
      work := None;
    }

    /** The only way a fact row is written; the primary key makes a second row with the same id fail. */
    method InsertFact(f: Fact) returns (ok: bool)
      modifies this
      ensures SameSnapshot()
      ensures Visible() == if ok then old(Visible()).(facts := old(Visible()).facts[f.id := f]) else old(Visible())
      ensures ok ==> f.id !in old(Visible()).facts
      ensures !ok ==> FaultSince(old(statements)) || f.id in old(Visible()).facts
    {
      if f.id in Visible().facts {
        return false;
      }
      ok := Exec(Visible().(facts := Visible().facts[f.id := f]));
    }

    method InsertEntityEdge(key: EdgeKey, sourceRef: string) returns (ok: bool)
      modifies this
      ensures SameSnapshot()
      ensures Visible() == if ok then old(Visible()).(edges := old(Visible()).edges[key := sourceRef]) else old(Visible())
      ensures ok ==> key !in old(Visible()).edges
      ensures !ok ==> FaultSince(old(statements)) || key in old(Visible()).edges
    {
      if key in Visible().edges {
        return false;
      }
      ok := Exec(Visible().(edges := Visible().edges[key := sourceRef]));
    }

    /** INSERT OR REPLACE. */
    method InsertEntityNode(node: EntityNode) returns (ok: bool)
      modifies this
      ensures SameSnapshot()
      ensures Visible() == if ok then old(Visible()).(nodes := old(Visible()).nodes[node.id := node]) else old(Visible())
      ensures !ok ==> FaultSince(old(statements))
    {
      ok := Exec(Visible().(nodes := Visible().nodes[node.id := node]));
    }

    /** INSERT OR REPLACE. */
    method InsertTask(task: TaskRow) returns (ok: bool)
      modifies this
      ensures SameSnapshot()
      ensures Visible() == if ok then old(Visible()).(tasks := old(Visible()).tasks[task.id := task]) else old(Visible())
      ensures !ok ==> FaultSince(old(statements))
    {
      ok := Exec(Visible().(tasks := Visible().tasks[task.id := task]));
    }
  }
}
