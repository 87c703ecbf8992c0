/**
 The manifest table of src/fastrag/registry.py: each SQL transaction as a function from table to
 table (or a refusal that changes nothing), and the object that runs them in place.
 */
module IndexRegistry {
  import opened Common

  datatype Chunk = Chunk(id: string, payload: string)

  datatype RowState = Building | Validated | Active | Retired | Failed

  /** One manifest row. `chunks` is what the build was given; the table itself stores their count. */
  datatype Row = Row(collection: string, content: string, chunks: seq<Chunk>, state: RowState)

  type Rows = map<string, Row>

  /** The partial unique index one_active_index. */
  ghost predicate OneActive(rows: Rows) {
    forall a, b | a in rows && b in rows && rows[a].state.Active? && rows[b].state.Active? :: a == b
  }

  /** INSERT ... ON CONFLICT (index_version) DO UPDATE. */
  function Register(rows: Rows, version: string, row: Row): Rows {
    rows[version := row]
  }

  /** UPDATE ... WHERE index_version=...; refused when no row matches. */
  function SetState(rows: Rows, version: string, state: RowState): Option<Rows> {
    if version in rows then Some(rows[version := rows[version].(state := state)]) else None
  }

  function RetireActive(rows: Rows): (r: Rows)
    ensures r.Keys == rows.Keys
  {
    map v | v in rows :: if rows[v].state.Active? then rows[v].(state := Retired) else rows[v]
  }

  /** Retire the active row and activate a validated one, or refuse and roll both updates back. */
  function Activate(rows: Rows, version: string): Option<Rows> {
    if version in rows && rows[version].state.Validated? then
      Some(RetireActive(rows)[version := rows[version].(state := Active)])
    else None
  }

  /** Activation succeeds exactly for a validated row, which is then the one active row; every other
      row keeps its state, except that an active one is retired. */
  lemma ActivateExact(rows: Rows, version: string)
    ensures Activate(rows, version).Some? <==> version in rows && rows[version].state.Validated?
    ensures Activate(rows, version).Some? ==>
      var r := Activate(rows, version).value;
      && r.Keys == rows.Keys && OneActive(r)
      && (forall v | v in r :: r[v].state.Active? <==> v == version)
      && (forall v | v in r :: r[v].(state := Building) == rows[v].(state := Building))
      && (forall v | v in r && v != version :: r[v].state == if rows[v].state.Active? then Retired else rows[v].state)
  {
    if Activate(rows, version).Some? {
      assert version in RetireActive(rows).Keys;
    }
  }

  /** Registering and every state change other than activation keep at most one active row. */
  lemma OthersKeepOneActive(rows: Rows, version: string, row: Row, state: RowState)
    requires OneActive(rows) && !row.state.Active? && !state.Active?
    ensures OneActive(Register(rows, version, row))
    ensures SetState(rows, version, state).Some? ==> OneActive(SetState(rows, version, state).value)
  {
  }

  datatype ActiveIndex = ActiveIndex(content: string, collection: string)

  class PostgresIndexRegistry {
    var rows: Rows

    constructor (rows: Rows)
      ensures this.rows == rows
    {
      this.rows := rows;
    }

    method RegisterSync(version: string, row: Row)
      modifies this
      ensures rows == Register(old(rows), version, row)
    {
      rows := rows[version := row];
    }

    method SetStateSync(version: string, state: RowState) returns (ok: bool)
      modifies this
      ensures ok == SetState(old(rows), version, state).Some?
      ensures rows == if ok then SetState(old(rows), version, state).value else old(rows)
    {
      ok := version in rows;
      if ok {
        rows := rows[version := rows[version].(state := state)];
      }
    }

    /** Two updates in one transaction: the second must touch exactly one row, or both roll back. */
    method ActivateSync(version: string) returns (ok: bool)
      modifies this
      ensures ok == Activate(old(rows), version).Some?
      ensures rows == if ok then Activate(old(rows), version).value else old(rows)
    {
      var snapshot := rows;
      rows := map v | v in rows :: if rows[v].state.Active? then rows[v].(state := Retired) else rows[v];
      var rowcount := 0;
      if version in rows && rows[version].state.Validated? {
        rows := rows[version := rows[version].(state := Active)];
        rowcount := 1;
      }
      if rowcount != 1 {
        rows := snapshot;
        return false;
      }
      return true;
    }

    /** What queries read: the one active row, if there is one. */
    method ActiveSnapshot() returns (r: Option<ActiveIndex>)
      requires OneActive(rows)
      ensures r.None? <==> forall v | v in rows :: !rows[v].state.Active?
      ensures r.Some? ==> forall v | v in rows && rows[v].state.Active? ::
                r.value == ActiveIndex(rows[v].content, rows[v].collection)
    {
      var active := set v | v in rows && rows[v].state.Active?;
      if active == {} {
        assert forall v | v in rows :: rows[v].state.Active? ==> v in active;
        return None;
      }
      var v :| v in active;
      return Some(ActiveIndex(rows[v].content, rows[v].collection));
    }
  }
}
