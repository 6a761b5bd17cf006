/**
 The database the resource managers share. Each storage call may fail; a failed call changes nothing.
 The trail keeps the tables as every write left them, so that claims can be made about all states
 reached on the way and not only about the last one.
 */
module ClusterStore {
  import opened ClusterTables
  import Fresh

  class Store {
    var clusters: set<ClusterId>
    var rows: Db
    /** Ids of rows that were deleted; none is given out again. */
    var gone: set<RowId>
    ghost var faults: nat
    ghost var trail: seq<Db>

    constructor (clusters: set<ClusterId>, rows: Db)
      ensures this.clusters == clusters && this.rows == rows && gone == {} && faults == 0 && trail == []
    {
      this.clusters, this.rows, this.gone, this.faults, this.trail := clusters, rows, {}, 0, [];
    }

    /** A query, or a remote call, either answers or fails. */
    method Query() returns (ok: bool)
      modifies this`faults
      ensures if ok then faults == old(faults) else faults > old(faults)
    {
      if * {
        return true;
      }
      faults := faults + 1;
      return false;
    }

    method Delete(id: RowId) returns (ok: bool)
      requires id in rows
      modifies this`rows, this`gone, this`faults, this`trail
      ensures if ok then rows == old(rows) - {id} && faults == old(faults) && trail == old(trail) + [rows]
              else rows == old(rows) && faults > old(faults) && trail == old(trail)
      ensures gone == if ok then old(gone) + {id} else old(gone)
    {
      ok := Query();
      if ok {
        rows := rows - {id};
        gone := gone + {id};
        trail := trail + [rows];
      }
    }

    method Save(id: RowId, row: Row) returns (ok: bool)
      requires id in rows
      modifies this`rows, this`faults, this`trail
      ensures if ok then rows == old(rows)[id := row] && faults == old(faults) && trail == old(trail) + [rows]
              else rows == old(rows) && faults > old(faults) && trail == old(trail)
    {
      ok := Query();
      if ok {
        rows := rows[id := row];
        trail := trail + [rows];
      }
    }

    /** The new id is any id no row has or had. */
    method Insert(row: Row) returns (id: RowId, ok: bool)
      modifies this`rows, this`faults, this`trail
      ensures id !in old(rows) && id !in gone
      ensures if ok then rows == old(rows)[id := row] && faults == old(faults) && trail == old(trail) + [rows]
              else rows == old(rows) && faults > old(faults) && trail == old(trail)
    {
      ghost var unused := Fresh.Unused(rows.Keys + gone);
      assert unused !in rows && unused !in gone;
      id :| id !in rows && id !in gone;
      ok := Query();
      if ok {
        rows := rows[id := row];
        trail := trail + [rows];
      }
    }
  }
}
