/** A table of the SQLite store whose key is `id INTEGER PRIMARY KEY AUTOINCREMENT`:
    the rows by id, and the id the next INSERT without an explicit id receives
    (one more than the largest id the table has ever held). */
module Tables {

  datatype Table<R> = Table(rows: map<int, R>, next: int) {

    /** Ids are positive, and every id in use lies below the next one to hand out. */
    ghost predicate Valid() {
      1 <= next && forall id :: id in rows ==> 1 <= id < next
    }

    /** `INSERT INTO t (...) VALUES (...)`: the row receives an id no row holds,
        every other row keeps its id and contents, and the table grows by one. */
    function Insert(row: R): (t: Table<R>)
      requires Valid()
      ensures t.Valid()
      ensures next !in rows && next in t.rows && t.rows[next] == row
      ensures t.rows.Keys == rows.Keys + {next}
      ensures forall id :: id in rows ==> t.rows[id] == rows[id]
      ensures t.next == next + 1
    {
      Table(rows[next := row], next + 1)
    }

    /** `DELETE FROM t WHERE id=?`: exactly that row is gone (if it was there);
        the other rows and the id counter are untouched. */
    function Delete(id: int): (t: Table<R>)
      ensures Valid() ==> t.Valid()
      ensures id !in t.rows && t.rows.Keys == rows.Keys - {id}
      ensures forall k :: k in t.rows ==> t.rows[k] == rows[k]
      ensures t.next == next
    {
      Table(rows - {id}, next)
    }

    /** `UPDATE t SET ... WHERE id=?` on a row that exists: only that row changes. */
    function Replace(id: int, row: R): (t: Table<R>)
      requires id in rows
      ensures Valid() ==> t.Valid()
      ensures t.rows.Keys == rows.Keys && t.rows[id] == row
      ensures forall k :: k in rows && k != id ==> t.rows[k] == rows[k]
      ensures t.next == next
    {
      Table(rows[id := row], next)
    }
  }
}
