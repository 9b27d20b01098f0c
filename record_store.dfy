/**
 * The Prisma tables `membershipApplication` and `feedback`, seen through the calls the handlers
 * make on them: `findMany` ordered by an instant, `create`, `update` of `status`, and `delete`.
 * Each table is a `Table` object holding a map from id to row.
 */
module RecordStore {
  import opened Wrappers
  import opened Sorting

  /**
   * A row: its id, its `status`, the instant it is listed by (`submittedAt` of an application,
   * `createdAt` of a feedback item, in epoch milliseconds) and its other columns.
   */
  datatype Row<F> = Row(id: string, status: string, stamp: int, fields: F)

  /** Rows are stored under their own id. */
  ghost predicate KeyedById<F>(rows: map<string, Row<F>>) {
    forall k :: k in rows ==> rows[k].id == k
  }

  /**
   * What `findMany({ orderBy: { <instant>: 'desc' } })` may return: every stored row exactly
   * once, newest first. Rows with equal instants may come in either order.
   */
  ghost predicate NewestFirstListing<F>(list: seq<Row<F>>, rows: map<string, Row<F>>) {
    && NewestFirst(list, (r: Row<F>) => r.stamp)
    && multiset(list) == multiset(rows.Values)
  }

  /** A table keyed by id has as many distinct rows as ids. */
  lemma {:induction false} ValuesOfKeyedRows<F>(rows: map<string, Row<F>>)
    requires KeyedById(rows)
    ensures |rows.Values| == |rows|
    decreases |rows|
  {
    if rows != map[] {
      var k :| k in rows;
      var rest := rows - {k};
      assert KeyedById(rest);
      ValuesOfKeyedRows(rest);
      forall v | v in rows.Values
        ensures v in rest.Values + {rows[k]}
      {
        var k' :| k' in rows && rows[k'] == v;
        if k' != k {
          assert rest[k'] == v;
        }
      }
      forall v | v in rest.Values
        ensures v in rows.Values
      {
        var k' :| k' in rest && rest[k'] == v;
        assert rows[k'] == v;
      }
      assert rows.Values == rest.Values + {rows[k]};
      assert rows[k] !in rest.Values;
      assert rows.Keys == rest.Keys + {k};
    }
  }

  /**
   * A listing of a table keyed by id holds each stored row exactly once, and nothing else: it
   * is as long as the table, every entry is the row stored under its id, and every stored row
   * appears.
   */
  lemma ListingHasEveryRowOnce<F>(list: seq<Row<F>>, rows: map<string, Row<F>>)
    requires KeyedById(rows) && NewestFirstListing(list, rows)
    ensures |list| == |rows|
    ensures forall i :: 0 <= i < |list| ==> list[i].id in rows && rows[list[i].id] == list[i]
    ensures forall k :: k in rows ==> rows[k] in list
  {
    ValuesOfKeyedRows(rows);
    assert |multiset(list)| == |list|;
    assert |multiset(rows.Values)| == |rows.Values|;
    forall i | 0 <= i < |list|
      ensures list[i].id in rows && rows[list[i].id] == list[i]
    {
      assert list[i] in multiset(list);
      assert list[i] in rows.Values;
    }
    forall k | k in rows
      ensures rows[k] in list
    {
      assert rows[k] in rows.Values;
      assert rows[k] in multiset(rows.Values);
    }
  }

  /** A Prisma table. When `online` is false every call throws; `queries` counts the calls made. */
  class Table<F(==)> {
    var rows: map<string, Row<F>>
    var online: bool
    ghost var queries: nat

    ghost predicate Valid()
      reads this
    {
      KeyedById(rows)
    }

    constructor (initial: map<string, Row<F>>, reachable: bool)
      requires KeyedById(initial)
      ensures Valid() && rows == initial && online == reachable && queries == 0
    {
      rows := initial;
      online := reachable;
      queries := 0;
    }

    /** `findMany({ orderBy: { <instant>: 'desc' } })`: the rows are collected, then sorted newest first. */
    method FindManyNewestFirst() returns (list: seq<Row<F>>, fault: bool)
      requires Valid()
      modifies this`queries
      ensures queries == old(queries) + 1
      ensures fault == !online
      ensures !fault ==> NewestFirstListing(list, rows)
    {
      queries := queries + 1;
      fault := !online;
      list := [];
      if fault {
        return;
      }
      var left := rows.Values;
      while left != {}
        invariant left <= rows.Values
        invariant multiset(list) + multiset(left) == multiset(rows.Values)
        decreases |left|
      {
        var r :| r in left;
        list := list + [r];
        left := left - {r};
      }
      var collected := list;
      var a := new Row<F>[|collected|](i requires 0 <= i < |collected| => collected[i]);
      assert a[..] == collected;
      SortNewestFirst(a, (r: Row<F>) => r.stamp);
      list := a[..];
    }

    /** `create({ data })`: stores `row` under its id; a taken id violates the primary key and throws. */
    method Create(row: Row<F>) returns (fault: bool)
      requires Valid()
      modifies this
      ensures Valid() && online == old(online) && queries == old(queries) + 1
      ensures fault == (!old(online) || row.id in old(rows))
      ensures rows == if fault then old(rows) else old(rows)[row.id := row]
    {
      queries := queries + 1;
      fault := !online || row.id in rows;
      if !fault {
        rows := rows[row.id := row];
      }
    }

    /** `update({ where: { id }, data: { status } })`: returns the updated row; an unknown id throws. */
    method UpdateStatus(id: string, status: string) returns (updated: Option<Row<F>>)
      requires Valid()
      modifies this
      ensures Valid() && online == old(online) && queries == old(queries) + 1
      ensures updated.None? <==> !old(online) || id !in old(rows)
      ensures updated.None? ==> rows == old(rows)
      ensures updated.Some? ==>
        updated.value == old(rows)[id].(status := status) && rows == old(rows)[id := updated.value]
    {
      queries := queries + 1;
      updated := None;
      if online && id in rows {
        updated := Some(rows[id].(status := status));
        rows := rows[id := updated.value];
      }
    }

    /** `delete({ where: { id } })`: an unknown id throws. */
    method Delete(id: string) returns (fault: bool)
      requires Valid()
      modifies this
      ensures Valid() && online == old(online) && queries == old(queries) + 1
      ensures fault == (!old(online) || id !in old(rows))
      ensures rows == if fault then old(rows) else old(rows) - {id}
    {
      queries := queries + 1;
      fault := !online || id !in rows;
      if !fault {
        rows := rows - {id};
      }
    }
  }
}
