/**
  Vocabulary shared by every component: identifiers, optional values, rows with
  database-issued ids, and filtering of ordered tables.
 */
module Base {

  /** UUIDs. Only equality and the order used by ORDER BY matter. */
  type Uid = nat
  type Gid = nat

  datatype Option<+T> = None | Some(value: T)

  datatype Result<+T> = Ok(value: T) | Err

  /** A row of a table with a BIGSERIAL key and a UNIQUE, nullable client_msg_id. */
  datatype Row<+B> = Row(id: nat, clientId: Option<string>, body: B)

  /** The rows in insertion order, and the next value of the id sequence. */
  datatype Table<+B> = Table(rows: seq<Row<B>>, next: nat)

  ghost predicate Ascending<B(!new)>(rows: seq<Row<B>>) {
    forall i, j :: 0 <= i < j < |rows| ==> rows[i].id < rows[j].id
  }

  /** Primary key, id range and client_msg_id uniqueness of one message table. */
  ghost predicate ValidTable<B(!new)>(t: Table<B>) {
    && 0 < t.next
    && Ascending(t.rows)
    && (forall i :: 0 <= i < |t.rows| ==> 0 < t.rows[i].id < t.next)
    && (forall i, j :: 0 <= i < j < |t.rows| && t.rows[i].clientId.Some? ==> t.rows[i].clientId != t.rows[j].clientId)
  }

  lemma SameIdSameRow<B(!new)>(t: Table<B>, r: Row<B>, q: Row<B>)
    requires ValidTable(t) && r in t.rows && q in t.rows && r.id == q.id
    ensures r == q
  {
  }

  function Max(a: nat, b: nat): nat {
    if a < b then b else a
  }

  function Get<K, V>(m: map<K, V>, k: K, default: V): V {
    if k in m then m[k] else default
  }

  /** The elements satisfying p, in order: WHERE on a table read in id order. */
  function Filter<T(!new)>(s: seq<T>, p: T -> bool): (r: seq<T>)
    ensures forall x :: x in r <==> x in s && p(x)
  {
    if s == [] then []
    else
      var init := s[..|s| - 1];
      var last := s[|s| - 1];
      assert s == init + [last];
      if p(last) then Filter(init, p) + [last] else Filter(init, p)
  }

  lemma {:induction false} FilterAppend<T(!new)>(s: seq<T>, x: T, p: T -> bool)
    ensures Filter(s + [x], p) == if p(x) then Filter(s, p) + [x] else Filter(s, p)
  {
  }

  lemma {:induction false} FilterNone<T(!new)>(s: seq<T>, p: T -> bool)
    requires forall x :: x in s ==> !p(x)
    ensures Filter(s, p) == []
  {
    if s != [] {
      FilterNone(s[..|s| - 1], p);
    }
  }

  lemma {:induction false} FilterAscending<B(!new)>(rows: seq<Row<B>>, p: Row<B> -> bool)
    requires Ascending(rows)
    ensures Ascending(Filter(rows, p))
  {
    if rows != [] {
      var init := rows[..|rows| - 1];
      FilterAscending(init, p);
      var kept := Filter(init, p);
      forall i | 0 <= i < |kept| ensures kept[i].id < rows[|rows| - 1].id {
        assert kept[i] in init;
      }
    }
  }

  /** Two deletions in a row are one deletion by both conditions. */
  lemma {:induction false} FilterTwice<T(!new)>(s: seq<T>, p: T -> bool, q: T -> bool, both: T -> bool)
    requires forall x :: x in s ==> (both(x) <==> p(x) && q(x))
    ensures Filter(Filter(s, p), q) == Filter(s, both)
  {
    if s != [] {
      var init, last := s[..|s| - 1], s[|s| - 1];
      FilterTwice(init, p, q, both);
      FilterAppend(Filter(init, p), last, q);
    }
  }

  /** A condition that every row meets deletes nothing; equal conditions delete the same rows. */
  lemma {:induction false} FilterSame<T(!new)>(s: seq<T>, p: T -> bool, q: T -> bool)
    requires forall x :: x in s ==> (p(x) <==> q(x))
    ensures Filter(s, p) == Filter(s, q)
    ensures (forall x :: x in s ==> p(x)) ==> Filter(s, p) == s
  {
    if s != [] {
      FilterSame(s[..|s| - 1], p, q);
      assert s == s[..|s| - 1] + [s[|s| - 1]];
    }
  }

  /** An ordered table is determined by which rows it holds. */
  lemma {:induction false} AscendingUnique<B(!new)>(a: seq<Row<B>>, b: seq<Row<B>>)
    requires Ascending(a) && Ascending(b)
    requires forall x :: x in a <==> x in b
    ensures a == b
  {
    assert a != [] ==> a[0] in b;
    assert b != [] ==> b[0] in a;
    if a != [] && b != [] {
      var x, y := a[|a| - 1], b[|b| - 1];
      assert x in b && y in a;
      assert x == y;
      var a', b' := a[..|a| - 1], b[..|b| - 1];
      assert a == a' + [x] && b == b' + [x];
      forall z ensures z in a' <==> z in b' {
        if z in a' { assert z in a; assert z.id < x.id; }
        if z in b' { assert z in b; assert z.id < x.id; }
      }
      AscendingUnique(a', b');
    }
  }

  // ----- the first page of an ordered query -----

  /** The limit of both queries of the reconnect synchronisation. */
  const SYNC_LIMIT: nat := 200

  /** LIMIT. */
  function Take<T>(s: seq<T>, limit: nat): seq<T> {
    if |s| <= limit then s else s[..limit]
  }

  lemma OlderIsEarlier<B(!new)>(all: seq<Row<B>>, k: nat, x: Row<B>)
    requires Ascending(all) && k < |all|
    ensures x in all[..k] <==> x in all && x.id < all[k].id
  {
    if x in all && x.id < all[k].id {
      var n :| 0 <= n < |all| && all[n] == x;
      assert n < k;
    }
  }

  /** The k-th row of a query is preceded by exactly the k rows of the query with smaller ids. */
  lemma OlderArePrefix<B(!new)>(rows: seq<Row<B>>, p: Row<B> -> bool, older: Row<B> -> bool, k: nat)
    requires Ascending(rows) && k < |Filter(rows, p)|
    requires forall x :: older(x) <==> p(x) && x.id < Filter(rows, p)[k].id
    ensures Filter(rows, older) == Filter(rows, p)[..k]
  {
    var all := Filter(rows, p);
    FilterAscending(rows, p);
    FilterAscending(rows, older);
    assert Ascending(all[..k]);
    hide Filter, Ascending;
    forall x ensures x in Filter(rows, older) <==> x in all[..k] {
      OlderIsEarlier(all, k, x);
    }
    AscendingUnique(Filter(rows, older), all[..k]);
  }

  /** ORDER BY id LIMIT: a row is on the page if and only if it qualifies and fewer than `limit` older rows do. */
  lemma PageExact<B(!new)>(rows: seq<Row<B>>, p: Row<B> -> bool, older: Row<B> -> bool, limit: nat, r: Row<B>)
    requires Ascending(rows) && r in rows
    requires forall x :: older(x) <==> p(x) && x.id < r.id
    ensures r in Take(Filter(rows, p), limit) <==> p(r) && |Filter(rows, older)| < limit
  {
    var all := Filter(rows, p);
    var page := Take(all, limit);
    FilterAscending(rows, p);
    if p(r) {
      var k :| 0 <= k < |all| && all[k] == r;
      OlderArePrefix(rows, p, older, k);
      if r in page {
        var n :| 0 <= n < |page| && page[n] == r;
        assert n == k;
      }
      assert k < limit ==> page[k] == r;
    } else {
      assert r !in all;
    }
  }

  /** Filtering a validly keyed table keeps its keys valid: DELETE never breaks uniqueness. */
  lemma FilterValidTable<B(!new)>(t: Table<B>, p: Row<B> -> bool)
    requires ValidTable(t)
    ensures ValidTable(t.(rows := Filter(t.rows, p)))
  {
    var kept := Filter(t.rows, p);
    FilterAscending(t.rows, p);
    forall i | 0 <= i < |kept| ensures 0 < kept[i].id < t.next {
      assert kept[i] in t.rows;
    }
    forall i, j | 0 <= i < j < |kept| && kept[i].clientId.Some? ensures kept[i].clientId != kept[j].clientId {
      assert kept[i] in t.rows && kept[j] in t.rows;
      var x :| 0 <= x < |t.rows| && t.rows[x] == kept[i];
      var y :| 0 <= y < |t.rows| && t.rows[y] == kept[j];
      assert x != y;
      assert x < y || y < x;
    }
  }
}
