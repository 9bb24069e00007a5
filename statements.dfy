/**
 * The `users` table, `(user_id, message_id UNIQUE, pokemon)`, and the
 * statements the cog runs against it. A user's listing is the query
 * `SELECT pokemon, message_id FROM users WHERE user_id = ?`; SQLite
 * answers it in primary-key order, and because message ids are
 * time-ordered the table is kept in increasing `message_id` order, so
 * insertion order and key order agree.
 */
module Statements {
  import opened Wrappers
  import opened Records

  datatype Entry = Entry(user: UserId, key: Key, pokemon: Pokemon)

  /** `message_id` is unique, and rows sit in increasing `message_id` order. */
  predicate Ordered(t: seq<Entry>)
  {
    forall i, j :: 0 <= i < j < |t| ==> t[i].key < t[j].key
  }

  /** `k` is newer than every stored message id. */
  predicate Newer(t: seq<Entry>, k: Key)
  {
    forall i :: 0 <= i < |t| ==> t[i].key < k
  }

  function Keys(t: seq<Entry>): set<Key>
  {
    set i | 0 <= i < |t| :: t[i].key
  }

  function Own(e: Entry, u: UserId): seq<Row>
  {
    if e.user == u then [Row(e.pokemon, e.key)] else []
  }

  /** `SELECT pokemon, message_id FROM users WHERE user_id = u` */
  function Listing(t: seq<Entry>, u: UserId): seq<Row>
  {
    if t == [] then [] else Listing(t[..|t| - 1], u) + Own(t[|t| - 1], u)
  }

  /** `INSERT_POKEMON` */
  function Insert(t: seq<Entry>, u: UserId, k: Key, p: Pokemon): seq<Entry>
  {
    t + [Entry(u, k, p)]
  }

  /** Replace the record stored under `k`, keeping its owner and position. */
  function Update(t: seq<Entry>, k: Key, p: Pokemon): seq<Entry>
  {
    seq(|t|, i requires 0 <= i < |t| => if t[i].key == k then t[i].(pokemon := p) else t[i])
  }

  /**
   * `UPDATE_POKEMON`: `INSERT ... ON CONFLICT (message_id) DO UPDATE SET
   * pokemon = excluded.pokemon`.
   */
  function Upsert(t: seq<Entry>, u: UserId, k: Key, p: Pokemon): seq<Entry>
  {
    if k in Keys(t) then Update(t, k, p) else Insert(t, u, k, p)
  }

  /** `DELETE FROM users WHERE message_id = k` */
  function Delete(t: seq<Entry>, k: Key): seq<Entry>
  {
    if t == [] then []
    else Delete(t[..|t| - 1], k) + (if t[|t| - 1].key == k then [] else [t[|t| - 1]])
  }

  /** The listing query, read row by row. */
  method SelectPokemon(t: seq<Entry>, u: UserId) returns (rows: seq<Row>)
    ensures rows == Listing(t, u)
  {
    rows := [];
    var i := 0;
    while i < |t|
      invariant 0 <= i <= |t|
      invariant rows == Listing(t[..i], u)
    {
      assert t[..i + 1][..i] == t[..i];
      if t[i].user == u {
        rows := rows + [Row(t[i].pokemon, t[i].key)];
      }
      i := i + 1;
    }
    assert t[..|t|] == t;
  }

  /** `[None]` followed by the rows: slot `i` of the listing is element `i`. */
  function Sentinel(rows: seq<Row>): seq<Option<Row>>
  {
    [None] + seq(|rows|, i requires 0 <= i < |rows| => Some(rows[i]))
  }

  /**
   * `pokemons = [None]`, then one append per row of the listing query,
   * so that a 1-based slot indexes the list directly.
   */
  method SentinelSlots(t: seq<Entry>, u: UserId) returns (slots: seq<Option<Row>>)
    ensures |slots| == |Listing(t, u)| + 1 && slots[0] == None
    ensures forall i :: 1 <= i < |slots| ==> slots[i] == Some(Listing(t, u)[i - 1])
  {
    slots := [None];
    var i := 0;
    while i < |t|
      invariant 0 <= i <= |t|
      invariant slots == Sentinel(Listing(t[..i], u))
    {
      assert t[..i + 1][..i] == t[..i];
      if t[i].user == u {
        slots := slots + [Some(Row(t[i].pokemon, t[i].key))];
      }
      i := i + 1;
    }
    assert t[..|t|] == t;
  }

  // ---- the same operations seen on one user's listing ----

  function RowKeys(rows: seq<Row>): set<Key>
  {
    set j | 0 <= j < |rows| :: rows[j].key
  }

  predicate RowsOrdered(rows: seq<Row>)
  {
    forall i, j :: 0 <= i < j < |rows| ==> rows[i].key < rows[j].key
  }

  function ReplaceKey(rows: seq<Row>, k: Key, p: Pokemon): seq<Row>
  {
    seq(|rows|, j requires 0 <= j < |rows| => if rows[j].key == k then Row(p, k) else rows[j])
  }

  function DropKey(rows: seq<Row>, k: Key): seq<Row>
  {
    if rows == [] then []
    else DropKey(rows[..|rows| - 1], k) + (if rows[|rows| - 1].key == k then [] else [rows[|rows| - 1]])
  }

  // ---- lemmas: how each statement changes every user's listing ----

  lemma {:induction false} ListingConcat(a: seq<Entry>, b: seq<Entry>, u: UserId)
    ensures Listing(a + b, u) == Listing(a, u) + Listing(b, u)
  {
    if b == [] {
      assert a + b == a;
    } else {
      var b' := b[..|b| - 1];
      assert (a + b)[..|a + b| - 1] == a + b';
      ListingConcat(a, b', u);
    }
  }

  /** A key that no row of `v` carries is not in `v`'s listing. */
  lemma {:induction false} NotListed(t: seq<Entry>, v: UserId, k: Key)
    requires forall i :: 0 <= i < |t| && t[i].key == k ==> t[i].user != v
    ensures k !in RowKeys(Listing(t, v))
  {
    if t != [] {
      var t' := t[..|t| - 1];
      NotListed(t', v, k);
      var l, l', o := Listing(t, v), Listing(t', v), Own(t[|t| - 1], v);
      assert l == l' + o;
      forall j | 0 <= j < |l|
        ensures l[j].key != k
      {
        if j < |l'| {
          assert l[j] == l'[j] && l'[j].key in RowKeys(l');
        } else {
          assert l[j] == o[j - |l'|];
        }
      }
    }
  }

  lemma {:induction false} ListedKeysBelow(t: seq<Entry>, u: UserId, k: Key)
    requires Newer(t, k)
    ensures forall j :: 0 <= j < |Listing(t, u)| ==> Listing(t, u)[j].key < k
  {
    if t != [] {
      ListedKeysBelow(t[..|t| - 1], u, k);
    }
  }

  /** A listing inherits the table's key order (so its keys are distinct). */
  lemma {:induction false} ListingOrdered(t: seq<Entry>, u: UserId)
    requires Ordered(t)
    ensures RowsOrdered(Listing(t, u))
  {
    if t != [] {
      var t' := t[..|t| - 1];
      ListingOrdered(t', u);
      ListedKeysBelow(t', u, t[|t| - 1].key);
    }
  }

  lemma ReplaceKeyConcat(a: seq<Row>, b: seq<Row>, k: Key, p: Pokemon)
    ensures ReplaceKey(a + b, k, p) == ReplaceKey(a, k, p) + ReplaceKey(b, k, p)
  {
  }

  lemma {:induction false} ListingUpdate(t: seq<Entry>, k: Key, p: Pokemon, u: UserId)
    ensures Listing(Update(t, k, p), u) == ReplaceKey(Listing(t, u), k, p)
  {
    if t != [] {
      var t' := t[..|t| - 1];
      assert Update(t, k, p)[..|t| - 1] == Update(t', k, p);
      ListingUpdate(t', k, p, u);
      ReplaceKeyConcat(Listing(t', u), Own(t[|t| - 1], u), k, p);
    }
  }

  lemma {:induction false} DropKeyConcat(a: seq<Row>, b: seq<Row>, k: Key)
    ensures DropKey(a + b, k) == DropKey(a, k) + DropKey(b, k)
  {
    if b == [] {
      assert a + b == a;
    } else {
      var b' := b[..|b| - 1];
      assert (a + b)[..|a + b| - 1] == a + b';
      DropKeyConcat(a, b', k);
    }
  }

  lemma {:induction false} ListingDelete(t: seq<Entry>, k: Key, u: UserId)
    ensures Listing(Delete(t, k), u) == DropKey(Listing(t, u), k)
  {
    if t != [] {
      var t' := t[..|t| - 1];
      var e := t[|t| - 1];
      var x := if e.key == k then [] else [e];
      ListingDelete(t', k, u);
      ListingConcat(Delete(t', k), x, u);
      if x != [] {
        assert x[..0] == [];
      }
      assert Listing(x, u) == DropKey(Own(e, u), k) by {
        var o := Own(e, u);
        if o != [] {
          assert o[..0] == [];
        }
      }
      DropKeyConcat(Listing(t', u), Own(e, u), k);
    }
  }

  lemma {:induction false} DeleteNewer(t: seq<Entry>, k: Key, m: Key)
    requires Newer(t, m)
    ensures Newer(Delete(t, k), m)
  {
    if t != [] {
      DeleteNewer(t[..|t| - 1], k, m);
    }
  }

  lemma {:induction false} DeleteOrdered(t: seq<Entry>, k: Key)
    requires Ordered(t)
    ensures Ordered(Delete(t, k))
  {
    if t != [] {
      var t' := t[..|t| - 1];
      DeleteOrdered(t', k);
      DeleteNewer(t', k, t[|t| - 1].key);
    }
  }

  lemma {:induction false} DropKeyAbsent(rows: seq<Row>, k: Key)
    requires k !in RowKeys(rows)
    ensures DropKey(rows, k) == rows
  {
    if rows != [] {
      var r' := rows[..|rows| - 1];
      assert RowKeys(r') <= RowKeys(rows);
      DropKeyAbsent(r', k);
      assert rows[|rows| - 1].key in RowKeys(rows);
    }
  }

  /** Dropping the key of slot `i` removes exactly that slot. */
  lemma {:induction false} DropKeyAt(rows: seq<Row>, i: nat)
    requires RowsOrdered(rows) && i < |rows|
    ensures DropKey(rows, rows[i].key) == rows[..i] + rows[i + 1..]
  {
    var n := |rows|;
    var r' := rows[..n - 1];
    var k := rows[i].key;
    if i == n - 1 {
      assert k !in RowKeys(r');
      DropKeyAbsent(r', k);
    } else {
      assert r'[i].key == k;
      DropKeyAt(r', i);
      assert rows[n - 1].key != k;
      assert r'[..i] + r'[i + 1..] + [rows[n - 1]] == rows[..i] + rows[i + 1..];
    }
  }

  lemma ReplaceKeyAbsent(rows: seq<Row>, k: Key, p: Pokemon)
    requires k !in RowKeys(rows)
    ensures ReplaceKey(rows, k, p) == rows
  {
    assert forall j :: 0 <= j < |rows| ==> rows[j].key in RowKeys(rows);
  }

  /** The row of slot `i` is stored once, under `u`. */
  lemma {:induction false} KeyOwner(t: seq<Entry>, u: UserId, i: nat)
    requires Ordered(t) && i < |Listing(t, u)|
    ensures var k := Listing(t, u)[i].key;
      && k in Keys(t)
      && forall j :: 0 <= j < |t| && t[j].key == k ==> t[j].user == u
  {
    var t', e := t[..|t| - 1], t[|t| - 1];
    var l' := Listing(t', u);
    var k := Listing(t, u)[i].key;
    assert Listing(t, u) == l' + Own(e, u);
    if i < |l'| {
      KeyOwner(t', u, i);
      assert k == l'[i].key;
      var j' :| 0 <= j' < |t'| && t'[j'].key == k;
      assert t[j'].key == k && k < e.key;
    } else {
      assert e.user == u && k == e.key;
      assert t[|t| - 1].key == k;
    }
  }

  /**
   * Rewriting the record of slot `i` (the upsert the cog issues with that
   * row's `message_id`) changes that slot of that user only.
   */
  lemma UpdateSlot(t: seq<Entry>, u: UserId, i: nat, p: Pokemon)
    requires Ordered(t) && i < |Listing(t, u)|
    ensures var k := Listing(t, u)[i].key;
      && k in Keys(t)
      && Upsert(t, u, k, p) == Update(t, k, p)
      && Ordered(Update(t, k, p))
      && Listing(Update(t, k, p), u) == Listing(t, u)[i := Row(p, k)]
      && forall v :: v != u ==> Listing(Update(t, k, p), v) == Listing(t, v)
  {
    var l := Listing(t, u);
    var k := l[i].key;
    KeyOwner(t, u, i);
    ListingUpdate(t, k, p, u);
    ListingOrdered(t, u);
    assert ReplaceKey(l, k, p) == l[i := Row(p, k)];
    forall v | v != u
      ensures Listing(Update(t, k, p), v) == Listing(t, v)
    {
      NotListed(t, v, k);
      ListingUpdate(t, k, p, v);
      ReplaceKeyAbsent(Listing(t, v), k, p);
    }
  }

  /**
   * Deleting the `message_id` of slot `i` removes that slot of that user
   * and touches no other user.
   */
  lemma DeleteSlot(t: seq<Entry>, u: UserId, i: nat)
    requires Ordered(t) && i < |Listing(t, u)|
    ensures var l := Listing(t, u); var k := l[i].key;
      && Ordered(Delete(t, k))
      && Listing(Delete(t, k), u) == l[..i] + l[i + 1..]
      && forall v :: v != u ==> Listing(Delete(t, k), v) == Listing(t, v)
  {
    var l := Listing(t, u);
    var k := l[i].key;
    KeyOwner(t, u, i);
    DeleteOrdered(t, k);
    ListingDelete(t, k, u);
    ListingOrdered(t, u);
    DropKeyAt(l, i);
    forall v | v != u
      ensures Listing(Delete(t, k), v) == Listing(t, v)
    {
      NotListed(t, v, k);
      ListingDelete(t, k, v);
      DropKeyAbsent(Listing(t, v), k);
    }
  }

  /** Inserting under a newer key appends to that user's listing only. */
  lemma InsertNewest(t: seq<Entry>, u: UserId, k: Key, p: Pokemon)
    requires Ordered(t) && Newer(t, k)
    ensures Ordered(Insert(t, u, k, p))
    ensures Listing(Insert(t, u, k, p), u) == Listing(t, u) + [Row(p, k)]
    ensures forall v :: v != u ==> Listing(Insert(t, u, k, p), v) == Listing(t, v)
  {
    assert Insert(t, u, k, p)[..|t|] == t;
  }

  /** The keys that remain after a delete are keys that were there. */
  lemma {:induction false} DeleteKeys(t: seq<Entry>, k: Key)
    ensures Keys(Delete(t, k)) == Keys(t) - {k}
  {
    if t != [] {
      var t' := t[..|t| - 1];
      var e := t[|t| - 1];
      DeleteKeys(t', k);
      assert Keys(t) == Keys(t') + {e.key} by {
        forall x | x in Keys(t) ensures x in Keys(t') + {e.key} {
          var i :| 0 <= i < |t| && t[i].key == x;
          if i < |t| - 1 { assert t'[i].key == x; }
        }
        forall x | x in Keys(t') ensures x in Keys(t) {
          var i :| 0 <= i < |t'| && t'[i].key == x;
          assert t[i].key == x;
        }
      }
      var x := if e.key == k then [] else [e];
      var d := Delete(t', k);
      assert Delete(t, k) == d + x;
      assert Keys(d + x) == Keys(d) + Keys(x) by {
        forall y | y in Keys(d + x) ensures y in Keys(d) + Keys(x) {
          var i :| 0 <= i < |d + x| && (d + x)[i].key == y;
          if i < |d| { assert d[i].key == y; } else { assert x[i - |d|].key == y; }
        }
        forall y | y in Keys(d) ensures y in Keys(d + x) {
          var i :| 0 <= i < |d| && d[i].key == y;
          assert (d + x)[i].key == y;
        }
        forall y | y in Keys(x) ensures y in Keys(d + x) {
          var i :| 0 <= i < |x| && x[i].key == y;
          assert (d + x)[|d| + i].key == y;
        }
      }
      if x != [] {
        assert Keys(x) == {e.key} by {
          assert x[0].key == e.key;
        }
      }
    }
  }

  /**
   * Moving the row at slot `i` of `u` to `w` under a newer key, as a
   * delete by key followed by an insert: `u` loses that slot, `w` gains
   * it at the end, and every other listing stays as it was.
   */
  lemma MoveSlot(t: seq<Entry>, u: UserId, w: UserId, i: nat, m: Key)
    requires Ordered(t) && Newer(t, m) && i < |Listing(t, u)|
    ensures var l := Listing(t, u);
      var t' := Insert(Delete(t, l[i].key), w, m, l[i].pokemon);
      && Ordered(t')
      && (w != u ==> Listing(t', u) == l[..i] + l[i + 1..])
      && (w != u ==> Listing(t', w) == Listing(t, w) + [Row(l[i].pokemon, m)])
      && (forall v :: v != u && v != w ==> Listing(t', v) == Listing(t, v))
  {
    var l := Listing(t, u);
    var d := Delete(t, l[i].key);
    DeleteSlot(t, u, i);
    DeleteNewer(t, l[i].key, m);
    InsertNewest(d, w, m, l[i].pokemon);
  }
}
