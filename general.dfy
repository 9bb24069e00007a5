/**
 * The rules of `pokecord/general.py` that do not touch state: how the
 * selected slot (`pokeid`) is repaired when a slot is removed (shared
 * with `trade`), and the per-record test of `psearch`.
 */
module General {
  import opened Wrappers
  import opened Records
  import opened Text
  import Statements

  // ---------------------------------------------------------------
  // Selected-slot repair
  // ---------------------------------------------------------------

  /**
   * The selected slot after slot `removed` leaves the listing: one lower
   * if it sat above the removed slot, reset to 1 if it was the removed
   * slot, unchanged below it.
   */
  function Repair(removed: int, selected: int): int
  {
    if removed < selected then selected - 1
    else if removed == selected then 1
    else selected
  }

  /** The listing without slot `id` (1-based). */
  function Without(rows: seq<Row>, id: int): seq<Row>
    requires 1 <= id <= |rows|
  {
    rows[..id - 1] + rows[id..]
  }

  /**
   * The repair keeps the selection on the same pokémon whenever that
   * pokémon is not the one removed, and otherwise resets it to the first.
   */
  lemma RepairFollowsSelection(rows: seq<Row>, removed: int, selected: int)
    requires 1 <= removed <= |rows| && 1 <= selected <= |rows|
    ensures var s := Repair(removed, selected);
      if removed == selected then s == 1
      else 1 <= s <= |rows| - 1 && Without(rows, removed)[s - 1] == rows[selected - 1]
  {
  }

  /** `release` of slot `id`, with the slot guard and the repair. */
  function ReleaseOne(rows: seq<Row>, selected: int, id: int): (seq<Row>, int)
  {
    if 1 <= id <= |rows| then (Without(rows, id), Repair(id, selected)) else (rows, selected)
  }

  /** A series of confirmed releases. */
  function ReleaseAll(rows: seq<Row>, selected: int, ids: seq<int>): (seq<Row>, int)
    decreases |ids|
  {
    if ids == [] then (rows, selected)
    else
      var (rows1, sel1) := ReleaseOne(rows, selected, ids[0]);
      ReleaseAll(rows1, sel1, ids[1..])
  }

  /**
   * Over any series of releases the selected slot stays a slot of the
   * listing, or the listing has been emptied and the selection is 1.
   */
  lemma {:induction false} SelectionStaysInRange(rows: seq<Row>, selected: int, ids: seq<int>)
    requires 1 <= selected <= |rows| || (rows == [] && selected == 1)
    ensures var (rows', sel') := ReleaseAll(rows, selected, ids);
      1 <= sel' <= |rows'| || (rows' == [] && sel' == 1)
    decreases |ids|
  {
    if ids != [] {
      var (rows1, sel1) := ReleaseOne(rows, selected, ids[0]);
      if 1 <= ids[0] <= |rows| {
        RepairFollowsSelection(rows, ids[0], selected);
      }
      SelectionStaysInRange(rows1, sel1, ids[1..]);
    }
  }

  lemma WithoutOrdered(rows: seq<Row>, id: int)
    requires Statements.RowsOrdered(rows) && 1 <= id <= |rows|
    ensures Statements.RowsOrdered(Without(rows, id))
    ensures rows[id - 1].key !in Statements.RowKeys(Without(rows, id))
    ensures Statements.RowKeys(Without(rows, id)) <= Statements.RowKeys(rows)
  {
    var w := Without(rows, id);
    forall j | 0 <= j < |w|
      ensures w[j] == (if j < id - 1 then rows[j] else rows[j + 1])
    {
    }
  }

  /**
   * Over any series of releases, as long as the selected pokémon is still
   * owned, the selected slot still designates it (keys are distinct).
   */
  lemma {:induction false} SelectionTracksPokemon(rows: seq<Row>, selected: int, ids: seq<int>)
    requires Statements.RowsOrdered(rows) && 1 <= selected <= |rows|
    ensures var (rows', sel') := ReleaseAll(rows, selected, ids);
      var k := rows[selected - 1].key;
      k in Statements.RowKeys(rows') ==> 1 <= sel' <= |rows'| && rows'[sel' - 1].key == k
    decreases |ids|
  {
    var k := rows[selected - 1].key;
    if ids != [] {
      var id := ids[0];
      assert ReleaseAll(rows, selected, ids) == ReleaseAll(ReleaseOne(rows, selected, id).0, ReleaseOne(rows, selected, id).1, ids[1..]);
      if 1 <= id <= |rows| {
        var rows1, sel1 := Without(rows, id), Repair(id, selected);
        RepairFollowsSelection(rows, id, selected);
        WithoutOrdered(rows, id);
        if id == selected {
          GoneStaysGone(rows1, sel1, ids[1..], k);
        } else {
          assert rows1[sel1 - 1].key == k;
          SelectionTracksPokemon(rows1, sel1, ids[1..]);
        }
      } else {
        SelectionTracksPokemon(rows, selected, ids[1..]);
      }
    }
  }

  /** Releases only remove: a key that is gone does not come back. */
  lemma {:induction false} GoneStaysGone(rows: seq<Row>, selected: int, ids: seq<int>, k: Key)
    requires k !in Statements.RowKeys(rows)
    ensures k !in Statements.RowKeys(ReleaseAll(rows, selected, ids).0)
    decreases |ids|
  {
    if ids != [] {
      var (rows1, sel1) := ReleaseOne(rows, selected, ids[0]);
      if 1 <= ids[0] <= |rows| {
        var w := Without(rows, ids[0]);
        forall j | 0 <= j < |w|
          ensures w[j].key != k
        {
          if j < ids[0] - 1 {
            assert w[j] == rows[j];
          } else {
            assert w[j] == rows[j + 1];
          }
          assert rows[if j < ids[0] - 1 then j else j + 1].key in Statements.RowKeys(rows);
        }
      }
      GoneStaysGone(rows1, sel1, ids[1..], k);
    }
  }

  // ---------------------------------------------------------------
  // psearch
  // ---------------------------------------------------------------

  /**
   * The parsed `psearch` arguments; an empty string or list is an
   * argument not given (Python falsiness). `level`, `id` and `iv` are the
   * `nargs="*"` lists whose first element is compared.
   */
  datatype SearchArgs = SearchArgs(
    names: string,
    level: seq<int>,
    id: seq<int>,
    variant: string,
    iv: seq<int>,
    gender: string,
    ptype: string)

  /**
   * Whether record `p` passes the one criterion that applies (the first
   * given among name, level, id, variant, iv, gender, type). `None` is
   * the `IndexError` of `split()[0]` on a blank gender.
   */
  function Hit(a: SearchArgs, p: Pokemon): Option<bool>
  {
    if a.names != [] then Some(Lower(p.name) == Lower(a.names))
    else if a.level != [] then Some(p.level == a.level[0])
    else if a.id != [] then Some(p.id == a.id[0])
    else if a.variant != [] then
      Some(Lower(if p.variant.Some? then p.variant.value else "None") == Lower(a.variant))
    else if a.iv != [] then Some(StatTotal(p.ivs) == a.iv[0])
    else if a.gender != [] then
      match FirstWord(Lower(if p.gender.Some? then p.gender.value else "No Gender"))
      case None => None
      case Some(w) => Some(Lower(a.gender) == w)
    else if a.ptype != [] then Some(Lower(a.ptype) in seq(|p.types|, i requires 0 <= i < |p.types| => Lower(p.types[i])))
    else Some(false)
  }

  /** The outcome of `psearch`: the matching 1-based indices, or the crash. */
  datatype SearchResult = Indices(found: seq<nat>) | Crashed

  /**
   * The `psearch` loop: the 1-based indices of the matching records in
   * listing order; it stops with the crash if any record's test raises.
   */
  method Psearch(a: SearchArgs, rows: seq<Row>) returns (r: SearchResult)
    ensures r.Crashed? <==> exists i :: 0 <= i < |rows| && Hit(a, rows[i].pokemon).None?
    ensures r.Indices? ==> forall x :: x in r.found <==> 1 <= x <= |rows| && Hit(a, rows[x - 1].pokemon) == Some(true)
    ensures r.Indices? ==> forall i, j :: 0 <= i < j < |r.found| ==> r.found[i] < r.found[j]
  {
    var correct: seq<nat> := [];
    var i := 0;
    while i < |rows|
      invariant 0 <= i <= |rows|
      invariant forall j :: 0 <= j < i ==> Hit(a, rows[j].pokemon).Some?
      invariant forall x :: x in correct <==> 1 <= x <= i && Hit(a, rows[x - 1].pokemon) == Some(true)
      invariant forall x, y :: 0 <= x < y < |correct| ==> correct[x] < correct[y]
      invariant forall x :: 0 <= x < |correct| ==> correct[x] <= i
    {
      var hit := Hit(a, rows[i].pokemon);
      if hit.None? {
        return Crashed;
      }
      if hit.value {
        correct := correct + [i + 1];
      }
      i := i + 1;
    }
    r := Indices(correct);
  }

  /** Name, variant, gender and type tests ignore the case of the argument. */
  lemma SearchIgnoresArgumentCase(a: SearchArgs, p: Pokemon)
    ensures Hit(a.(names := Lower(a.names), variant := Lower(a.variant),
                   gender := Lower(a.gender), ptype := Lower(a.ptype)), p) == Hit(a, p)
  {
    LowerIdempotent(a.names);
    LowerIdempotent(a.variant);
    LowerIdempotent(a.gender);
    LowerIdempotent(a.ptype);
  }

  /** A record without a variant is found by the variant "none", in any case. */
  lemma MissingVariantIsNone(a: SearchArgs, p: Pokemon)
    requires a.names == [] && a.level == [] && a.id == [] && Lower(a.variant) == "none"
    requires p.variant.None?
    ensures Hit(a, p) == Some(true)
  {
  }
}
