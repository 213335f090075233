/**
 * The `cdn_prefix` table and the statements of CdnPrefixMapper over it, with
 * the clear-then-set composition that makes one prefix the default.
 */
module CdnPrefixMapper {
  import opened Base
  import opened CdnPrefixEntity
  import Ordering
  import Tables

  /** One stored row: the generated id and the record's column values. */
  datatype PrefixRow = PrefixRow(id: int, data: PrefixRecord)

  function RowId(row: PrefixRow): int {
    row.id
  }

  /** `is_default = 1`; a null flag is not 1. */
  predicate IsDefault(row: PrefixRow) {
    row.data.isDefault == Some(true)
  }

  /** `is_active = 1` */
  predicate IsActive(row: PrefixRow) {
    row.data.isActive
  }

  /** MySQL orders NULL below every value, so descending puts true, then false, then null. */
  function DefaultRank(isDefault: Option<bool>): int {
    match isDefault
    case Some(true) => 2
    case Some(false) => 1
    case None => 0
  }

  /** `ORDER BY is_default DESC, create_time ASC` */
  function DefaultFirst(row: PrefixRow): Ordering.Key {
    Ordering.Key(-DefaultRank(row.data.isDefault), row.data.createTime)
  }

  /** `selectById`: the row with that id, or null. */
  function SelectById(rows: seq<PrefixRow>, id: int): (r: Option<PrefixRow>)
    ensures r.Some? ==> r.value in rows && r.value.id == id
    ensures r.None? <==> forall i :: 0 <= i < |rows| ==> rows[i].id != id
  {
    Tables.FindById(rows, RowId, id)
  }

  /** `selectAll` */
  function SelectAll(rows: seq<PrefixRow>): seq<PrefixRow> {
    Ordering.SortBy(rows, DefaultFirst)
  }

  /** `selectAllActive` */
  function SelectAllActive(rows: seq<PrefixRow>): seq<PrefixRow> {
    Ordering.SortBy(Ordering.Filter(rows, IsActive), DefaultFirst)
  }

  /**
   * `selectAll` returns every row once: default rows first, then
   * non-default, then unset, and by ascending creation time within each group.
   */
  lemma SelectAllDefaultFirst(rows: seq<PrefixRow>)
    ensures multiset(SelectAll(rows)) == multiset(rows)
    ensures var all := SelectAll(rows);
            forall i, j :: 0 <= i < j < |all| ==>
              && DefaultRank(all[i].data.isDefault) >= DefaultRank(all[j].data.isDefault)
              && (IsDefault(all[j]) ==> IsDefault(all[i]))
              && (all[i].data.isDefault == all[j].data.isDefault ==> all[i].data.createTime <= all[j].data.createTime)
  {
    Ordering.SortBySortsAndPermutes(rows, DefaultFirst);
  }

  /**
   * `selectAllActive` is `selectAll` with the inactive rows taken out: exactly
   * the active rows, in the same order.
   */
  lemma SelectAllActiveIsActiveSelectAll(rows: seq<PrefixRow>)
    ensures SelectAllActive(rows) == Ordering.Filter(SelectAll(rows), IsActive)
    ensures forall row :: row in SelectAllActive(rows) <==> row in rows && IsActive(row)
  {
    Ordering.FilterSortCommute(rows, IsActive, DefaultFirst);
    var active := Ordering.Filter(rows, IsActive);
    Ordering.FilterMembers(rows, IsActive);
    Ordering.SortBySortsAndPermutes(active, DefaultFirst);
    forall row ensures row in SelectAllActive(rows) <==> row in rows && IsActive(row) {
      assert row in SelectAllActive(rows) <==> row in multiset(SelectAllActive(rows));
      assert row in active <==> row in multiset(active);
      if row in rows && IsActive(row) {
        var i :| 0 <= i < |rows| && rows[i] == row;
      }
    }
  }

  /**
   * `selectDefault` (`LIMIT 1` without an order): a row that is both default
   * and active, or null when there is none. Among several, the model returns
   * the first in id order.
   */
  function SelectDefault(rows: seq<PrefixRow>): (r: Option<PrefixRow>)
    ensures r.Some? ==> r.value in rows && IsDefault(r.value) && IsActive(r.value)
    ensures r.None? <==> forall i :: 0 <= i < |rows| ==> !(IsDefault(rows[i]) && IsActive(rows[i]))
  {
    if rows == [] then None
    else if IsDefault(rows[0]) && IsActive(rows[0]) then Some(rows[0])
    else
      var r := SelectDefault(rows[1..]);
      assert forall i :: 1 <= i < |rows| ==> rows[i] == rows[1..][i - 1];
      r
  }

  /** `update`: the new rows; a null id matches nothing. */
  function Overwritten(rows: seq<PrefixRow>, id: Option<int>, values: PrefixRecord): (r: seq<PrefixRow>)
    ensures |r| == |rows|
    ensures forall i :: 0 <= i < |rows| ==>
              && r[i].id == rows[i].id
              && r[i].data == if id == Some(rows[i].id)
                              then values.(createTime := rows[i].data.createTime)
                              else rows[i].data
  {
    if id.None? then rows
    else Tables.UpdateWhere(rows, RowId, id.value, (row: PrefixRow) => row.(data := values.(createTime := row.data.createTime)))
  }

  /** `clearAllDefault`: the new rows. */
  function ClearedDefaults(rows: seq<PrefixRow>): (r: seq<PrefixRow>)
    ensures |r| == |rows|
    ensures forall i :: 0 <= i < |rows| ==> r[i] == rows[i].(data := rows[i].data.(isDefault := Some(false)))
  {
    if rows == [] then []
    else [rows[0].(data := rows[0].data.(isDefault := Some(false)))] + ClearedDefaults(rows[1..])
  }

  /** `setDefault`: the new rows. */
  function WithDefault(rows: seq<PrefixRow>, id: int): (r: seq<PrefixRow>)
    ensures |r| == |rows|
    ensures forall i :: 0 <= i < |rows| ==>
              r[i] == if rows[i].id == id then rows[i].(data := rows[i].data.(isDefault := Some(true))) else rows[i]
  {
    Tables.UpdateWhere(rows, RowId, id, (row: PrefixRow) => row.(data := row.data.(isDefault := Some(true))))
  }

  /** `deleteById`: the new rows. */
  function WithoutId(rows: seq<PrefixRow>, id: int): seq<PrefixRow> {
    Tables.RemoveId(rows, RowId, id)
  }

  /** `deleteById` removes only the row with that id and keeps every other row. */
  lemma DeleteRemovesOnlyThatRow(rows: seq<PrefixRow>, id: int)
    requires Tables.IdsIncreasing(rows, RowId)
    ensures var r := WithoutId(rows, id);
            && SelectById(r, id) == None
            && (forall row :: row in rows && row.id != id ==> row in r)
            && (forall row :: row in r ==> row in rows)
            && |r| == |rows| - Tables.Matched(rows, RowId, id)
  {
    Tables.RemoveIdRemovesOnlyThatRow(rows, RowId, id);
  }

  /**
   * `countByPrefix`: rows with an equal prefix and another id. It is zero
   * exactly when every row with that prefix is the excluded one, so a row
   * never conflicts with itself.
   */
  function CountByPrefix(rows: seq<PrefixRow>, prefix: string, excludeId: int): (n: nat)
    ensures n == 0 <==> forall i :: 0 <= i < |rows| && rows[i].data.prefix == prefix ==> rows[i].id == excludeId
  {
    Tables.CountWhereZero(rows, (row: PrefixRow) => row.data.prefix == prefix && row.id != excludeId);
    Tables.CountWhere(rows, (row: PrefixRow) => row.data.prefix == prefix && row.id != excludeId)
  }

  /** `countByName`: rows with an equal name and another id. */
  function CountByName(rows: seq<PrefixRow>, name: string, excludeId: int): (n: nat)
    ensures n == 0 <==> forall i :: 0 <= i < |rows| && rows[i].data.name == name ==> rows[i].id == excludeId
  {
    Tables.CountWhereZero(rows, (row: PrefixRow) => row.data.name == name && row.id != excludeId);
    Tables.CountWhere(rows, (row: PrefixRow) => row.data.name == name && row.id != excludeId)
  }

  /**
   * `clearAllDefault` followed by `setDefault(id)`, run one after the other:
   * only the default flags change, the row with that id is the one default
   * row when it exists and there is none otherwise, and `selectDefault` then
   * finds that row exactly when it is active.
   */
  lemma {:induction false} ClearThenSetLeavesOneDefault(rows: seq<PrefixRow>, id: int)
    requires Tables.IdsIncreasing(rows, RowId)
    ensures var r := WithDefault(ClearedDefaults(rows), id);
            && |r| == |rows|
            && (forall i :: 0 <= i < |r| ==> r[i] == rows[i].(data := rows[i].data.(isDefault := Some(rows[i].id == id))))
            && Tables.CountWhere(r, IsDefault) == (if Tables.HasId(rows, RowId, id) then 1 else 0)
            && (SelectDefault(r).Some? ==> SelectDefault(r).value.id == id)
            && (forall i :: 0 <= i < |rows| && rows[i].id == id && IsActive(rows[i]) ==> SelectDefault(r) == Some(r[i]))
  {
    var r := WithDefault(ClearedDefaults(rows), id);
    var hasId := (row: PrefixRow) => RowId(row) == id;
    Tables.CountWhereAgrees(r, rows, IsDefault, hasId);
    Tables.MatchedIsCount(rows, RowId, id, hasId);
  }

  /** The in-memory `cdn_prefix` table. */
  class CdnPrefixTable {
    var rows: seq<PrefixRow>
    var nextId: int

    /** Ids come from the auto-increment counter: increasing, and below the next one. */
    ghost predicate Valid()
      reads this
    {
      && Tables.IdsIncreasing(rows, RowId)
      && forall i :: 0 <= i < |rows| ==> rows[i].id < nextId
    }

    constructor ()
      ensures Valid() && rows == []
    {
      rows := [];
      nextId := 1;
    }

    /** `insert`: one row with a fresh generated id, written back into the entity. */
    method Insert(prefix: CdnPrefix) returns (count: int)
      requires Valid()
      modifies this, prefix`id
      ensures Valid()
      ensures prefix.id.Some? && !Tables.HasId(old(rows), RowId, prefix.id.value)
      ensures rows == old(rows) + [PrefixRow(prefix.id.value, prefix.Record())]
      ensures prefix.Record() == old(prefix.Record())
      ensures count == 1
    {
      var id := nextId;
      prefix.SetId(Some(id));
      rows := rows + [PrefixRow(id, prefix.Record())];
      nextId := nextId + 1;
      count := 1;
    }

    /** `update`: every column but id and create_time, on the row with the entity's id. */
    method Update(prefix: CdnPrefix) returns (count: int)
      requires Valid()
      modifies this`rows
      ensures Valid()
      ensures rows == Overwritten(old(rows), prefix.id, prefix.Record())
      ensures count == if prefix.id.None? then 0 else Tables.Matched(old(rows), RowId, prefix.id.value)
    {
      count := if prefix.id.None? then 0 else Tables.Matched(rows, RowId, prefix.id.value);
      rows := Overwritten(rows, prefix.id, prefix.Record());
    }

    /** `clearAllDefault`: every row matches. */
    method ClearAllDefault() returns (count: int)
      requires Valid()
      modifies this`rows
      ensures Valid()
      ensures rows == ClearedDefaults(old(rows))
      ensures count == |old(rows)|
    {
      count := |rows|;
      rows := ClearedDefaults(rows);
    }

    /** `setDefault` */
    method SetDefault(id: int) returns (count: int)
      requires Valid()
      modifies this`rows
      ensures Valid()
      ensures rows == WithDefault(old(rows), id)
      ensures count == Tables.Matched(old(rows), RowId, id)
    {
      count := Tables.Matched(rows, RowId, id);
      rows := WithDefault(rows, id);
    }

    /** `deleteById` */
    method DeleteById(id: int) returns (count: int)
      requires Valid()
      modifies this`rows
      ensures Valid()
      ensures rows == WithoutId(old(rows), id)
      ensures count == Tables.Matched(old(rows), RowId, id)
    {
      Tables.RemoveIdRemovesOnlyThatRow(rows, RowId, id);
      count := Tables.Matched(rows, RowId, id);
      var kept := WithoutId(rows, id);
      forall i | 0 <= i < |kept| ensures kept[i].id < nextId {
        assert kept[i] in rows;
        var j :| 0 <= j < |rows| && rows[j] == kept[i];
      }
      rows := kept;
    }

    /**
     * Making a prefix the default: `clearAllDefault`, then `setDefault(id)`.
     * Afterwards exactly one row is default when the id exists, none otherwise.
     */
    method MakeDefault(id: int) returns (count: int)
      requires Valid()
      modifies this`rows
      ensures Valid()
      ensures rows == WithDefault(ClearedDefaults(old(rows)), id)
      ensures Tables.CountWhere(rows, IsDefault) == if Tables.HasId(old(rows), RowId, id) then 1 else 0
      ensures count == Tables.Matched(old(rows), RowId, id)
    {
      ClearThenSetLeavesOneDefault(rows, id);
      var cleared := ClearAllDefault();
      count := SetDefault(id);
    }
  }
}
