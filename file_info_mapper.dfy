/**
 * The `file_info` table and the statements of FileInfoMapper over it. The
 * queries are functions of the table's rows; the statements that change the
 * table are methods of the table object.
 */
module FileInfoMapper {
  import opened Base
  import opened JavaStrings
  import opened FileInfoEntity
  import Ordering
  import Tables

  /** One stored row: the generated id and the record's column values. */
  datatype FileRow = FileRow(id: int, data: FileRecord)

  function RowId(row: FileRow): int {
    row.id
  }

  /** `ORDER BY upload_time DESC` */
  function NewestFirst(row: FileRow): Ordering.Key {
    Ordering.Key(-row.data.uploadTime, 0)
  }

  /** `selectById`: the row with that id, or null. */
  function SelectById(rows: seq<FileRow>, id: int): (r: Option<FileRow>)
    ensures r.Some? ==> r.value in rows && r.value.id == id
    ensures r.None? <==> forall i :: 0 <= i < |rows| ==> rows[i].id != id
  {
    Tables.FindById(rows, RowId, id)
  }

  /** `selectAll` */
  function SelectAll(rows: seq<FileRow>): seq<FileRow> {
    Ordering.SortBy(rows, NewestFirst)
  }

  /** `selectAll` returns every row exactly once, newest upload first. */
  lemma SelectAllNewestFirst(rows: seq<FileRow>)
    ensures multiset(SelectAll(rows)) == multiset(rows)
    ensures var all := SelectAll(rows);
            forall i, j :: 0 <= i < j < |all| ==> all[i].data.uploadTime >= all[j].data.uploadTime
  {
    Ordering.SortBySortsAndPermutes(rows, NewestFirst);
  }

  /**
   * `original_file_name LIKE '%kw%' OR description LIKE '%kw%'`; LIKE is a
   * substring test and a null name matches nothing.
   */
  predicate MatchesKeyword(keyword: string, row: FileRow) {
    || (row.data.originalFileName.Some? && Contains(row.data.originalFileName.value, keyword))
    || Contains(row.data.description, keyword)
  }

  /** `searchByKeyword` */
  function SearchByKeyword(rows: seq<FileRow>, keyword: string): seq<FileRow> {
    Ordering.SortBy(Ordering.Filter(rows, row => MatchesKeyword(keyword, row)), NewestFirst)
  }

  /**
   * `searchByKeyword` returns exactly the rows whose original name or
   * description contains the keyword, each once, newest first; it is
   * `selectAll` with the non-matching rows taken out.
   */
  lemma SearchFindsExactlyMatches(rows: seq<FileRow>, keyword: string)
    ensures var found := SearchByKeyword(rows, keyword);
            && (forall row :: row in found <==> row in rows && MatchesKeyword(keyword, row))
            && multiset(found) <= multiset(rows)
            && (forall i, j :: 0 <= i < j < |found| ==> found[i].data.uploadTime >= found[j].data.uploadTime)
            && found == Ordering.Filter(SelectAll(rows), row => MatchesKeyword(keyword, row))
  {
    var p := row => MatchesKeyword(keyword, row);
    var kept := Ordering.Filter(rows, p);
    Ordering.FilterMembers(rows, p);
    Ordering.SortBySortsAndPermutes(kept, NewestFirst);
    Ordering.FilterSortCommute(rows, p, NewestFirst);
    var found := SearchByKeyword(rows, keyword);
    forall row ensures row in found <==> row in rows && MatchesKeyword(keyword, row) {
      assert row in found <==> row in multiset(found);
      assert row in kept <==> row in multiset(kept);
      if row in rows && MatchesKeyword(keyword, row) {
        var i :| 0 <= i < |rows| && rows[i] == row;
      }
    }
  }

  /** `countAll` */
  function CountAll(rows: seq<FileRow>): (n: nat)
    ensures n == |SelectAll(rows)|
  {
    |rows|
  }

  /** `countByKeyword`: the same condition as the search, counted. */
  function CountByKeyword(rows: seq<FileRow>, keyword: string): (n: nat)
    ensures n == |SearchByKeyword(rows, keyword)|
  {
    Tables.CountWhere(rows, row => MatchesKeyword(keyword, row))
  }

  /** `updateDescription`: the new rows. */
  function WithDescription(rows: seq<FileRow>, id: int, description: string): (r: seq<FileRow>)
    ensures |r| == |rows|
    ensures forall i :: 0 <= i < |rows| ==>
              && r[i].id == rows[i].id
              && r[i].data == if rows[i].id == id then rows[i].data.(description := description) else rows[i].data
  {
    Tables.UpdateWhere(rows, RowId, id, (row: FileRow) => row.(data := row.data.(description := description)))
  }

  /** `incrementDownloadCount`: the new rows. */
  function WithDownloadCounted(rows: seq<FileRow>, id: int): (r: seq<FileRow>)
    ensures |r| == |rows|
    ensures forall i :: 0 <= i < |rows| ==>
              && r[i].id == rows[i].id
              && r[i].data == if rows[i].id == id
                              then rows[i].data.(downloadCount := rows[i].data.downloadCount + 1)
                              else rows[i].data
  {
    Tables.UpdateWhere(rows, RowId, id, (row: FileRow) => row.(data := row.data.(downloadCount := row.data.downloadCount + 1)))
  }

  /** `deleteById`: the new rows. */
  function WithoutId(rows: seq<FileRow>, id: int): seq<FileRow> {
    Tables.RemoveId(rows, RowId, id)
  }

  /**
   * After `deleteById(id)`, `selectById(id)` is null, every other row is
   * still there, no row is added, and exactly the matched rows are gone.
   */
  lemma DeleteRemovesOnlyThatRow(rows: seq<FileRow>, id: int)
    requires Tables.IdsIncreasing(rows, RowId)
    ensures var r := WithoutId(rows, id);
            && SelectById(r, id) == None
            && (forall row :: row in rows && row.id != id ==> row in r)
            && (forall row :: row in r ==> row in rows)
            && |r| == |rows| - Tables.Matched(rows, RowId, id)
  {
    Tables.RemoveIdRemovesOnlyThatRow(rows, RowId, id);
  }

  /** After `incrementDownloadCount(id)`, `selectById(id)` finds the same row with its count one higher. */
  lemma CountedRowIsFound(rows: seq<FileRow>, id: int)
    requires Tables.IdsIncreasing(rows, RowId)
    requires SelectById(rows, id).Some?
    ensures var row := SelectById(rows, id).value;
            SelectById(WithDownloadCounted(rows, id), id)
            == Some(row.(data := row.data.(downloadCount := row.data.downloadCount + 1)))
  {
    var row := SelectById(rows, id).value;
    var counted := WithDownloadCounted(rows, id);
    var i :| 0 <= i < |rows| && rows[i] == row;
    var after := SelectById(counted, id).value;
    var j :| 0 <= j < |counted| && counted[j] == after;
    assert rows[j].id == id;
    assert i == j;
  }

  /**
   * The download count of a row never decreases under `incrementDownloadCount`
   * and is left as it is by `updateDescription`.
   */
  lemma IncrementNeverDecreases(rows: seq<FileRow>, id: int, description: string)
    ensures forall i :: 0 <= i < |rows| ==>
              WithDownloadCounted(rows, id)[i].data.downloadCount >= rows[i].data.downloadCount
    ensures forall i :: 0 <= i < |rows| ==>
              WithDescription(rows, id, description)[i].data.downloadCount == rows[i].data.downloadCount
  {
  }

  /** The in-memory `file_info` table. */
  class FileInfoTable {
    var rows: seq<FileRow>
    var nextId: int

    /** Ids come from the auto-increment counter: increasing, and below the next one. */
    ghost predicate Valid()
      reads this
    {
      && Tables.IdsIncreasing(rows, RowId)
      && forall i :: 0 <= i < |rows| ==> rows[i].id < nextId
    }

    constructor ()
      ensures Valid() && rows == []
    {
      rows := [];
      nextId := 1;
    }

    /**
     * `insert`: one row with a fresh generated id and the record's values;
     * the id is written back into the entity.
     */
    method Insert(info: FileInfo) returns (count: int)
      requires Valid()
      modifies this, info`id
      ensures Valid()
      ensures info.id.Some? && !Tables.HasId(old(rows), RowId, info.id.value)
      ensures rows == old(rows) + [FileRow(info.id.value, info.Record())]
      ensures info.Record() == old(info.Record())
      ensures count == 1
    {
      var id := nextId;
      info.SetId(Some(id));
      rows := rows + [FileRow(id, info.Record())];
      nextId := nextId + 1;
      count := 1;
    }

    /** `updateDescription`: returns the number of rows matched. */
    method UpdateDescription(id: int, description: string) returns (count: int)
      requires Valid()
      modifies this`rows
      ensures Valid()
      ensures rows == WithDescription(old(rows), id, description)
      ensures count == Tables.Matched(old(rows), RowId, id)
    {
      count := Tables.Matched(rows, RowId, id);
      rows := WithDescription(rows, id, description);
    }

    /** `incrementDownloadCount`: returns the number of rows matched. */
    method IncrementDownloadCount(id: int) returns (count: int)
      requires Valid()
      modifies this`rows
      ensures Valid()
      ensures rows == WithDownloadCounted(old(rows), id)
      ensures count == Tables.Matched(old(rows), RowId, id)
    {
      count := Tables.Matched(rows, RowId, id);
      rows := WithDownloadCounted(rows, id);
    }

    /** `deleteById`: returns the number of rows removed. */
    method DeleteById(id: int) returns (count: int)
      requires Valid()
      modifies this`rows
      ensures Valid()
      ensures rows == WithoutId(old(rows), id)
      ensures count == Tables.Matched(old(rows), RowId, id)
    {
      Tables.RemoveIdRemovesOnlyThatRow(rows, RowId, id);
      count := Tables.Matched(rows, RowId, id);
      var kept := WithoutId(rows, id);
      forall i | 0 <= i < |kept| ensures kept[i].id < nextId {
        assert kept[i] in rows;
        var j :| 0 <= j < |rows| && rows[j] == kept[i];
      }
      rows := kept;
    }
  }
}
