/**
 * FileController's decisions: the upload guards, the download sequence
 * (look up, fetch, count, answer), the counting endpoint, and the choice
 * between listing and searching.
 */
module FileWeb {
  import opened Base
  import opened JavaStrings
  import opened Naming
  import FileInfoMapper
  import Tables
  import Files

  /** 50 * 1024 * 1024 bytes. */
  const MaxUploadBytes: int := 52428800

  /**
   * The upload guards, in order: an empty file, then a file over 50 MiB,
   * is answered 400 before the service is called.
   */
  function UploadGuard(upload: Files.Upload): (rejected: Option<Status>)
    ensures rejected.Some? ==> rejected.value == BadRequest400
    ensures rejected.None? <==> 0 < upload.size <= 50 * 1024 * 1024
  {
    if upload.size == 0 then Some(BadRequest400)
    else if upload.size > MaxUploadBytes then Some(BadRequest400)
    else None
  }

  /** The boundary: exactly 50 MiB passes, one byte more does not, nor does an empty file. */
  lemma UploadLimitIsInclusive(name: Option<string>)
    ensures UploadGuard(Files.Upload(name, MaxUploadBytes)).None?
    ensures UploadGuard(Files.Upload(name, MaxUploadBytes + 1)).Some?
    ensures UploadGuard(Files.Upload(name, 0)).Some?
  {
  }

  /** The download answer: status, body and the Content-Length header. */
  datatype DownloadResponse = DownloadResponse(status: Status, body: seq<byte>, contentLength: int)

  /** One download: the answer, the name fetched from FTP (if any), and the rows afterwards. */
  datatype DownloadStep = DownloadStep(response: DownloadResponse, fetched: Option<string>, rows: seq<FileInfoMapper.FileRow>)

  /**
   * `downloadFile`: a missing row is 404 without a fetch; a null fetch is 500
   * without counting; otherwise the count goes up before the response is
   * built, and a null original name then fails the Content-Disposition
   * encoding with 500, the count already raised.
   */
  function Download(rows: seq<FileInfoMapper.FileRow>, id: int, fetch: string -> Option<seq<byte>>): DownloadStep {
    var found := FileInfoMapper.SelectById(rows, id);
    if found.None? then DownloadStep(DownloadResponse(NotFound404, [], 0), None, rows)
    else
      var name := found.value.data.generatedFileName;
      var content := fetch(name);
      if content.None? then DownloadStep(DownloadResponse(InternalError500, [], 0), Some(name), rows)
      else
        var counted := FileInfoMapper.WithDownloadCounted(rows, id);
        if found.value.data.originalFileName.None? then DownloadStep(DownloadResponse(InternalError500, [], 0), Some(name), counted)
        else DownloadStep(DownloadResponse(Ok200, content.value, |content.value|), Some(name), counted)
  }

  /**
   * The download sequence: 404 exactly when the row is missing, and then no
   * fetch; no count change unless the fetch returned bytes; after a
   * successful fetch the row's count is one higher, nothing else changes,
   * and the answer is 200 exactly when the original name is non-null (500
   * otherwise); a 200 carries the fetched bytes with their length.
   */
  lemma {:induction false} DownloadCountsOnlyFetched(rows: seq<FileInfoMapper.FileRow>, id: int, fetch: string -> Option<seq<byte>>)
    requires Tables.IdsIncreasing(rows, FileInfoMapper.RowId)
    ensures var step := Download(rows, id, fetch);
            var found := FileInfoMapper.SelectById(rows, id);
            && (step.response.status == NotFound404 <==> found.None?)
            && (found.None? ==> step.fetched.None? && step.rows == rows)
            && (found.Some? ==> step.fetched == Some(found.value.data.generatedFileName))
            && (found.Some? && fetch(found.value.data.generatedFileName).None? ==>
                  step.response.status == InternalError500 && step.rows == rows)
            && (found.Some? && fetch(found.value.data.generatedFileName).Some? ==>
                  && FileInfoMapper.SelectById(step.rows, id)
                     == Some(found.value.(data := found.value.data.(downloadCount := found.value.data.downloadCount + 1)))
                  && (forall i :: 0 <= i < |rows| && rows[i].id != id ==> step.rows[i] == rows[i])
                  && (step.response.status == Ok200 <==> found.value.data.originalFileName.Some?)
                  && (step.response.status != Ok200 ==> step.response.status == InternalError500))
            && (step.response.status == Ok200 ==>
                  && found.Some? && fetch(found.value.data.generatedFileName) == Some(step.response.body)
                  && step.response.contentLength == |step.response.body|)
  {
    var found := FileInfoMapper.SelectById(rows, id);
    if found.Some? && fetch(found.value.data.generatedFileName).Some? {
      FileInfoMapper.CountedRowIsFound(rows, id);
    }
  }

  /** The counting endpoint applied n times to the same id, with no transfer at all. */
  function PostedTimes(rows: seq<FileInfoMapper.FileRow>, id: int, n: nat): seq<FileInfoMapper.FileRow> {
    if n == 0 then rows else FileInfoMapper.WithDownloadCounted(PostedTimes(rows, id, n - 1), id)
  }

  /**
   * The POST endpoint counts without fetching anything, so n requests raise
   * a row's count by n while no byte was transferred: the count does not
   * bound the successful downloads.
   */
  lemma {:induction false} PostedCountsWithoutTransfer(rows: seq<FileInfoMapper.FileRow>, id: int, n: nat)
    ensures |PostedTimes(rows, id, n)| == |rows|
    ensures forall i :: 0 <= i < |rows| ==> PostedTimes(rows, id, n)[i].id == rows[i].id
    ensures forall i :: 0 <= i < |rows| && rows[i].id == id ==>
              PostedTimes(rows, id, n)[i].data == rows[i].data.(downloadCount := rows[i].data.downloadCount + n)
    ensures forall i :: 0 <= i < |rows| && rows[i].id != id ==> PostedTimes(rows, id, n)[i] == rows[i]
  {
    if n > 0 {
      PostedCountsWithoutTransfer(rows, id, n - 1);
    }
  }

  /**
   * The keyword branch of `index` and `getFileList`: a non-null keyword that
   * is not blank after trimming searches with the trimmed keyword; anything
   * else lists every file.
   */
  function ListFiles(rows: seq<FileInfoMapper.FileRow>, keyword: Option<string>): seq<FileInfoMapper.FileRow> {
    if keyword.Some? && !IsBlank(keyword.value) then FileInfoMapper.SearchByKeyword(rows, Trim(keyword.value))
    else FileInfoMapper.SelectAll(rows)
  }

  /**
   * Surrounding blanks in the keyword make no difference, a blank keyword
   * lists everything, and a real keyword finds exactly the files whose name
   * or description contains its trimmed form.
   */
  lemma ListingIgnoresSurroundingBlanks(rows: seq<FileInfoMapper.FileRow>, keyword: string)
    ensures ListFiles(rows, Some(keyword)) == ListFiles(rows, Some(Trim(keyword)))
    ensures IsBlank(keyword) ==> ListFiles(rows, Some(keyword)) == ListFiles(rows, None)
    ensures !IsBlank(keyword) ==>
              forall row :: row in ListFiles(rows, Some(keyword)) <==>
                            row in rows && FileInfoMapper.MatchesKeyword(Trim(keyword), row)
  {
    var k := Trim(keyword);
    TrimIdempotent(keyword);
    assert IsBlank(k) == IsBlank(keyword);
    if !IsBlank(keyword) {
      assert ListFiles(rows, Some(keyword)) == FileInfoMapper.SearchByKeyword(rows, k);
      FileInfoMapper.SearchFindsExactlyMatches(rows, k);
    }
  }

  class FileController {
    const service: Files.FileService
    const catalog: FileInfoMapper.FileInfoTable

    constructor (service: Files.FileService, catalog: FileInfoMapper.FileInfoTable)
      ensures this.service == service && this.catalog == catalog
    {
      this.service := service;
      this.catalog := catalog;
    }

    /**
     * `uploadFile`: a rejected upload is 400 and the service makes no call;
     * otherwise 200 when the service returned the record, 500 when it threw.
     */
    method UploadFile(upload: Files.Upload, description: string, cdnPrefix: string,
                      token: string, timestamp: string, now: Base.Time,
                      stored: bool, insertCount: int) returns (status: Status, calls: seq<Files.Call>)
      requires IsToken(token) && IsTimestamp(timestamp)
      ensures UploadGuard(upload).Some? ==> status == BadRequest400 && calls == []
      ensures UploadGuard(upload).None? ==>
                && calls != [] && calls[0] == Files.FtpUpload(Files.StoredName(upload, token, timestamp))
                && (status == Ok200 <==> stored && insertCount > 0)
                && (status != Ok200 ==> status == InternalError500)
    {
      var rejected := UploadGuard(upload);
      if rejected.Some? {
        return rejected.value, [];
      }
      var outcome;
      outcome, calls := service.UploadFile(upload, description, cdnPrefix, token, timestamp, now, stored, insertCount);
      status := if outcome.Uploaded? then Ok200 else InternalError500;
    }

    /** `downloadFile`, with `fetch` standing for the FTP download of a stored name. */
    method DownloadFile(id: int, fetch: string -> Option<seq<byte>>) returns (response: DownloadResponse, fetched: Option<string>)
      requires catalog.Valid()
      modifies catalog
      ensures catalog.Valid()
      ensures DownloadStep(response, fetched, catalog.rows) == Download(old(catalog.rows), id, fetch)
    {
      var found := FileInfoMapper.SelectById(catalog.rows, id);
      if found.None? {
        return DownloadResponse(NotFound404, [], 0), None;
      }
      var name := found.value.data.generatedFileName;
      fetched := Some(name);
      var content := fetch(name);
      if content.None? {
        return DownloadResponse(InternalError500, [], 0), fetched;
      }
      var _ := catalog.IncrementDownloadCount(id);
      if found.value.data.originalFileName.None? {
        return DownloadResponse(InternalError500, [], 0), fetched;
      }
      response := DownloadResponse(Ok200, content.value, |content.value|);
    }

    /** The POST `/file/{id}/download` endpoint: counts and answers 200, fetching nothing. */
    method IncrementDownloadCount(id: int) returns (status: Status)
      requires catalog.Valid()
      modifies catalog
      ensures catalog.Valid()
      ensures catalog.rows == PostedTimes(old(catalog.rows), id, 1)
      ensures status == Ok200
    {
      var _ := catalog.IncrementDownloadCount(id);
      status := Ok200;
    }
  }
}
