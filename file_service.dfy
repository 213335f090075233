/**
 * FileService's two coordinating operations: an upload stores the payload on
 * FTP and then writes the catalog row; a delete reads the row, deletes the
 * remote file and then deletes the row. The FTP results and the mapper's
 * results are inputs; each operation also returns the calls it made, in order.
 */
module Files {
  import opened Base
  import opened Naming
  import opened FileInfoEntity
  import FileInfoMapper
  import Tables
  import Ftp

  /** A call FileService makes on FtpService or on FileInfoMapper. */
  datatype Call =
    | FtpUpload(fileName: string)
    | FtpDelete(fileName: string)
    | CatalogInsert(record: FileRecord)
    | CatalogSelect(id: int)
    | CatalogDelete(id: int)
    | CatalogUpdateDescription(id: int, description: string)

  /** What the multipart upload reports: its original name (possibly null) and its size. */
  datatype Upload = Upload(originalFilename: Option<string>, size: nat)

  /** The upload's result: the saved record, or the RuntimeException `uploadFile` throws. */
  datatype UploadOutcome = Uploaded(info: FileRecord) | UploadFailed

  /** The name under which an upload is stored: token, timestamp and the original extension. */
  function StoredName(upload: Upload, token: string, timestamp: string): string
    requires IsToken(token) && IsTimestamp(timestamp)
  {
    GenerateFileName(token, timestamp, GetFileExtension(upload.originalFilename))
  }

  /** The record a successful upload saves and returns. */
  function SavedRecord(upload: Upload, description: string, cdnPrefix: string, basePath: string,
                       name: string, now: Time): FileRecord
  {
    FileRecord(upload.originalFilename, name, GetFileExtension(upload.originalFilename), upload.size,
               description, cdnPrefix, BuildFullUrl(cdnPrefix, name), FtpPath(basePath, name), now, 0)
  }

  class FileService {
    const ftp: Ftp.FtpService

    constructor (ftp: Ftp.FtpService)
      ensures this.ftp == ftp
    {
      this.ftp := ftp;
    }

    /**
     * `uploadFile`. The catalog insert runs only after the FTP store
     * succeeded; a failed store or a non-positive insert count makes the
     * upload fail, and in neither case is the stored file deleted again.
     * `token` and `timestamp` stand for the UUID prefix and the formatted clock.
     */
    method UploadFile(upload: Upload, description: string, cdnPrefix: string,
                      token: string, timestamp: string, now: Time,
                      stored: bool, insertCount: int) returns (outcome: UploadOutcome, calls: seq<Call>)
      requires IsToken(token) && IsTimestamp(timestamp)
      ensures var name := StoredName(upload, token, timestamp);
              && |calls| >= 1 && calls[0] == FtpUpload(name)
              && (!stored ==> calls == [FtpUpload(name)] && outcome == UploadFailed)
              && (stored ==> calls == [FtpUpload(name), CatalogInsert(SavedRecord(upload, description, cdnPrefix, ftp.basePath, name, now))])
              && (outcome.Uploaded? <==> stored && insertCount > 0)
              && (outcome.Uploaded? ==> outcome.info == SavedRecord(upload, description, cdnPrefix, ftp.basePath, name, now))
      ensures forall i :: 0 <= i < |calls| ==> !calls[i].FtpDelete?
    {
      var ext := GetFileExtension(upload.originalFilename);
      var name := GenerateFileName(token, timestamp, ext);
      calls := [FtpUpload(name)];
      if !stored {
        return UploadFailed, calls;
      }
      var fullUrl := BuildFullUrl(cdnPrefix, name);
      var ftpPath := FtpPath(ftp.basePath, name);
      var info := new FileInfo(upload.originalFilename, name, ext, upload.size, description,
                               cdnPrefix, fullUrl, ftpPath, now);
      calls := calls + [CatalogInsert(info.Record())];
      if insertCount > 0 {
        outcome := Uploaded(info.Record());
      } else {
        outcome := UploadFailed;
      }
    }

    /**
     * `deleteFile`. A missing row ends it with false before FTP is
     * contacted; otherwise the row is deleted whatever the FTP delete
     * returned, and the result is whether the row delete matched.
     */
    method DeleteFile(id: int, found: Option<FileRecord>, ftpDeleted: bool, deleteCount: int)
      returns (ok: bool, calls: seq<Call>)
      ensures found.None? ==> !ok && calls == [CatalogSelect(id)]
      ensures found.Some? ==> calls == [CatalogSelect(id), FtpDelete(found.value.generatedFileName), CatalogDelete(id)]
      ensures ok <==> found.Some? && deleteCount > 0
    {
      calls := [CatalogSelect(id)];
      if found.None? {
        return false, calls;
      }
      calls := calls + [FtpDelete(found.value.generatedFileName)];
      if !ftpDeleted {
        // the failure is only logged; the row is deleted all the same
      }
      calls := calls + [CatalogDelete(id)];
      ok := deleteCount > 0;
    }

    /** `updateFileDescription`: true exactly when the update matched a row. */
    method UpdateFileDescription(id: int, description: string, updateCount: int)
      returns (ok: bool, calls: seq<Call>)
      ensures calls == [CatalogUpdateDescription(id, description)]
      ensures ok <==> updateCount > 0
    {
      calls := [CatalogUpdateDescription(id, description)];
      ok := updateCount > 0;
    }
  }

  /**
   * With the table's own answers, `deleteFile` succeeds exactly when the row
   * exists, whatever FTP did, and afterwards the row is gone.
   */
  lemma DeleteSucceedsIffRowExists(rows: seq<FileInfoMapper.FileRow>, id: int)
    requires Tables.IdsIncreasing(rows, FileInfoMapper.RowId)
    ensures (Tables.Matched(rows, FileInfoMapper.RowId, id) > 0) <==> FileInfoMapper.SelectById(rows, id).Some?
    ensures FileInfoMapper.SelectById(FileInfoMapper.WithoutId(rows, id), id) == None
  {
    FileInfoMapper.DeleteRemovesOnlyThatRow(rows, id);
    if FileInfoMapper.SelectById(rows, id).Some? {
      var row := FileInfoMapper.SelectById(rows, id).value;
      var i :| 0 <= i < |rows| && rows[i] == row;
    }
  }

  /** With the table's own answer, `updateFileDescription` succeeds exactly when the row exists. */
  lemma UpdateSucceedsIffRowExists(rows: seq<FileInfoMapper.FileRow>, id: int, description: string)
    ensures (Tables.Matched(rows, FileInfoMapper.RowId, id) > 0) <==> FileInfoMapper.SelectById(rows, id).Some?
    ensures FileInfoMapper.SelectById(rows, id).Some? ==>
              FileInfoMapper.SelectById(FileInfoMapper.WithDescription(rows, id, description), id).Some?
  {
    if FileInfoMapper.SelectById(rows, id).Some? {
      var row := FileInfoMapper.SelectById(rows, id).value;
      var i :| 0 <= i < |rows| && rows[i] == row;
      assert FileInfoMapper.WithDescription(rows, id, description)[i].id == id;
    }
  }
}
