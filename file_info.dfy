/** The `FileInfo` entity: one uploaded file's catalog record. */
module FileInfoEntity {
  import opened Base

  /** The values of a FileInfo's fields other than its id. */
  datatype FileRecord = FileRecord(
    originalFileName: Option<string>,
    generatedFileName: string,
    fileExtension: string,
    fileSize: int,
    description: string,
    cdnPrefix: string,
    fullUrl: string,
    ftpPath: string,
    uploadTime: Time,
    downloadCount: int)

  class FileInfo {
    var id: Option<int>
    var originalFileName: Option<string>
    var generatedFileName: string
    var fileExtension: string
    var fileSize: int
    var description: string
    var cdnPrefix: string
    var fullUrl: string
    var ftpPath: string
    var uploadTime: Time
    var downloadCount: int

    /**
     * The eight-argument constructor: the arguments are copied unchanged, the
     * upload time is the clock reading `now`, the download count starts at 0
     * and the id stays unset until the catalog insert assigns one.
     */
    constructor (originalFileName: Option<string>, generatedFileName: string, fileExtension: string,
                 fileSize: int, description: string, cdnPrefix: string, fullUrl: string,
                 ftpPath: string, now: Time)
      ensures id == None
      ensures Record() == FileRecord(originalFileName, generatedFileName, fileExtension, fileSize,
                                     description, cdnPrefix, fullUrl, ftpPath, now, 0)
    {
      id := None;
      this.originalFileName := originalFileName;
      this.generatedFileName := generatedFileName;
      this.fileExtension := fileExtension;
      this.fileSize := fileSize;
      this.description := description;
      this.cdnPrefix := cdnPrefix;
      this.fullUrl := fullUrl;
      this.ftpPath := ftpPath;
      uploadTime := now;
      downloadCount := 0;
    }

    function Record(): FileRecord
      reads this
    {
      FileRecord(originalFileName, generatedFileName, fileExtension, fileSize, description,
                 cdnPrefix, fullUrl, ftpPath, uploadTime, downloadCount)
    }

    method SetId(id: Option<int>)
      modifies this`id
      ensures this.id == id && Record() == old(Record())
    {
      this.id := id;
    }

    method SetOriginalFileName(originalFileName: Option<string>)
      modifies this`originalFileName
      ensures Record() == old(Record()).(originalFileName := originalFileName)
    {
      this.originalFileName := originalFileName;
    }

    method SetGeneratedFileName(generatedFileName: string)
      modifies this`generatedFileName
      ensures Record() == old(Record()).(generatedFileName := generatedFileName)
    {
      this.generatedFileName := generatedFileName;
    }

    method SetFileExtension(fileExtension: string)
      modifies this`fileExtension
      ensures Record() == old(Record()).(fileExtension := fileExtension)
    {
      this.fileExtension := fileExtension;
    }

    method SetFileSize(fileSize: int)
      modifies this`fileSize
      ensures Record() == old(Record()).(fileSize := fileSize)
    {
      this.fileSize := fileSize;
    }

    method SetDescription(description: string)
      modifies this`description
      ensures Record() == old(Record()).(description := description)
    {
      this.description := description;
    }

    method SetCdnPrefix(cdnPrefix: string)
      modifies this`cdnPrefix
      ensures Record() == old(Record()).(cdnPrefix := cdnPrefix)
    {
      this.cdnPrefix := cdnPrefix;
    }

    method SetFullUrl(fullUrl: string)
      modifies this`fullUrl
      ensures Record() == old(Record()).(fullUrl := fullUrl)
    {
      this.fullUrl := fullUrl;
    }

    method SetFtpPath(ftpPath: string)
      modifies this`ftpPath
      ensures Record() == old(Record()).(ftpPath := ftpPath)
    {
      this.ftpPath := ftpPath;
    }

    method SetUploadTime(uploadTime: Time)
      modifies this`uploadTime
      ensures Record() == old(Record()).(uploadTime := uploadTime)
    {
      this.uploadTime := uploadTime;
    }

    method SetDownloadCount(downloadCount: int)
      modifies this`downloadCount
      ensures Record() == old(Record()).(downloadCount := downloadCount)
    {
      this.downloadCount := downloadCount;
    }
  }
}
