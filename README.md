# ftp-cdn-system-demo, modelled in Dafny

The system is a small file-hosting service. An uploaded file is stored on an FTP server under a
generated name. Its metadata goes into the `file_info` table, together with a public URL built
from a configurable CDN prefix. The CDN prefixes live in a second table, `cdn_prefix`, and at most
one of them is meant to be the default.

The model covers:

- the name and URL builders of `FileService`;
- the order in which `FileService` calls FTP and the catalog on upload and delete;
- the FTP session control flow of `FtpService`, including its directory walk;
- the two entities and their setters;
- both mappers, as in-memory tables;
- the request decisions of the two controllers.

Modules, one per file:

- `Base` (base.dfy): shared values. These are a nullable reference (`Option`), bytes, clock
  readings and HTTP statuses.
- `JavaStrings` (strings.dfy): the `java.lang.String` operations the code relies on. These are
  `startsWith`, `endsWith`, `contains`, `lastIndexOf`, `trim` (removes every character up to
  U+0020) and `split` on one character (drops trailing empty pieces).
- `Ordering` (ordering.dfy): `ORDER BY` as a sort on a two-part key, and `WHERE` as an
  order-keeping filter. It proves that sorting permutes and sorts, and that filter and sort commute.
- `Tables` (tables.dfy): the id-keyed row operations both mappers share.
  - lookup by id;
  - the number of rows an `UPDATE ... WHERE id = ?` matches;
  - a pointwise update;
  - a delete.
- `Naming` (naming.dfy): `getFileExtension`, `generateFileName`, `buildFullUrl` and the FTP path.
- `Ftp` (ftp.dfy):
  - an `FtpClient` class whose state is the command log and `isConnected()`;
  - `createDirectoryIfNotExists` as a loop;
  - `FtpService.uploadFile`, `downloadFile` and `deleteFile` as methods, each followed by its
    `finally` block.
  - The server is an oracle `Server = (seq<Command>, Command) -> Reply`. Its reply to each call is
    either the boolean the client returned or an IOException (`Threw`), and it may depend on
    everything sent before in the session.
- `FileInfoEntity`, `CdnPrefixEntity` (file_info.dfy, cdn_prefix.dfy): the mutable entities as
  classes with setters. Each class also has a `Record()` view of its column values.
- `FileInfoMapper`, `CdnPrefixMapper` (file_info_mapper.dfy, cdn_prefix_mapper.dfy): each table is a
  class holding `rows` and the auto-increment counter.
  - The queries are functions of `rows`.
  - The statements that change the table are methods, each stated against a function of the old rows.
- `Files` (file_service.dfy): `FileService.uploadFile`, `deleteFile` and `updateFileDescription`.
  - The FTP result and the mapper results are inputs.
  - Each method also returns the calls it made, in order.
- `FileWeb` (file_controller.dfy): the upload guards, the download sequence, the POST counting
  endpoint and the keyword branch of the listing.
- `PrefixWeb` (cdn_prefix_controller.dfy): the add and update validation, and the not-found
  branch of `getCdnPrefix`.

All source paths below are under `src/main/java/com/nyx/ftpcdn/`, written out in full.

## Model

| member | source | states |
|---|---|---|
| Naming.GetFileExtension | src/main/java/com/nyx/ftpcdn/service/FileService.java:211-222 | "" for a null or empty name and for a name without '.'; otherwise a non-empty suffix of the name that starts with '.' and has no other '.' |
| Naming.ExtensionIsOnlyDotSuffix | src/main/java/com/nyx/ftpcdn/service/FileService.java:216-221 | any suffix that starts with '.' and contains no further '.' is exactly the extension returned (the last-dot suffix), an independent characterisation |
| Naming.ExtensionExamples | src/main/java/com/nyx/ftpcdn/service/FileService.java:212-221 | "a.tar.gz" gives ".gz", "file." gives ".", "README" and null give "" |
| Naming.GenerateFileName | src/main/java/com/nyx/ftpcdn/service/FileService.java:194-203 | for an 8-hex-digit token and a 14-digit timestamp, the name has length 23 + \|ext\|, starts with the token, has '_' at index 8 and ends with ext |
| Naming.ParseStorageName | src/main/java/com/nyx/ftpcdn/service/FileService.java:196-202 | a name read back as token, timestamp and extension has a valid token and a valid timestamp |
| Naming.ParseGenerated | src/main/java/com/nyx/ftpcdn/service/FileService.java:194-203 | parsing a generated name gives back exactly the token, timestamp and extension it was built from |
| Naming.GenerateParsed | src/main/java/com/nyx/ftpcdn/service/FileService.java:194-203 | every name of the shape `<8 hex>_<14 digits><ext>` is the generated name of its parsed parts |
| Naming.NamesCollideOnlyOnEqualParts | src/main/java/com/nyx/ftpcdn/service/FileService.java:194-203 | two generated names are equal only if token, timestamp and extension are all equal |
| Naming.GeneratedNameKeepsExtension | src/main/java/com/nyx/ftpcdn/service/FileService.java:44-47 | the extension read from the generated storage name is the extension of the uploaded name |
| Naming.BuildFullUrl | src/main/java/com/nyx/ftpcdn/service/FileService.java:231-237 | the URL starts with the prefix and ends with "/" + name, and is exactly one character longer than prefix and name together unless the prefix already ends with '/', so prefix and name are joined by exactly one '/' |
| Naming.TrailingSlashMakesNoDifference | src/main/java/com/nyx/ftpcdn/service/FileService.java:232-236 | a prefix with or without a trailing '/' yields the same URL |
| Naming.UrlExample | src/main/java/com/nyx/ftpcdn/service/FileService.java:232-233 | a prefix ending in '/' is followed directly by the name |
| Naming.FtpPath | src/main/java/com/nyx/ftpcdn/service/FileService.java:59 | the path is the base path, one '/', then the name: its length and both ends are fixed |
| Naming.FtpPathIsUrlJoinOnlyWithoutTrailingSlash | src/main/java/com/nyx/ftpcdn/service/FileService.java:56-59 | the FTP path equals the URL-style join exactly when the base path does not end with '/' (no normalisation) |
| Files.FileService.constructor | src/main/java/com/nyx/ftpcdn/service/FileService.java:29-30 | the service keeps the FtpService it is given |
| Files.FileService.UploadFile | src/main/java/com/nyx/ftpcdn/service/FileService.java:40-87 | the FTP store is the first call; a failed store fails with no further call; otherwise the insert of the saved record follows (prefix verbatim, generated name, extension, URL, FTP path); success iff store succeeded and insert count > 0; never an FTP delete |
| Files.FileService.DeleteFile | src/main/java/com/nyx/ftpcdn/service/FileService.java:163-186 | a missing row gives false after only the select; otherwise select, FTP delete, row delete whatever FTP returned; true iff the row existed and the delete count > 0 |
| Files.FileService.UpdateFileDescription | src/main/java/com/nyx/ftpcdn/service/FileService.java:133-136 | one update call; true iff the update count > 0 |
| Files.DeleteSucceedsIffRowExists | src/main/java/com/nyx/ftpcdn/service/FileService.java:166-179 | with the table's own answers, the delete matches a row iff selectById finds it, and afterwards selectById finds nothing |
| Files.UpdateSucceedsIffRowExists | src/main/java/com/nyx/ftpcdn/service/FileService.java:133-136 | with the table's own answer, the update matches a row iff selectById finds it, and the row is still found afterwards |
| Ftp.FtpClient.constructor | src/main/java/com/nyx/ftpcdn/service/FtpService.java:45 | a fresh client has sent nothing and is not connected |
| Ftp.FtpClient.Send | src/main/java/com/nyx/ftpcdn/service/FtpService.java:48-86 | one client call: the command is appended to the log, the reply is the server's, and `isConnected()` follows connect and disconnect |
| Ftp.Close | src/main/java/com/nyx/ftpcdn/service/FtpService.java:92-102 | a disconnected client is untouched; a connected one is sent logout, then disconnect unless logout threw, in which case it stays connected; the earlier log is kept |
| Ftp.Release | src/main/java/com/nyx/ftpcdn/service/FtpService.java:92-102 | the finally block leaves the client in the state Close describes |
| Ftp.CurrentDirIsRooted | src/main/java/com/nyx/ftpcdn/service/FtpService.java:155-160 | after the loop has visited some pieces, currentDir is "/" + s1 + ... + "/" + sk over the non-empty ones |
| Ftp.ProbesFollowSegments | src/main/java/com/nyx/ftpcdn/service/FtpService.java:154-160 | the number of probes equals the number of non-empty segments, and the k-th probe is the join of the first k + 1 segments, so each extends the previous by one |
| Ftp.SameSegmentsSameProbes | src/main/java/com/nyx/ftpcdn/service/FtpService.java:157-158 | leading, trailing or doubled '/' change neither the probes nor currentDir |
| Ftp.ProbesOfPrefix | src/main/java/com/nyx/ftpcdn/service/FtpService.java:156-170 | the probes of a prefix of the pieces are a prefix of all the probes |
| Ftp.Walk | src/main/java/com/nyx/ftpcdn/service/FtpService.java:156-171 | the walk keeps the earlier log and the connection flag |
| Ftp.WalkSendsOnlyDirectoryCommands | src/main/java/com/nyx/ftpcdn/service/FtpService.java:156-171 | everything the walk adds to the log is a change-directory or make-directory command |
| Ftp.WalkStopsAtException | src/main/java/com/nyx/ftpcdn/service/FtpService.java:156-171 | once an IOException has ended the walk, the remaining paths send nothing |
| Ftp.ChangedIntoAppend | src/main/java/com/nyx/ftpcdn/service/FtpService.java:163 | the directories changed into by two command runs are those of the first followed by those of the second |
| Ftp.ProbeSent | src/main/java/com/nyx/ftpcdn/service/FtpService.java:163-166 | one probe changes into its path once, and sends make-directory right after exactly when the change returned false |
| Ftp.WalkVisitsEveryPath | src/main/java/com/nyx/ftpcdn/service/FtpService.java:156-170 | without an exception every path is changed into, in order, whatever make-directory returned |
| Ftp.WalkThrowsOnlyOnException | src/main/java/com/nyx/ftpcdn/service/FtpService.java:156-171 | a walk reported as failed ended with a command whose reply was an IOException |
| Ftp.WalkCreatesOnlyMissing | src/main/java/com/nyx/ftpcdn/service/FtpService.java:163-166 | make-directory is sent only right after changing into the same path returned false, and every such failed change is followed by it |
| Ftp.CreateDirectoryIfNotExists | src/main/java/com/nyx/ftpcdn/service/FtpService.java:153-172 | the loop leaves the client exactly as the walk over the probes of `split("/")` does, and reports whether an IOException ended it |
| Ftp.Open | src/main/java/com/nyx/ftpcdn/service/FtpService.java:48-65 | the session goes on iff connect gave a positive reply, login returned true and setting binary mode did not throw, and its log is then connect, login, binary |
| Ftp.CloseAdds | src/main/java/com/nyx/ftpcdn/service/FtpService.java:92-102 | the finally block adds only logout and disconnect commands after the existing log |
| Ftp.UploadBodyShape | src/main/java/com/nyx/ftpcdn/service/FtpService.java:48-91 | before the finally block the upload sends at most one transfer; it is last, it is preceded by connect, login, binary mode and a change into the base directory, and it decides the result |
| Ftp.UploadSucceedsOnlyByStore | src/main/java/com/nyx/ftpcdn/service/FtpService.java:51-91 | the only transfer is storing fileName, right after changing into the base path and only after a positive connect reply and a successful login; the result is true iff that store returned true |
| Ftp.DownloadBodyShape | src/main/java/com/nyx/ftpcdn/service/FtpService.java:184-224 | before the finally block the download sends at most one transfer, retrieve, as the fifth command, and the bytes follow its reply |
| Ftp.DownloadReturnsRetrievedBytes | src/main/java/com/nyx/ftpcdn/service/FtpService.java:187-224 | retrieve is sent only after a positive connect reply and a successful login; the bytes are returned iff retrieve returned true, null otherwise |
| Ftp.DeleteIgnoresReplyAndLogin | src/main/java/com/nyx/ftpcdn/service/FtpService.java:115-129 | when nothing throws before it, delete is the fourth command whatever connect and login returned, and its reply is the result |
| Ftp.DeleteFailsWithoutDelete | src/main/java/com/nyx/ftpcdn/service/FtpService.java:115-134 | when connect, login or the change into the base path throws, nothing is deleted and the result is false |
| Ftp.FtpService.constructor | src/main/java/com/nyx/ftpcdn/service/FtpService.java:34-35 | the service keeps its configured base path |
| Ftp.FtpService.UploadFile | src/main/java/com/nyx/ftpcdn/service/FtpService.java:44-103 | result and final client state are those of the upload session followed by the finally block |
| Ftp.FtpService.DownloadFile | src/main/java/com/nyx/ftpcdn/service/FtpService.java:180-236 | bytes and final client state are those of the download session followed by the finally block |
| Ftp.FtpService.DeleteFile | src/main/java/com/nyx/ftpcdn/service/FtpService.java:111-145 | result and final client state are those of the delete session followed by the finally block |
| FileInfoEntity.FileInfo.constructor | src/main/java/com/nyx/ftpcdn/entity/FileInfo.java:26-39 | the eight arguments are copied unchanged, uploadTime is the clock reading, downloadCount is 0 and id is unset |
| FileInfoEntity.FileInfo.SetId | src/main/java/com/nyx/ftpcdn/entity/FileInfo.java:46-48 | sets the id and leaves every column value unchanged |
| FileInfoEntity.FileInfo.SetOriginalFileName | src/main/java/com/nyx/ftpcdn/entity/FileInfo.java:54-56 | changes only originalFileName |
| FileInfoEntity.FileInfo.SetGeneratedFileName | src/main/java/com/nyx/ftpcdn/entity/FileInfo.java:62-64 | changes only generatedFileName |
| FileInfoEntity.FileInfo.SetFileExtension | src/main/java/com/nyx/ftpcdn/entity/FileInfo.java:70-72 | changes only fileExtension |
| FileInfoEntity.FileInfo.SetFileSize | src/main/java/com/nyx/ftpcdn/entity/FileInfo.java:78-80 | changes only fileSize |
| FileInfoEntity.FileInfo.SetDescription | src/main/java/com/nyx/ftpcdn/entity/FileInfo.java:86-88 | changes only description |
| FileInfoEntity.FileInfo.SetCdnPrefix | src/main/java/com/nyx/ftpcdn/entity/FileInfo.java:94-96 | changes only cdnPrefix |
| FileInfoEntity.FileInfo.SetFullUrl | src/main/java/com/nyx/ftpcdn/entity/FileInfo.java:102-104 | changes only fullUrl |
| FileInfoEntity.FileInfo.SetFtpPath | src/main/java/com/nyx/ftpcdn/entity/FileInfo.java:110-112 | changes only ftpPath |
| FileInfoEntity.FileInfo.SetUploadTime | src/main/java/com/nyx/ftpcdn/entity/FileInfo.java:118-120 | changes only uploadTime |
| FileInfoEntity.FileInfo.SetDownloadCount | src/main/java/com/nyx/ftpcdn/entity/FileInfo.java:126-128 | changes only downloadCount |
| CdnPrefixEntity.CdnPrefix.constructor | src/main/java/com/nyx/ftpcdn/entity/CdnPrefix.java:23-31 | name, prefix, description and isDefault (possibly null) are copied unchanged; isActive is true for a null argument and the argument otherwise; both times are set; id is unset |
| CdnPrefixEntity.CdnPrefix.SetId | src/main/java/com/nyx/ftpcdn/entity/CdnPrefix.java:38-40 | sets the id and leaves every column value unchanged |
| CdnPrefixEntity.CdnPrefix.SetName | src/main/java/com/nyx/ftpcdn/entity/CdnPrefix.java:46-48 | changes only name |
| CdnPrefixEntity.CdnPrefix.SetPrefix | src/main/java/com/nyx/ftpcdn/entity/CdnPrefix.java:54-56 | changes only prefix |
| CdnPrefixEntity.CdnPrefix.SetDescription | src/main/java/com/nyx/ftpcdn/entity/CdnPrefix.java:62-64 | changes only description |
| CdnPrefixEntity.CdnPrefix.SetIsDefault | src/main/java/com/nyx/ftpcdn/entity/CdnPrefix.java:70-72 | changes only isDefault |
| CdnPrefixEntity.CdnPrefix.SetIsActive | src/main/java/com/nyx/ftpcdn/entity/CdnPrefix.java:78-80 | changes only isActive |
| CdnPrefixEntity.CdnPrefix.SetCreateTime | src/main/java/com/nyx/ftpcdn/entity/CdnPrefix.java:86-88 | changes only createTime |
| CdnPrefixEntity.CdnPrefix.SetUpdateTime | src/main/java/com/nyx/ftpcdn/entity/CdnPrefix.java:94-96 | changes only updateTime |
| FileInfoMapper.SelectById | src/main/java/com/nyx/ftpcdn/mapper/FileInfoMapper.java:28-29 | a found row is in the table with that id; null iff no row has that id |
| FileInfoMapper.SelectAllNewestFirst | src/main/java/com/nyx/ftpcdn/mapper/FileInfoMapper.java:34-35 | every row exactly once, ordered by upload time, newest first |
| FileInfoMapper.SearchFindsExactlyMatches | src/main/java/com/nyx/ftpcdn/mapper/FileInfoMapper.java:40-42 | exactly the rows whose original name or description contains the keyword, each at most once, newest first; equal to selectAll with the other rows removed |
| FileInfoMapper.CountAll | src/main/java/com/nyx/ftpcdn/mapper/FileInfoMapper.java:65-66 | equals the size of selectAll |
| FileInfoMapper.CountByKeyword | src/main/java/com/nyx/ftpcdn/mapper/FileInfoMapper.java:71-73 | equals the size of searchByKeyword for the same keyword |
| FileInfoMapper.WithDescription | src/main/java/com/nyx/ftpcdn/mapper/FileInfoMapper.java:47-48 | only the description of the rows with that id changes; ids and every other row are kept |
| FileInfoMapper.WithDownloadCounted | src/main/java/com/nyx/ftpcdn/mapper/FileInfoMapper.java:53-54 | the count of the rows with that id goes up by exactly 1; nothing else changes |
| FileInfoMapper.DeleteRemovesOnlyThatRow | src/main/java/com/nyx/ftpcdn/mapper/FileInfoMapper.java:28-29 | after deleteById, selectById finds nothing, every other row is kept, none is added, and exactly the matched rows are gone |
| FileInfoMapper.CountedRowIsFound | src/main/java/com/nyx/ftpcdn/mapper/FileInfoMapper.java:53-54 | after the increment, selectById returns the same row with its count one higher |
| FileInfoMapper.IncrementNeverDecreases | src/main/java/com/nyx/ftpcdn/mapper/FileInfoMapper.java:47-54 | no count decreases under the increment, and the description update leaves counts alone |
| FileInfoMapper.FileInfoTable.constructor | src/main/java/com/nyx/ftpcdn/mapper/FileInfoMapper.java:13-74 | an empty table whose id invariant holds |
| FileInfoMapper.FileInfoTable.Insert | src/main/java/com/nyx/ftpcdn/mapper/FileInfoMapper.java:18-23 | appends exactly one row with a fresh generated id and the entity's values, writes the id back into the entity, returns 1 |
| FileInfoMapper.FileInfoTable.UpdateDescription | src/main/java/com/nyx/ftpcdn/mapper/FileInfoMapper.java:47-48 | the rows become WithDescription of the old rows; the count is the number of rows matched (0 for a missing id) |
| FileInfoMapper.FileInfoTable.IncrementDownloadCount | src/main/java/com/nyx/ftpcdn/mapper/FileInfoMapper.java:53-54 | the rows become WithDownloadCounted of the old rows; the count is the number of rows matched |
| FileInfoMapper.FileInfoTable.DeleteById | src/main/java/com/nyx/ftpcdn/mapper/FileInfoMapper.java:59-60 | the rows lose exactly those with that id; the count is the number removed |
| CdnPrefixMapper.SelectById | src/main/java/com/nyx/ftpcdn/mapper/CdnPrefixMapper.java:26-27 | a found row is in the table with that id; null iff no row has that id |
| CdnPrefixMapper.SelectAllDefaultFirst | src/main/java/com/nyx/ftpcdn/mapper/CdnPrefixMapper.java:38-39 | every row exactly once; default rows first, then non-default, then unset; ascending create time within a group |
| CdnPrefixMapper.SelectAllActiveIsActiveSelectAll | src/main/java/com/nyx/ftpcdn/mapper/CdnPrefixMapper.java:32-33 | selectAllActive is selectAll with the inactive rows removed: exactly the active rows, in the same order |
| CdnPrefixMapper.SelectDefault | src/main/java/com/nyx/ftpcdn/mapper/CdnPrefixMapper.java:44-45 | a returned row is in the table, default and active; null iff no row is both |
| CdnPrefixMapper.Overwritten | src/main/java/com/nyx/ftpcdn/mapper/CdnPrefixMapper.java:50-52 | the matching row gets the new name, prefix, description, flags and update time but keeps id and create time; other rows are unchanged; a null id matches nothing |
| CdnPrefixMapper.ClearedDefaults | src/main/java/com/nyx/ftpcdn/mapper/CdnPrefixMapper.java:57-58 | every row becomes non-default and nothing else changes |
| CdnPrefixMapper.WithDefault | src/main/java/com/nyx/ftpcdn/mapper/CdnPrefixMapper.java:63-64 | only the rows with that id become default; every other row is unchanged |
| CdnPrefixMapper.DeleteRemovesOnlyThatRow | src/main/java/com/nyx/ftpcdn/mapper/CdnPrefixMapper.java:69-70 | after deleteById, selectById finds nothing, every other row is kept, none is added, and exactly the matched rows are gone |
| CdnPrefixMapper.CountByPrefix | src/main/java/com/nyx/ftpcdn/mapper/CdnPrefixMapper.java:75-76 | zero iff every row with that prefix is the excluded id, so a row never conflicts with itself |
| CdnPrefixMapper.CountByName | src/main/java/com/nyx/ftpcdn/mapper/CdnPrefixMapper.java:81-82 | zero iff every row with that name is the excluded id |
| CdnPrefixMapper.ClearThenSetLeavesOneDefault | src/main/java/com/nyx/ftpcdn/mapper/CdnPrefixMapper.java:55-64 | clearAllDefault then setDefault(id) changes only the default flags; exactly one row is default if the id exists and none otherwise; selectDefault then finds only that row, and finds it when it is active |
| CdnPrefixMapper.CdnPrefixTable.constructor | src/main/java/com/nyx/ftpcdn/mapper/CdnPrefixMapper.java:13-83 | an empty table whose id invariant holds |
| CdnPrefixMapper.CdnPrefixTable.Insert | src/main/java/com/nyx/ftpcdn/mapper/CdnPrefixMapper.java:18-21 | appends exactly one row with a fresh generated id and the entity's values, writes the id back, returns 1 |
| CdnPrefixMapper.CdnPrefixTable.Update | src/main/java/com/nyx/ftpcdn/mapper/CdnPrefixMapper.java:50-52 | the rows become Overwritten of the old rows; the count is the number matched, 0 for a missing or null id |
| CdnPrefixMapper.CdnPrefixTable.ClearAllDefault | src/main/java/com/nyx/ftpcdn/mapper/CdnPrefixMapper.java:57-58 | the rows become ClearedDefaults of the old rows; every row is counted |
| CdnPrefixMapper.CdnPrefixTable.SetDefault | src/main/java/com/nyx/ftpcdn/mapper/CdnPrefixMapper.java:63-64 | the rows become WithDefault of the old rows; the count is the number matched |
| CdnPrefixMapper.CdnPrefixTable.DeleteById | src/main/java/com/nyx/ftpcdn/mapper/CdnPrefixMapper.java:69-70 | the rows lose exactly those with that id; the count is the number removed |
| CdnPrefixMapper.CdnPrefixTable.MakeDefault | src/main/java/com/nyx/ftpcdn/mapper/CdnPrefixMapper.java:55-64 | clear then set in sequence: exactly one default row if the id existed, none otherwise |
| FileWeb.UploadGuard | src/main/java/com/nyx/ftpcdn/controller/FileController.java:83-94 | an upload passes iff its size is positive and at most 50 * 1024 * 1024 bytes; a rejection is 400 |
| FileWeb.UploadLimitIsInclusive | src/main/java/com/nyx/ftpcdn/controller/FileController.java:90 | exactly 52428800 bytes passes; one byte more and an empty file are rejected |
| FileWeb.DownloadCountsOnlyFetched | src/main/java/com/nyx/ftpcdn/controller/FileController.java:208-239 | 404 iff the row is missing, and then no fetch; a null fetch is 500 with the count unchanged; a successful fetch raises that row's count by exactly one and changes no other row, and the answer is then 200 exactly when the original name is non-null, 500 otherwise; a 200 carries the fetched bytes and their length |
| FileWeb.PostedCountsWithoutTransfer | src/main/java/com/nyx/ftpcdn/controller/FileController.java:186-196 | n counting requests raise that row's count by n with no transfer, keep every id, and change no other row |
| FileWeb.ListingIgnoresSurroundingBlanks | src/main/java/com/nyx/ftpcdn/controller/FileController.java:252-256 | a keyword and its trimmed form list the same; a blank keyword lists everything; otherwise exactly the rows matching the trimmed keyword |
| FileWeb.FileController.constructor | src/main/java/com/nyx/ftpcdn/controller/FileController.java:32-33 | the controller keeps its service and its catalog |
| FileWeb.FileController.UploadFile | src/main/java/com/nyx/ftpcdn/controller/FileController.java:74-110 | a guarded upload is 400 with no service call; otherwise the service stores first, and the answer is 200 iff store and insert succeeded, 500 otherwise |
| FileWeb.FileController.DownloadFile | src/main/java/com/nyx/ftpcdn/controller/FileController.java:208-239 | the response, the fetch made and the new rows are those of Download on the old rows |
| FileWeb.FileController.IncrementDownloadCount | src/main/java/com/nyx/ftpcdn/controller/FileController.java:186-196 | the rows are the old rows counted once for that id, and the answer is 200 |
| PrefixWeb.CheckPrefixForm | src/main/java/com/nyx/ftpcdn/controller/CdnPrefixController.java:46-79 | rejects, in order and each iff its condition holds: a null or blank name, a null or blank prefix, a prefix without http:// or https:// before trimming; accepted arguments are trimmed, with description "" when null, isDefault false and isActive true when not sent |
| PrefixWeb.SchemeCheckedBeforeTrim | src/main/java/com/nyx/ftpcdn/controller/CdnPrefixController.java:66-70 | " http://x" is rejected for its scheme although its trimmed form has one |
| PrefixWeb.AcceptedArgsAreClean | src/main/java/com/nyx/ftpcdn/controller/CdnPrefixController.java:73-79 | an accepted name and prefix are non-empty and already trimmed, and the trimmed prefix still has its scheme |
| PrefixWeb.AddCdnPrefix | src/main/java/com/nyx/ftpcdn/controller/CdnPrefixController.java:42-92 | the service is called iff the form is accepted, with the checked arguments; 400 iff rejected; 500 iff accepted and the service threw; 200 iff accepted and the service returned the prefix |
| PrefixWeb.UpdateCdnPrefix | src/main/java/com/nyx/ftpcdn/controller/CdnPrefixController.java:99-155 | the service is called with the id and the checked arguments iff the form is accepted; 400 iff rejected; 500 iff the service threw; 200 iff accepted and the service answered, even with false; success iff the service returned true |
| PrefixWeb.GetCdnPrefix | src/main/java/com/nyx/ftpcdn/controller/CdnPrefixController.java:236-247 | 404 iff the service returned null, 200 iff it returned a prefix |
| JavaStrings.LastIndexOf | src/main/java/com/nyx/ftpcdn/service/FileService.java:216 | -1 iff the character is absent; otherwise an index holding it with no occurrence after it |
| JavaStrings.TrimIsMiddle | src/main/java/com/nyx/ftpcdn/controller/FileController.java:57 | trim returns the contiguous middle of the string; everything cut off is at most U+0020, and the result starts and ends with a kept character |
| JavaStrings.BlankIffAllTrimmable | src/main/java/com/nyx/ftpcdn/controller/FileController.java:57 | a string is blank after trim iff every character is at most U+0020 |
| JavaStrings.TrimIdempotent | src/main/java/com/nyx/ftpcdn/controller/FileController.java:57-58 | trimming twice is trimming once |
| JavaStrings.JoinSplitAll | src/main/java/com/nyx/ftpcdn/service/FtpService.java:154 | the pieces of a split, joined with the separator, give the string back |
| JavaStrings.Split | src/main/java/com/nyx/ftpcdn/service/FtpService.java:154 | no piece contains the separator |
| Ordering.SortBySortsAndPermutes | src/main/java/com/nyx/ftpcdn/mapper/FileInfoMapper.java:34-35 | ORDER BY returns a sorted permutation of the rows |
| Ordering.FilterSortCommute | src/main/java/com/nyx/ftpcdn/mapper/FileInfoMapper.java:40-42 | filtering then sorting equals sorting then filtering |
| Tables.FindById | src/main/java/com/nyx/ftpcdn/mapper/FileInfoMapper.java:28-29 | a found row is in the table with that id; none iff no row has that id |
| Tables.Matched | src/main/java/com/nyx/ftpcdn/mapper/FileInfoMapper.java:47-48 | zero iff no row has that id, and at most one when ids are increasing |
| Tables.RemoveIdRemovesOnlyThatRow | src/main/java/com/nyx/ftpcdn/mapper/FileInfoMapper.java:59-60 | after removal no row has that id, every other row is kept in order, and the size drops by the number matched |

## Left out

- FTP transport. Host, port, credentials, reply codes, passive and binary mode, and stream copying
  are not modelled. Each client call is a `Command` answered by the `Server` oracle.
  `enterLocalPassiveMode` is a local setting and is not a command.
- Payload bytes on upload (`file.getInputStream()`) are not modelled. The store carries only the
  file name. On download the bytes the server would send are a parameter.
- Randomness and the clock. `UUID.randomUUID` and `LocalDateTime.now` become the `token`,
  `timestamp` and `now` parameters, with the shapes the source produces as preconditions.
  Collision probability is not modelled.
- Files.FileService.UploadFile: the FTP store result and the insert count are inputs.
  - It does not show the id that the insert writes back into the returned entity. That write-back
    is modelled in `FileInfoMapper.FileInfoTable.Insert`.
  - Exceptions other than a failed store and a non-positive insert count are folded into
    `UploadFailed` or not modelled.
- Files.FileService.DeleteFile: the selected row, the FTP delete result and the delete count are
  inputs. An exception from the mapper, which the source turns into false, is not modelled.
- Pass-through calls are not modelled as separate members. These are `FileService.getFileList`,
  `searchFiles`, `getFileById`, `downloadFileFromFtp` and `incrementDownloadCount`.
  - The controllers' use of them is modelled directly on the mapper functions.
  - The download's fetch is a function parameter.
- PageHelper pagination, Spring wiring, `MultipartFile`, `Model` attributes, view names,
  `ResponseEntity` and the `HashMap` response bodies are not modelled. Only statuses, bodies and
  the Content-Length value are kept.
- The Content-Disposition `URLEncoder` encoding is not modelled. A library call cannot be modelled
  here. Only its failure on a null original name is kept: the download then answers 500 after the
  count was already raised.
- `CdnPrefixService` is not part of this model. Its answers to the controller (the created prefix
  or an exception, a boolean or an exception, the found prefix or null) are inputs. Its uniqueness
  checks and orchestration are not modelled.
- The CdnPrefixController endpoints that only delegate to that service are not modelled. These are
  listing, setting the default and deleting.
- SQL dialect:
  - LIKE is a plain substring test, so `%` and `_` in a keyword are not wildcards here.
  - Collation and case sensitivity are not modelled.
  - `id != NULL` in `countByPrefix`/`countByName` is modelled with `excludeId` as an ordinary id.
  - SQL exceptions are not modelled.
- Order among rows with equal sort keys is not modelled. SQL leaves it unspecified. The model's
  insertion sort fixes one order, and the lemmas state only what the ORDER BY clause promises.
- CdnPrefixMapper.SelectDefault: the source's `LIMIT 1` without an order may return any qualifying
  row. The model returns the first in table order, and its contract states only that the row
  qualifies.
- The race between concurrent clear-default and set-default statements is not modelled.
  Concurrency is out of scope; only their sequential composition is proved.
- Java integer widths are not modelled. `downloadCount` is an `int` column that could overflow
  after 2^31 - 1 increments; the model's counts are unbounded.
- `setIsActive(null)` on the entity is not modelled. `isActive` is a non-null boolean once
  constructed, because every path in the model that builds a prefix supplies one.
- No-argument constructors and getters are not modelled. They read or default fields and carry no
  logic.
- Console logging (`System.out`, `System.err`, `printStackTrace`) is not modelled.
- Ftp.Close: the `finally` block as written catches an IOException from `logout` around both calls,
  so a throwing logout leaves the client connected. The model keeps that behaviour. The "always
  disconnected on exit" reading holds only when logout does not throw.
