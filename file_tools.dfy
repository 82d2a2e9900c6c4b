/**
 * The `fileData` record of src/fileTools.c: its validating constructor and
 * the reader that fills it from a file path.
 */
module FileTools {
  import opened Common
  import opened StringTools

  /** `struct fileData`: a file's name and contents with their lengths. */
  class FileData {
    var fileNameLength: int
    var fileName: string
    var contentLength: int
    var content: string

    constructor (fileNameLength: int, fileName: string, contentLength: int, content: string)
      ensures this.fileNameLength == fileNameLength && this.fileName == fileName
      ensures this.contentLength == contentLength && this.content == content
    {
      this.fileNameLength := fileNameLength;
      this.fileName := fileName;
      this.contentLength := contentLength;
      this.content := content;
    }
  }

  /** The conditions under which initializeFileDataStruct ends the process. */
  predicate FileDataRejected(fileNameLength: int, fileName: Option<string>, contentLength: int, content: Option<string>)
  {
    fileNameLength <= 0 || contentLength < 0 || fileName.None? || content.None?
  }

  /**
   * initializeFileDataStruct (fileTools.c:29-82): a name length of zero or
   * less, a negative content length, or a NULL name or content ends the
   * process; otherwise both lengths are stored as given and both strings
   * are copied. The lengths are not compared with the strings.
   */
  method InitializeFileDataStruct(fileNameLength: int, fileName: Option<string>, contentLength: int, content: Option<string>)
    returns (r: Run<FileData>)
    ensures !r.Crash?
    ensures r.ExitFailure? <==> FileDataRejected(fileNameLength, fileName, contentLength, content)
    ensures r.Returns? ==> fresh(r.value)
                           && r.value.fileNameLength == fileNameLength && r.value.fileName == CString(fileName.value)
                           && r.value.contentLength == contentLength && r.value.content == CString(content.value)
  {
    if fileNameLength <= 0 || contentLength < 0 || fileName.None? || content.None? {
      return ExitFailure;
    }
    var fileData := new FileData(fileNameLength, CString(fileName.value), contentLength, CString(content.value));
    r := Returns(fileData);
  }

  /** The path separator getFileDataFromFilePath splits on. */
  const PATH_SEPARATOR: string := "/"

  /**
   * getFileDataFromFilePath (fileTools.c:84-141): a NULL path or a file that
   * cannot be opened ends the process. The content is the file read in full
   * and terminated, so an empty file leaves it NULL; the name is the last
   * '/'-separated token of the path, and a path with no such token makes
   * `strlen(NULL)` crash before the constructor runs. The constructor then
   * rejects an empty file.
   */
  method GetFileDataFromFilePath(filePath: Option<string>, fs: FileSystem) returns (r: Run<FileData>)
    ensures filePath.None? ==> r.ExitFailure?
    ensures filePath.Some? ==>
              var path := CString(filePath.value);
              var names := Tokens(path, PATH_SEPARATOR);
              && (r.Crash? <==> path in fs && names == [])
              && (r.ExitFailure? <==> path !in fs || (names != [] && fs[path] == []))
              && (r.Returns? ==> fresh(r.value)
                                 && r.value.fileName == names[|names| - 1]
                                 && r.value.fileNameLength == |names[|names| - 1]|
                                 && r.value.contentLength == |fs[path]|
                                 && r.value.content == CString(fs[path]))
  {
    if filePath.None? {
      return ExitFailure;
    }
    var path := CString(filePath.value);
    if path !in fs {
      return ExitFailure;
    }
    var contentLength := |fs[path]|;
    var content: Option<string> := None;
    if contentLength > 0 {
      var buffer := fs[path] + ['\0'];
      content := Some(CString(buffer));
      CStringOfAppendedTerminator(fs[path]);
    }
    var lastToken := GetLastToken(path, PATH_SEPARATOR);
    if lastToken.token.None? {
      return Crash;
    }
    var fileName := lastToken.token.value;
    TokensAreTokens(path, PATH_SEPARATOR);
    TokensAvoid(path, PATH_SEPARATOR, '\0');
    r := InitializeFileDataStruct(|fileName|, Some(fileName), contentLength, content);
  }

  /**
   * A path made of directory names and a file name joined by '/' yields that
   * file name, whatever the directories are.
   */
  lemma {:induction false} FileNameOfPath(dirs: seq<string>, name: string)
    requires forall k :: 0 <= k < |dirs| ==> IsToken(dirs[k], PATH_SEPARATOR)
    requires IsToken(name, PATH_SEPARATOR)
    ensures var names := Tokens(Join(dirs + [name], '/'), PATH_SEPARATOR);
            names != [] && names[|names| - 1] == name
  {
    TokensOfJoin(dirs + [name], '/', PATH_SEPARATOR);
  }
}
