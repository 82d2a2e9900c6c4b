/**
 * The response helpers the request handler calls: the path mapping of
 * checkIfRoot, the HEAD and GET file responses, the POST handler and the two
 * senders of the "200 OK" header.
 *
 * src/server.c, src/utils.c and src/response.c hold identical copies of these
 * functions; each is modelled once here.
 *
 * A connected socket is a `Socket` whose `wire` is everything the client has
 * received. The data directory is a map from path to file contents: `fopen`
 * fails exactly for a path that is not in it.
 */
module Response {
  import opened Common
  import opened StringTools
  import opened HttpRequest
  import opened Db

  // ---------------------------------------------------------------------------
  // The connection
  // ---------------------------------------------------------------------------

  /** A connected stream socket, seen from the server. */
  class Socket {
    /** Every byte the peer has received, in order. */
    var wire: seq<char>

    constructor ()
      ensures wire == []
    {
      wire := [];
    }

    /**
     * send(2) on a blocking stream socket: either -1 and nothing sent, or a
     * count of leading bytes of `data` that went out — at least one when
     * `data` is not empty. How much goes out is the kernel's choice.
     */
    method Send(data: seq<char>) returns (n: int)
      modifies this
      ensures SendCount(n, |data|)
      ensures wire == old(wire) + (if n == -1 then [] else data[..n])
    {
      n := *;
      if !SendCount(n, |data|) {
        n := -1;
      }
      if n != -1 {
        wire := wire + data[..n];
      }
    }
  }

  /** The results send(2) may give for `len` bytes on a blocking stream socket. */
  predicate SendCount(n: int, len: nat)
  {
    n == -1 || (0 <= n <= len && (len > 0 ==> n > 0))
  }

  /**
   * A `send` whose result the caller ignores: the peer received some leading
   * part of `msg`, possibly none of it.
   */
  ghost predicate SentPrefix(before: seq<char>, after: seq<char>, msg: seq<char>)
  {
    before <= after && after[|before|..] <= msg
  }

  // ---------------------------------------------------------------------------
  // Fixed responses and the "200 OK" header
  // ---------------------------------------------------------------------------

  const BAD_REQUEST: string := "HTTP/1.1 400 Bad Request\r\nContent-Length: 0\r\n\r\n"
  const METHOD_NOT_ALLOWED: string := "HTTP/1.1 405 Method Not Allowed\r\nContent-Length: 0\r\n\r\n"
  const INTERNAL_SERVER_ERROR: string := "HTTP/1.1 500 Internal Server Error\r\nContent-Length: 0\r\n\r\n"
  const CREATED: string := "HTTP/1.1 201 Created\r\nContent-Length: 0\r\n\r\n"

  const OK_PREFIX: string := "HTTP/1.1 200 OK\r\nContent-Length: "
  const HEADER_END: string := "\r\n\r\n"

  /** "HTTP/1.1 200 OK\r\nContent-Length: %zu\r\n\r\n" with the length in decimal. */
  function OkHeader(contentLength: nat): string
  {
    OK_PREFIX + Decimal(contentLength) + HEADER_END
  }

  /**
   * The content length a client reads back from a "200 OK" header, or None
   * when the text is not such a header.
   */
  function ContentLengthOf(header: string): (r: Option<nat>)
    ensures r.Some? ==> |header| > |OK_PREFIX| + |HEADER_END| && header[..|OK_PREFIX|] == OK_PREFIX && header[|header| - |HEADER_END|..] == HEADER_END
  {
    if |header| > |OK_PREFIX| + |HEADER_END|
       && header[..|OK_PREFIX|] == OK_PREFIX
       && header[|header| - |HEADER_END|..] == HEADER_END
       && AllDigits(header[|OK_PREFIX|..|header| - |HEADER_END|])
    then Some(ParseDecimal(header[|OK_PREFIX|..|header| - |HEADER_END|]))
    else None
  }

  /** A client reading the header back finds the content length that was formatted into it. */
  lemma ContentLengthOfOkHeader(contentLength: nat)
    ensures ContentLengthOf(OkHeader(contentLength)) == Some(contentLength)
  {
    var h := OkHeader(contentLength);
    var digits := Decimal(contentLength);
    assert h[..|OK_PREFIX|] == OK_PREFIX;
    assert h[|h| - |HEADER_END|..] == HEADER_END;
    assert h[|OK_PREFIX|..|h| - |HEADER_END|] == digits;
    ParseDecimalOfDecimal(contentLength);
  }

  /** The header as `snprintf` leaves it in a buffer of BUFFER_SIZE characters. */
  function FormattedHeader(contentLength: nat): (h: string)
    ensures h <= OkHeader(contentLength)
    ensures |OkHeader(contentLength)| < BUFFER_SIZE ==> h == OkHeader(contentLength)
  {
    Truncate(OkHeader(contentLength), BUFFER_SIZE - 1)
  }

  // ---------------------------------------------------------------------------
  // Sending a resource
  // ---------------------------------------------------------------------------

  /**
   * send_response_head (server.c:422-435): format the header and send it
   * once; a partial send is not noticed, a failed one returns -1.
   */
  method SendResponseHead(sock: Socket, contentLength: nat) returns (ret: int)
    modifies sock
    ensures ret == 0 || ret == -1
    ensures ret == -1 ==> sock.wire == old(sock.wire)
    ensures SentPrefix(old(sock.wire), sock.wire, FormattedHeader(contentLength))
    ensures ret == 0 && FormattedHeader(contentLength) != [] ==> |sock.wire| > |old(sock.wire)|
  {
    var response := FormattedHeader(contentLength);
    var sent := sock.Send(response);
    if sent == -1 {
      return -1;
    }
    return 0;
  }

  /**
   * send_response_resource (server.c:389-414): send the header once, then
   * send the first `contentLength` bytes of `content` until all of them are
   * out; any failed send returns -1. The count of header bytes actually sent
   * is not checked.
   */
  method SendResponseResource(sock: Socket, content: seq<char>, contentLength: nat) returns (ret: int)
    requires contentLength <= |content|
    modifies sock
    ensures ret == 0 || ret == -1
    ensures ret == 0 ==> exists k :: 0 <= k <= |FormattedHeader(contentLength)|
                           && sock.wire == old(sock.wire) + FormattedHeader(contentLength)[..k] + content[..contentLength]
    ensures ret == -1 ==> exists k, t :: 0 <= k <= |FormattedHeader(contentLength)| && 0 <= t < contentLength + 1
                           && sock.wire == old(sock.wire) + FormattedHeader(contentLength)[..k] + content[..t]
  {
    var response := FormattedHeader(contentLength);
    var headerSent := sock.Send(response);
    if headerSent == -1 {
      assert sock.wire == old(sock.wire) + response[..0] + content[..0];
      return -1;
    }
    ghost var w0 := old(sock.wire) + response[..headerSent];
    var totalSent: nat := 0;
    while totalSent < contentLength
      invariant totalSent <= contentLength
      invariant sock.wire == w0 + content[..totalSent]
      decreases contentLength - totalSent
    {
      var sent := sock.Send(content[totalSent..contentLength]);
      if sent == -1 {
        return -1;
      }
      assert content[totalSent..contentLength][..sent] == content[totalSent..totalSent + sent];
      assert content[..totalSent + sent] == content[..totalSent] + content[totalSent..totalSent + sent];
      totalSent := totalSent + sent;
    }
    return 0;
  }

  // ---------------------------------------------------------------------------
  // From request path to file
  // ---------------------------------------------------------------------------

  /** The path checkIfRoot treats as the root. */
  const ROOT_PATH: string := "../data/"
  /** The file served for the root. */
  const DEFAULT_FILE: string := "index.html"
  /** The prefix put in front of every verified path before it is opened. */
  const DATA_DIR: string := "../data"

  /**
   * strncpy(dst, src, n): the characters of the C string `src`, at most `n`
   * of them, with the rest of the first `n` slots filled with '\0'.
   */
  method StrNCopy(dst: array<char>, src: seq<char>, n: nat)
    requires n <= dst.Length
    modifies dst
    ensures forall i :: 0 <= i < n ==> dst[i] == if i < |CString(src)| then src[i] else '\0'
    ensures dst[n..] == old(dst[n..])
  {
    var s := CString(src);
    var i := 0;
    while i < n
      invariant i <= n
      invariant forall j :: 0 <= j < i ==> dst[j] == if j < |s| then src[j] else '\0'
      invariant dst[n..] == old(dst[n..])
    {
      dst[i] := if i < |s| then src[i] else '\0';
      i := i + 1;
    }
  }

  /**
   * checkIfRoot (utils.c:19-34, response.c:17-32): exactly the path
   * "../data/" becomes "index.html" and gives 0; any other path is copied,
   * cut to BUFFER_SIZE-1 characters, and gives 1.
   */
  method CheckIfRoot(filePath: seq<char>) returns (ret: int, verifiedPath: string)
    ensures ret == 0 <==> CString(filePath) == ROOT_PATH
    ensures ret == 0 || ret == 1
    ensures verifiedPath == Truncate(if ret == 0 then DEFAULT_FILE else CString(filePath), BUFFER_SIZE - 1)
  {
    var buffer := new char[BUFFER_SIZE];
    var source: seq<char>;
    if CString(filePath) == ROOT_PATH {
      source := DEFAULT_FILE;
      ret := 0;
    } else {
      source := filePath;
      ret := 1;
    }
    StrNCopy(buffer, source, BUFFER_SIZE - 1);
    buffer[BUFFER_SIZE - 1] := '\0';
    var expected := Truncate(CString(source), BUFFER_SIZE - 1);
    assert buffer[..][..|expected|] == expected by {
      forall i | 0 <= i < |expected|
        ensures buffer[i] == expected[i]
      {
      }
    }
    assert buffer[|expected|] == '\0';
    CStringOfTerminated(buffer[..], expected);
    verifiedPath := CString(buffer[..]);
    if ret == 0 {
      DefaultFileIsCString();
    }
  }

  lemma DefaultFileIsCString()
    ensures CString(DEFAULT_FILE) == DEFAULT_FILE
  {
    assert '\0' !in DEFAULT_FILE;
  }

  /** The path head_req_response and get_req_response open for a request path. */
  function ResourcePath(filePath: seq<char>): (p: string)
    ensures DATA_DIR <= p
  {
    DATA_DIR + Truncate(if CString(filePath) == ROOT_PATH then DEFAULT_FILE else CString(filePath), BUFFER_SIZE - 1)
  }

  /**
   * The root check compares the request path before the data prefix is added:
   * a request for "/" opens the data directory itself, and only a request
   * for "../data/" is mapped, to "../dataindex.html", with no separator.
   */
  lemma RootRequestOpensDataDirectory()
    requires BUFFER_SIZE > 1
    ensures ResourcePath("/") == "../data/"
  {
    assert '\0' !in "/";
    assert "/" != ROOT_PATH;
  }

  lemma RootPathOpensDataindex()
    requires BUFFER_SIZE > 10
    ensures ResourcePath(ROOT_PATH) == DATA_DIR + DEFAULT_FILE
  {
    assert CString(ROOT_PATH) == ROOT_PATH by {
      assert '\0' !in ROOT_PATH;
    }
    assert Truncate(DEFAULT_FILE, BUFFER_SIZE - 1) == DEFAULT_FILE;
  }

  /** An open `FILE *`: the file's bytes and the stream position. */
  class File {
    const content: seq<char>
    var cursor: nat

    constructor (content: seq<char>)
      ensures this.content == content && cursor == 0
    {
      this.content := content;
      cursor := 0;
    }

    /** fseek(f, 0, SEEK_END). */
    method SeekEnd()
      modifies this
      ensures cursor == |content|
    {
      cursor := |content|;
    }

    /** fseek(f, 0, SEEK_SET). */
    method SeekSet()
      modifies this
      ensures cursor == 0
    {
      cursor := 0;
    }

    /** ftell(f). */
    method Tell() returns (pos: nat)
      ensures pos == cursor
    {
      pos := cursor;
    }

    /** fread(buf, 1, count, f): what is left of the file, at most `count` bytes, and the position moves past them. */
    method Read(count: nat) returns (data: seq<char>)
      requires cursor <= |content|
      modifies this
      ensures data == content[old(cursor)..if old(cursor) + count <= |content| then old(cursor) + count else |content|]
      ensures cursor == old(cursor) + |data| && cursor <= |content|
    {
      var end := if cursor + count <= |content| then cursor + count else |content|;
      data := content[cursor..end];
      cursor := end;
    }
  }

  /** fopen(path, "rb"): a fresh stream at the start of the file, or NULL when there is no such file. */
  method FOpen(fs: FileSystem, path: string) returns (f: File?)
    ensures f == null <==> path !in fs
    ensures f != null ==> fresh(f) && f.content == fs[path] && f.cursor == 0
  {
    if path !in fs {
      return null;
    }
    f := new File(fs[path]);
  }

  /** The shared first steps of HEAD and GET: map the path, prefix the data directory, open the file. */
  method OpenResource(fs: FileSystem, filePath: seq<char>) returns (f: File?)
    ensures f == null <==> ResourcePath(filePath) !in fs
    ensures f != null ==> fresh(f) && f.content == fs[ResourcePath(filePath)] && f.cursor == 0
  {
    var _, verifiedPath := CheckIfRoot(filePath);
    var path := AddCharacterToStart(verifiedPath, DATA_DIR);
    f := FOpen(fs, path);
  }

  // ---------------------------------------------------------------------------
  // HEAD and GET
  // ---------------------------------------------------------------------------

  /**
   * The answer to HEAD `filePath`, from the wire before and after: 0 exactly
   * when the file exists, then a prefix of its header went out; -1 with
   * nothing sent otherwise.
   */
  ghost predicate HeadAnswered(before: seq<char>, after: seq<char>, fs: FileSystem, filePath: seq<char>, ret: int)
  {
    && (ret == 0 || ret == -1)
    && (ret == 0 <==> ResourcePath(filePath) in fs)
    && (ret == -1 ==> after == before)
    && (ret == 0 ==> SentPrefix(before, after, FormattedHeader(|fs[ResourcePath(filePath)]|)))
  }

  /**
   * head_req_response (utils.c:36-84, response.c:34-80): no file means -1 and
   * no response at all; otherwise the header carries the file size, is sent
   * once without checking the result, and the answer is 0.
   */
  method HeadReqResponse(sock: Socket, fs: FileSystem, filePath: seq<char>) returns (ret: int)
    modifies sock
    ensures HeadAnswered(old(sock.wire), sock.wire, fs, filePath, ret)
  {
    var resource := OpenResource(fs, filePath);
    if resource == null {
      return -1;
    }
    resource.SeekEnd();
    var totalBytesRead := resource.Tell();
    resource.SeekSet();
    var _ := SendResponseHead(sock, totalBytesRead);
    return 0;
  }

  /**
   * get_req_response as written (utils.c:93-186, response.c:89-180): the
   * file is read once into the buffer and then read again from where the
   * first read stopped. The second read finds the end of the file, so it
   * never returns the file size: every request ends in -1 and no response,
   * whether the file is missing, empty or not.
   */
  method GetReqResponse(sock: Socket, fs: FileSystem, filePath: seq<char>) returns (ret: int)
    ensures ret == -1
  {
    var resource := OpenResource(fs, filePath);
    if resource == null {
      return -1;
    }
    resource.SeekEnd();
    var totalBytesRead := resource.Tell();
    resource.SeekSet();
    if totalBytesRead == 0 {
      return -1;
    }
    var firstRead := resource.Read(totalBytesRead);
    if |firstRead| != totalBytesRead {
      return -1;
    }
    var secondRead := resource.Read(totalBytesRead);
    if |secondRead| != totalBytesRead {
      return -1;
    }
    assert false;
  }

  /**
   * The answer the corrected get_req_response gives to GET `filePath`: a
   * missing or empty file is -1 with nothing sent; 0 means part of the
   * header and then every byte of the file went out.
   */
  ghost predicate GetAnswered(before: seq<char>, after: seq<char>, fs: FileSystem, filePath: seq<char>, ret: int)
  {
    && (ret == 0 || ret == -1)
    && (ResourcePath(filePath) !in fs || fs[ResourcePath(filePath)] == [] ==> ret == -1 && after == before)
    && (ret == 0 ==> ResourcePath(filePath) in fs
                     && var body := fs[ResourcePath(filePath)];
                        exists k :: 0 <= k <= |FormattedHeader(|body|)|
                          && after == before + FormattedHeader(|body|)[..k] + body)
  }

  /**
   * get_req_response with the second read removed: a missing or empty file
   * is -1 with no response; otherwise the header and the whole file are
   * sent, and 0 means every byte of the file went out.
   */
  method GetReqResponseIntended(sock: Socket, fs: FileSystem, filePath: seq<char>) returns (ret: int)
    modifies sock
    ensures GetAnswered(old(sock.wire), sock.wire, fs, filePath, ret)
  {
    var resource := OpenResource(fs, filePath);
    if resource == null {
      return -1;
    }
    resource.SeekEnd();
    var totalBytesRead := resource.Tell();
    resource.SeekSet();
    if totalBytesRead == 0 {
      return -1;
    }
    var fileContent := resource.Read(totalBytesRead);
    if |fileContent| != totalBytesRead {
      return -1;
    }
    assert fileContent[..|fileContent|] == fileContent;
    ret := SendResponseResource(sock, fileContent, |fileContent|);
  }

  // ---------------------------------------------------------------------------
  // POST
  // ---------------------------------------------------------------------------

  /** The counter name handle_post_request passes to store_post_entry. */
  const POST_COUNTER: string := "entry_id"

  /** A request handle_post_request turns away with 400: no request, no body or an empty body. */
  predicate IsBadPost(hasRequest: bool, body: Option<string>)
  {
    !hasRequest || body.None? || CString(body.value) == []
  }

  /**
   * The answer to a POST, from the wire and the store before and after: a
   * bad request gets 400 and leaves the store alone; otherwise the store
   * goes through store_post_entry, and its failure gets 500, its success 201
   * and 0.
   */
  ghost predicate PostAnswered(before: seq<char>, after: seq<char>, dataBefore: Store, dataAfter: Store,
                               hasRequest: bool, body: Option<string>, faults: Faults, ret: int)
  {
    && (ret == 0 || ret == -1)
    && (ret == 0 <==> !IsBadPost(hasRequest, body) && faults == NO_FAULTS)
    && (IsBadPost(hasRequest, body) ==> dataAfter == dataBefore && SentPrefix(before, after, BAD_REQUEST))
    && (!IsBadPost(hasRequest, body) ==>
          PostResult(ret, dataAfter) == PostEntry(dataBefore, CString(body.value), POST_COUNTER, faults))
    && (!IsBadPost(hasRequest, body) && ret == -1 ==> SentPrefix(before, after, INTERNAL_SERVER_ERROR))
    && (ret == 0 ==> SentPrefix(before, after, CREATED))
  }

  /**
   * handle_post_request (server.c:440-471, utils.c:191-224): a missing
   * request or a missing or empty body gets "400 Bad Request" and -1 without
   * touching the store; otherwise the body is stored under the "entry_id"
   * counter, and a failed store gets "500 Internal Server Error" and -1, a
   * successful one "201 Created" and 0. No send result is checked.
   */
  method HandlePostRequest(sock: Socket, db: Database, request: HTTPRequest?, body: Option<string>, faults: Faults)
    returns (ret: int)
    modifies sock, db
    ensures PostAnswered(old(sock.wire), sock.wire, old(db.data), db.data, request != null, body, faults, ret)
  {
    if request == null || body.None? || |CString(body.value)| == 0 {
      var _ := sock.Send(BAD_REQUEST);
      return -1;
    }
    var stored := db.StorePostEntry(CString(body.value), POST_COUNTER, faults);
    if stored != 0 {
      var _ := sock.Send(INTERNAL_SERVER_ERROR);
      return -1;
    }
    var _ := sock.Send(CREATED);
    return 0;
  }
}
