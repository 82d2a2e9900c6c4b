# A verified model of a pre-fork HTTP server's request path

The server (COMP4981 assignment 4) is a small pre-fork HTTP/1.1 server written in C. A parent
process forks a pool of workers. Each worker accepts a connection, receives one request,
turns its first line into an `HTTPRequest`, and calls `handle_request` through a function
pointer. That pointer comes from a shared library which the worker reloads when the library
file's modification time changes. `handle_request` then does one of these:

- GET serves a file from `../data`;
- HEAD serves only the header of that file;
- POST appends the request body to an ndbm store under sequential keys `entry_0000`,
  `entry_0001`, … with the next id kept under `entry_id`;
- anything else gets 400 or 405.

The command line picks the client or the server. A `fileData` record holds a file's name and
contents.

This project models that sequential, per-request path in Dafny and proves what it does.
There is one module per source file:

| module | file | models |
|---|---|---|
| `Common` | common.dfy | C strings (`strlen`, the view `strdup`/`strcmp` take), `Option`, process outcomes (`Returns`, `ExitFailure` for `exit(EXIT_FAILURE)`, `Crash` for a NULL dereference), `%zu` and `%04d` formatting, `BUFFER_SIZE` |
| `StringTools` | string_tools.dfy | `src/stringTools.c`: the `strtok_r` token loops, proved against one definition of a token |
| `HttpRequest` | http_request.dfy | `src/httpRequest.c`: the request struct, its construction from the request line, the method check, the body setter and the stripper |
| `Db` | db.dfy | `src/db.c`: the DBM file as a map of byte strings, and `store_post_entry` as a function of the store plus a `Database` class that performs it step by step |
| `Response` | response.dfy | `src/utils.c`, `src/response.c` and the response helpers of `src/server.c`: the socket, the header format, the send loop, `checkIfRoot`, HEAD, GET and POST |
| `Handler` | handler.dfy | `src/handler_v1.c`: the method router |
| `SharedLib` | shared_lib.dfy | `src/shared_lib.c`: the hot-reload state machine over `last_mod_time`, `current_handle` and the worker's handler slot |
| `Server` | server.dfy | `src/server.c`: request extraction in the worker loop, one pass of that loop, `strstr`, `strtol`, and the checks in `socket_bind` |
| `Cli` | cli.dfy | `src/main.c`: `parse_args` and `handle_args` |
| `FileTools` | file_tools.dfy | `src/fileTools.c`: the `fileData` constructor and the reader that fills it |

Conventions:

- A C string is a `seq<char>` holding its characters without the terminator. A raw buffer
  that may contain `'\0'` is read through `CString`.
- A NULL pointer is `None`.
- The DBM stores byte strings (`seq<Byte>`). A string datum carries its NUL terminator, as
  `MAKE_CONST_DATUM` does (include/db.h:28).
- The `int` counter is four little-endian two's-complement bytes, and `current_id++` wraps
  at 2^31.
- System calls whose outcome decides a branch are inputs to the model:
  - `dbm_open` and `dbm_store` failures (`Faults`);
  - `stat`, `dlopen` and `dlsym` results (`LoadOutcome`);
  - `inet_pton` and `bind`;
  - the bytes `recv` delivers;
  - the files under the data directory (`FileSystem`).
- `send` is a method of `Socket` that may send any leading part of its buffer or fail.
- The server's files hold identical copies of several functions:
  - `handle_post_request`, `send_response_resource` and `send_response_head` appear in both
    src/server.c and src/utils.c;
  - `checkIfRoot`, `head_req_response` and `get_req_response` appear in both src/utils.c and
    src/response.c.

  Each is modelled once. Its row below cites one copy, and its `states` cell names the other.

`BUFFER_SIZE` is defined in a header that is not part of this model. It is a positive
constant whose value is left open, so every property holds for any positive size.

Two defects were found (see "## Findings"). The request path is modelled as written, and
beside it with both corrections:

- `Handler.HandleRequest` serves GET with the as-written `Response.GetReqResponse`, and
  `Handler.HandleRequestIntended` with `Response.GetReqResponseIntended`;
- `Server.ServeConnection` reloads with the as-written `SharedLib.Loader.CheckForHandlerUpdate`
  and calls `Handler.HandleRequest`; `Server.ServeConnectionIntended` reloads with
  `SharedLib.Loader.CheckForHandlerUpdateIntended` and calls `Handler.HandleRequestIntended`.

## Model

| member | source | states |
|---|---|---|
| `StringTools.TokensAreTokens` | src/stringTools.c:10-34 | every token `strtok_r` yields is non-empty and holds no delimiter, so leading, trailing and repeated delimiters never make an empty token |
| `StringTools.TokensOfJoin` | src/stringTools.c:36-80 | splitting the join of delimiter-free, non-empty pieces gives back exactly those pieces |
| `StringTools.TokensAvoid` | src/stringTools.c:98-126 | a character absent from the string is absent from every token, so the tokens of a C string are C strings |
| `StringTools.StrTokR` | src/stringTools.c:21-28 | one `strtok_r` step returns the first token of the rest of the string (NULL exactly when none is left), moves the cursor past it and the delimiter after it, and writes `'\0'` over that delimiter and nowhere else |
| `StringTools.GetNumberOfTokens` | src/stringTools.c:10-34 | the count is the number of maximal non-empty runs of non-delimiter characters |
| `StringTools.TokenizeString` | src/stringTools.c:36-80 | no token means process exit; otherwise `strings` are the tokens left to right, `stringLengths` their lengths and `numStrings` their count |
| `StringTools.GetFirstToken` | src/stringTools.c:82-96 | the token is the first token, or NULL when there is none; `originalStr` is the tokenized copy: the input with `'\0'` over the delimiter that ends the first token, if any |
| `StringTools.GetLastToken` | src/stringTools.c:98-126 | the token is the last token, or NULL when there is none; `originalStr` is the tokenized copy: the input with `'\0'` over every delimiter that ends a token |
| `StringTools.AddCharacterToStart` | src/stringTools.c:128-150 | the result is `toAdd` followed by `original`, and its length is the sum of theirs |
| `StringTools.CheckIfCharInString` | src/stringTools.c:152-163 | true exactly when the character occurs before the first NUL, so `'\0'` is never found |
| `StringTools.ParseKeyValueBody` | src/stringTools.c:165-169 | the `&`-separated tokens of the body; a body without any is process exit |
| `StringTools.ExtractValueFromPair` | src/stringTools.c:171-194 | NULL when there is no `'='` or it comes first; otherwise the pair is a non-empty `'='`-free key, `'='`, and the result |
| `StringTools.ExtractValueOfPair` | src/stringTools.c:171-194 | for any non-empty key free of `'='`, `key=value` yields exactly `value` |
| `HttpRequest.HTTPRequest.constructor` | src/httpRequest.c:94-97 | method, path and protocol as given; the body starts NULL |
| `HttpRequest.IsValidHTTPMethod` | src/httpRequest.c:21-31 | true exactly for a non-NULL method equal to "GET", "POST" or "HEAD" |
| `HttpRequest.LowerCaseMethodIsInvalid` | src/httpRequest.c:21-31 | the method check is case-sensitive: "GET" passes and "get" does not |
| `HttpRequest.StripHTTPRequestReturnCharacters` | src/httpRequest.c:33-40 | the first token over the four characters `\`, `r`, `\`, `n` (not CR and LF); no token means process exit |
| `HttpRequest.StripCutsAtReturnLetter` | src/httpRequest.c:33-40 | a request line is cut at the first character that belongs to the delimiter set, whatever follows it |
| `HttpRequest.StripCutsAtLetterN` | src/httpRequest.c:12 | because the delimiters are letters, "GET /index.html" is cut to "GET /i" |
| `HttpRequest.InitializeHTTPRequest` | src/httpRequest.c:72-100 | any NULL argument is process exit; otherwise the struct holds copies of the three strings and a NULL body |
| `HttpRequest.InitializeHTTPRequestFromString` | src/httpRequest.c:42-70 | a NULL line, or one that does not split into exactly three space-separated tokens, is process exit; otherwise the fields are the three tokens and the body is NULL |
| `HttpRequest.RequestLineTokens` | src/httpRequest.c:55-67 | a line "method SP target SP version" whose parts hold no space splits back into exactly those parts |
| `HttpRequest.DoubleSpaceTokens` | src/httpRequest.c:55-64 | a run of spaces counts as one separator |
| `HttpRequest.SetHTTPRequestBody` | src/httpRequest.c:102-109 | a NULL request or body changes nothing; otherwise the body becomes the string and method, path and protocol stay |
| `Db.Datum` | include/db.h:28 | a string datum is the string's bytes, one per character, followed by a NUL: one byte longer than the string |
| `Db.DecodeEncode` | src/db.c:45-65 | an int written by `store_int` reads back as the same int through `retrieve_int`'s `memcpy` |
| `Db.Increment` | src/db.c:98 | `current_id++` adds one to any id below `INT_MAX` and stays an `int` |
| `Db.RetrieveInt` | src/db.c:110-125 | an int is found exactly when the key is present and its value is `sizeof(int)` bytes |
| `Db.RetrieveByte` | src/db.c:127-152 | NULL exactly for an absent key, otherwise a copy of the stored bytes |
| `Db.EntryKeyInjective` | src/db.c:87 | distinct non-negative ids give distinct `entry_%04d` keys |
| `Db.EntryKeyIsNotCounterKey` | src/db.c:87 | no entry key equals the counter key `entry_id` |
| `Db.PostEntry` | src/db.c:67-108 | 0 exactly when nothing fails. A failed open or entry write leaves the store as it was. Once the entry write succeeds, the entry key holds the body and its NUL. A failed counter write leaves the old store plus only that entry. On success the counter reads back as the old id plus one |
| `Db.PostEntrySuccess` | src/db.c:79-107 | a successful POST stores the body with its NUL under the current entry key, advances the counter by one, adds only those two keys and changes no other key |
| `Db.CounterWriteFailureRepeatsKey` | src/db.c:98-104 | when the counter write fails the entry is written but the counter stays, so the next POST overwrites that entry |
| `Db.MalformedCounterRestartsAtZero` | src/db.c:79-83 | a counter that is not four bytes counts as 0, so the next entry is `entry_0000` |
| `Db.PostKeepsEntry` | src/db.c:87-107 | a successful POST at id n leaves the entry of every smaller id unchanged |
| `Db.PostKeepsEntries` | src/db.c:87-107 | a successful POST keeps entries `0 … n-1` and adds entry n with its body |
| `Db.PostExtendsEntries` | src/db.c:67-108 | one more successful POST turns the store of K bodies into the store of K+1 bodies |
| `Db.SequentialEntries` | src/db.c:67-108 | K successful POSTs on an empty store leave exactly `entry_0000 … entry_(K-1)` with the K bodies in order, plus a counter equal to K |
| `Db.Database.DatabaseOpen` | src/db.c:24-33 | 0 and an open handle, or -1 and no handle; the data is untouched |
| `Db.Database.StoreString` | src/db.c:37-43 | success replaces the key's value with the string datum, which `retrieve_byte` then returns; failure changes nothing |
| `Db.Database.StoreInt` | src/db.c:45-65 | success replaces the key's value with the four bytes of the int, which `retrieve_int` then returns; failure changes nothing |
| `Db.Database.StorePostEntry` | src/db.c:67-108 | the step-by-step store operation returns and leaves exactly what `PostEntry` specifies, and the handle is closed afterwards |
| `Response.ContentLengthOfOkHeader` | src/server.c:422-435 | a client parsing the "200 OK" header reads back the `Content-Length` that was formatted into it |
| `Response.FormattedHeader` | src/server.c:425 | the header `snprintf` leaves in the buffer is a prefix of the full header, and is all of it when it fits |
| `Response.SendResponseHead` | src/server.c:422-435 | returns 0 or -1; -1 sends nothing; otherwise some prefix of the formatted header went out (same code at src/utils.c:267-280) |
| `Response.SendResponseResource` | src/server.c:389-414 | 0 means a header prefix followed by all `content_length` bytes of content went out; -1 means a header prefix and some prefix of the content went out (same code at src/utils.c:234-259) |
| `Response.StrNCopy` | src/utils.c:24-30 | `strncpy`: the first n slots hold the C string's characters, then NULs, and nothing past n changes |
| `Response.CheckIfRoot` | src/utils.c:19-34 | 0 exactly for the path "../data/", which becomes "index.html"; every other path is copied and cut to `BUFFER_SIZE-1` characters, with result 1 (same code at src/response.c:17-32) |
| `Response.ResourcePath` | src/utils.c:54-57 | the path opened always starts with "../data" |
| `Response.RootRequestOpensDataDirectory` | src/utils.c:54-57 | a request for "/" is not mapped to the default file: it opens "../data/" itself |
| `Response.RootPathOpensDataindex` | src/utils.c:19-34 | only the request path "../data/" is mapped, and it opens "../dataindex.html" |
| `Response.OpenResource` | src/utils.c:53-71 | the file is opened exactly when the mapped path exists |
| `Response.HeadReqResponse` | src/utils.c:36-84 | returns 0 exactly when the mapped file exists, and then sends a header carrying its size; otherwise returns -1 with no response (same code at src/response.c:34-80) |
| `Response.GetReqResponse` | src/utils.c:93-186 | as written: every call returns -1, and a found non-empty file is never sent (same code at src/response.c:89-180) |
| `Response.GetReqResponseIntended` | src/utils.c:117-163 | a missing or empty file returns -1 and sends nothing; 0 means the header and every byte of the file went out |
| `Response.HandlePostRequest` | src/server.c:440-471 | NULL request, NULL body or empty body: 400, -1 and the store untouched. Otherwise the store becomes what `store_post_entry` with "entry_id" leaves; a failure sends 500 and returns -1, and success sends 201 and returns 0 (same code at src/utils.c:191-224) |
| `Handler.RouteOf` | src/handler_v1.c:21-43 | exactly one branch per request: a NULL request gives 400, exact case-sensitive "GET", "HEAD" or "POST" picks that branch with the path or body, and any other method gives 405 |
| `Handler.HandleRequest` | src/handler_v1.c:17-44 | 400 and 405 send a prefix of their status line and return -1. GET, through the as-written `get_req_response`, returns -1 and sends nothing. HEAD sends the header of an existing file and returns 0, or returns -1 with nothing sent. POST answers 400, 500 or 201 as `handle_post_request` does and leaves the store `store_post_entry` leaves. Only POST touches the store |
| `Handler.HandleRequestIntended` | src/handler_v1.c:17-44 | the same router with the corrected GET: 0 means the header and every byte of the existing file went out, and a missing or empty file returns -1 with nothing sent |
| `SharedLib.Load` | src/shared_lib.c:17-52 | a stat failure returns NULL and changes nothing. A successful stat records the modification time even if `dlopen` or `dlsym` then fails. A `dlsym` failure closes the new handle and clears `current_handle`. Success sets `current_handle` and returns the handler |
| `SharedLib.CloseCurrent` | src/shared_lib.c:73-77 | `current_handle` is closed when set and becomes NULL |
| `SharedLib.CheckUpdate` | src/shared_lib.c:58-85 | without a strictly newer modification time nothing changes; otherwise the current library is closed, then the slot gets whatever the reload returns |
| `SharedLib.SecondCheckIsNoOp` | src/shared_lib.c:29-69 | after a reload whose own stat saw time t, a second check at time t changes nothing |
| `SharedLib.FailedReloadClearsHandler` | src/shared_lib.c:73-83 | a failed reload leaves NULL in the slot and the old handler's library closed |
| `SharedLib.CheckUpdateIntended` | src/shared_lib.c:58-85 | corrected reload: without a newer time nothing changes |
| `SharedLib.IntendedReloadKeepsLiveHandler` | src/shared_lib.c:79-83 | with the corrected reload a failed load keeps the old handler, and the handler in the slot always comes from an open library |
| `SharedLib.Loader.constructor` | src/shared_lib.c:10-11 | the globals start with time 0 and no handle |
| `SharedLib.Loader.LoadRequestHandler` | src/shared_lib.c:17-52 | the step-by-step load leaves the globals and returns the handler exactly as `Load` specifies |
| `SharedLib.Loader.CheckForHandlerUpdate` | src/shared_lib.c:58-85 | the step-by-step check leaves the globals and the slot exactly as `CheckUpdate` specifies |
| `SharedLib.Loader.CheckForHandlerUpdateIntended` | src/shared_lib.c:58-85 | the corrected check leaves the globals and the slot exactly as `CheckUpdateIntended` specifies |
| `Server.StrStr` | src/server.c:132 | `strstr`: the index of the first occurrence of the pattern, or NULL when it does not occur |
| `Server.BodyOf` | src/server.c:129-138 | the body is NULL exactly when no blank line `\r\n\r\n` occurs, and otherwise is everything after the first one |
| `Server.BodyAfterHead` | src/server.c:129-138 | when no blank line starts inside the head, the body is exactly what follows the head's blank line, even if it holds blank lines itself |
| `Server.BodyAfterHeaderLine` | src/server.c:129-138 | a request line and one non-empty header line, both without `'\r'`, followed by the blank line and a body, yield exactly that body |
| `Server.Received` | src/server.c:114 | at most `BUFFER_SIZE-1` bytes are received, a prefix of what the client sent |
| `Server.ExtractRequest` | src/server.c:114-138 | nothing received closes the connection without parsing. A first `\n` line that does not split into three tokens is process exit. Otherwise the request is built from that line, and only a POST gets the body after the first blank line |
| `Server.ProtocolKeepsCarriageReturn` | src/server.c:124-125 | a CRLF-terminated request line yields a protocol token ending in `'\r'` |
| `Server.ServeConnection` | src/server.c:99-154 | nothing received handles nothing and changes nothing; a first line that does not parse is process exit; a parsed request runs the as-written reload, which leaves the globals and the slot as `CheckUpdate` says, and the pass crashes exactly when that leaves NULL in the slot; otherwise the handler's result is 0 or -1 |
| `Server.ServeConnectionIntended` | src/server.c:99-154 | the same pass with the corrected reload and the corrected GET: the slot is what `CheckUpdateIntended` leaves, and the pass crashes only for a worker that never had a handler |
| `Server.StrToL` | src/server.c:317 | `strtol`: the value lies in the range of `long`, the end lies within the string, and no digits means value 0 at the start |
| `Server.ToInt32` | src/server.c:317 | the `(int)` cast of a `long` lands in the 32-bit range and differs from the value by a multiple of 2^32 |
| `Server.PortCastKeepsLow16` | src/server.c:317-325 | the `(int)` and `(uint16_t)` casts keep the low 16 bits of the value, with no range check |
| `Server.SocketBind` | src/server.c:301-336 | -1 exactly when `inet_pton` rejects the address or the port text continues past the number with something other than `'\n'`; a failing bind is process exit; on success the port is the value cut to 16 bits |
| `Server.DecimalPortAccepted` | src/server.c:317-319 | a decimal port, bare or followed by `'\n'`, is accepted with its own value |
| `Server.EmptyPortIsZero` | src/server.c:317-319 | the empty port is accepted as port 0 |
| `Server.TrailingCharacterRejected` | src/server.c:319-323 | a decimal port followed by any other non-digit is rejected |
| `Cli.LastArg` | src/main.c:50-67 | the last occurrence's argument wins, and NULL is kept when the option never occurs |
| `Cli.ParseArgs` | src/main.c:39-76 | process exit exactly when an option is unknown, or after the loop a field is NULL, the address has no `'.'` or the port has one; otherwise the arguments are the last value of each option |
| `Cli.HandleArgs` | src/main.c:78-114 | returns 1 exactly for a NULL field or a type other than "client" and "server"; "client" connects, and "server" starts the pool with "./handlers/handler_v1.so" and 4 workers on the given address and port |
| `Cli.ServerCommandLine` | src/main.c:69-104 | `-t server -i <ip> -p <port>`, for any address with a `.` and any port without one, passes validation and starts the server on that address and port |
| `Cli.AddressAloneRejected` | src/main.c:69-73 | an address alone, without type and port, fails validation |
| `Cli.ValidArgumentsDispatch` | src/main.c:86-113 | after validation the NULL branch of `handle_args` is dead: 1 means an unknown type |
| `FileTools.InitializeFileDataStruct` | src/fileTools.c:29-82 | process exit exactly for a name length ≤ 0, a negative content length, or a NULL name or content; otherwise both lengths are stored as given and both strings copied |
| `FileTools.GetFileDataFromFilePath` | src/fileTools.c:84-141 | a NULL or unopenable path is process exit. A path with no `/`-token crashes in `strlen(NULL)`. An empty file is process exit. Otherwise the name is the last `/`-token with its length, and the content is the file with its size |
| `FileTools.FileNameOfPath` | src/fileTools.c:130-132 | a path made of directory names and a file name joined by `/` yields that file name |

## Left out

- The pre-fork pool and the monitor loop are not modelled: `fork`, `waitpid`, respawning
  workers, and signal handling (src/sigintHandler.c). They are process-level concurrency.
  The race between workers on the store counter is therefore not modelled either.
- The store counter is per store, not shared between processes. Each `store_post_entry` sees
  the store as the previous one left it.
- Socket setup is not modelled: `socket`, `listen`, `accept`, `close`, and
  `server_setup`/`server_close`/`client_close`.
- `connect_client` and `start_prefork_server` are not modelled. `handle_args` stops at the
  dispatch decision.
- `recv` is modelled as delivering up to `BUFFER_SIZE-1` of the bytes the client sent in one
  call. An empty input stands for `recv` returning 0 or -1.
- `Response.SendResponseHead` and `Response.SendResponseResource` do not pin down how many
  bytes each `send` delivers. That is the kernel's choice, so the contracts say "some
  prefix".
- `Server.ServeConnection` does not state the handler's effect on the socket and the store.
  Those effects are stated by `Handler.HandleRequest`, which it calls.
- `SharedLib.IntendedReloadKeepsLiveHandler` assumes that `dlopen` returns a handle that is
  neither the current one nor one already closed (`SharedLib.IsFreshHandle`). The reference
  counts of the dynamic loader are not modelled: glibc's `dlopen` of a library that is still
  loaded returns the same handle with its count raised. So the lemma does not cover a reload
  of the same file while the old library is open; the corrected remedy is proved only for
  a fresh handle.
- `SharedLib.CheckUpdateIntended` states only the no-reload case in its own contract. What
  it does on a reload is stated by `SharedLib.IntendedReloadKeepsLiveHandler`.
- Allocation failures are not modelled: `malloc`/`strdup` returning NULL, and the
  `created_response == NULL` branch of `handle_post_request`. Memory release and the leaks
  of `tokenizeString` are not behaviour.
- Logging is left out: `printf`, `perror`, `printHTTPRequestStruct`, `printFileDataStruct`
  and src/db_viewer.c.
- `appendTextToFile` and `writeTextToFile` are left out. They are plain file writes that no
  core operation calls.
- A file is a character sequence with a cursor, and `fopen` fails exactly for a missing
  path. Permissions and other `errno` cases are not distinguished.
- In `getFileDataFromFilePath`, `read` is assumed to return the whole file. A short read is
  not modelled.
- `FileTools.GetFileDataFromFilePath` does not model the `(int)strlen` cast of the name
  length. File names are assumed shorter than 2^31 characters.
- The ndbm internals, the `stat`/`dlopen`/`dlsym`/`dlclose` internals, and `inet_pton`
  parsing of the address are inputs, not models.
- The value of `BUFFER_SIZE` is not part of this model. Every property holds for any
  positive size.
- `getopt` is modelled as the sequence of (letter, argument) pairs it returns. An unknown
  option and a missing argument both arrive as a letter other than `t`, `i` and `p`.
- `handle_request`'s checks for a NULL method or path cannot fail on a request built by
  `initializeHTTPRequestFromString`, which exits instead. The model therefore has no NULL
  fields, and only a NULL request reaches the 400 branch.
- `Db.Increment`: `current_id++` at `INT_MAX` is signed overflow, which C leaves undefined.
  The model chooses the two's-complement wrap to `INT_MIN`; only ids below `INT_MAX` get the
  promised "plus one".
- `strtol` is modelled on 64-bit `long` with `errno` ignored. Out-of-range values clamp to
  `LONG_MIN`/`LONG_MAX`, as `strtol` specifies.

## Findings

| source | as written | input that shows it | evidently intended | confidence | as-written member | corrected member |
|---|---|---|---|---|---|---|
| src/utils.c:144-173 | `get_req_response` reads the file into the buffer, then calls `fread` a second time from where the first read stopped and requires it to return the file size again (same code at src/response.c:138-167) | any existing non-empty file, e.g. a 5-byte `../data/a.html` requested as `/a.html`: the second read returns 0, so the call returns -1 and sends nothing | one read, then the header and the file are sent and 0 returned | high, not executed | `Response.GetReqResponse` | `Response.GetReqResponseIntended` |
| src/shared_lib.c:73-83 | `check_for_handler_update` closes the current library and then stores whatever `load_request_handler` returns into the slot, so a failed reload writes NULL although the message says "Keeping old handler"; the worker then calls through NULL (src/server.c:142) | a newer modification time with `dlopen` failing (e.g. a half-written library file) | load the new library first and replace the library and the handler only on success; proved for a `dlopen` that returns a fresh handle (see "## Left out") | high, not executed | `SharedLib.FailedReloadClearsHandler` | `SharedLib.IntendedReloadKeepsLiveHandler` |
