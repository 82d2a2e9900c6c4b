/**
 * The sequential parts of src/server.c: how a worker turns the bytes it
 * receives into an `HTTPRequest`, one pass of the worker loop, and the
 * address and port checks of socket_bind.
 *
 * A connection's input is `incoming`, the bytes the client has sent when the
 * worker calls recv; an empty `incoming` stands for a recv that returns 0
 * (the peer closed) or -1.
 */
module Server {
  import opened Common
  import opened StringTools
  import opened HttpRequest
  import opened Db
  import opened Response
  import opened Handler
  import opened SharedLib

  /** The delimiter of getFirstToken in the worker loop: the request line ends at the first '\n'. */
  const LINE_DELIMITER: string := "\n"

  /** The blank line that ends the header section. */
  const BODY_SEPARATOR: string := "\r\n\r\n"

  // ---------------------------------------------------------------------------
  // strstr and the POST body
  // ---------------------------------------------------------------------------

  /** `pat` occurs in `s` starting at index `i`. */
  predicate OccursAt(s: string, pat: string, i: nat)
  {
    i + |pat| <= |s| && s[i..i + |pat|] == pat
  }

  /** Dropping the first character shifts every occurrence one place left. */
  lemma OccursAtShift(s: string, pat: string)
    requires s != []
    ensures forall i: nat :: 1 <= i ==> (OccursAt(s, pat, i) <==> OccursAt(s[1..], pat, i - 1))
  {
    forall i: nat | 1 <= i
      ensures OccursAt(s, pat, i) <==> OccursAt(s[1..], pat, i - 1)
    {
      if i + |pat| <= |s| {
        assert s[1..][i - 1..i - 1 + |pat|] == s[i..i + |pat|];
      }
    }
  }

  /** strstr(s, pat): the index of the first occurrence of `pat` in `s`, or NULL when there is none. */
  function StrStr(s: string, pat: string): (r: Option<nat>)
    requires pat != []
    ensures r.Some? ==> OccursAt(s, pat, r.value)
    ensures r.Some? ==> forall i: nat :: i < r.value ==> !OccursAt(s, pat, i)
    ensures r.None? ==> forall i: nat :: !OccursAt(s, pat, i)
    decreases |s|
  {
    if |s| < |pat| then None
    else if s[..|pat|] == pat then Some(0)
    else
      OccursAtShift(s, pat);
      match StrStr(s[1..], pat)
      case None => None
      case Some(k) => Some(k + 1)
  }

  /** The body the worker sets on a POST: everything after the first blank line, or nothing without one. */
  function BodyOf(text: string): (body: Option<string>)
    ensures body.None? <==> forall i: nat :: !OccursAt(text, BODY_SEPARATOR, i)
    ensures body.Some? ==> exists i: nat :: && OccursAt(text, BODY_SEPARATOR, i)
                                            && (forall j: nat :: j < i ==> !OccursAt(text, BODY_SEPARATOR, j))
                                            && body.value == text[i + |BODY_SEPARATOR|..]
  {
    match StrStr(text, BODY_SEPARATOR)
    case None => None
    case Some(i) => Some(text[i + |BODY_SEPARATOR|..])
  }

  /**
   * A request whose head does not start a blank line anywhere, not even
   * across its end, has as body exactly what follows the blank line after
   * it, even when the body holds blank lines itself.
   */
  lemma BodyAfterHead(head: string, body: string)
    requires forall i: nat :: i < |head| ==> !OccursAt(head + BODY_SEPARATOR, BODY_SEPARATOR, i)
    ensures BodyOf(head + BODY_SEPARATOR + body) == Some(body)
  {
    var text := head + BODY_SEPARATOR + body;
    var padded := head + BODY_SEPARATOR;
    forall i: nat | i < |head|
      ensures !OccursAt(text, BODY_SEPARATOR, i)
    {
      assert i + |BODY_SEPARATOR| <= |padded|;
      assert text[i..i + |BODY_SEPARATOR|] == padded[i..i + |BODY_SEPARATOR|];
      assert !OccursAt(padded, BODY_SEPARATOR, i);
    }
    assert text[|head|..|head| + |BODY_SEPARATOR|] == BODY_SEPARATOR;
    assert OccursAt(text, BODY_SEPARATOR, |head|);
    assert text[|head| + |BODY_SEPARATOR|..] == body;
  }

  /** A blank line starts with a carriage return and has another two places later. */
  lemma BlankLineAt(s: string, i: nat)
    ensures OccursAt(s, BODY_SEPARATOR, i) ==> s[i] == '\r' && s[i + 1] == '\n' && s[i + 2] == '\r'
  {
    if OccursAt(s, BODY_SEPARATOR, i) {
      assert s[i..i + 4][0] == s[i];
      assert s[i..i + 4][1] == s[i + 1];
      assert s[i..i + 4][2] == s[i + 2];
    }
  }

  /**
   * A head made of a request line and one non-empty header line, neither
   * holding a carriage return: the CRLF that ends the request line does not
   * start the blank line, so the body is what follows the header.
   */
  lemma BodyAfterHeaderLine(requestLine: string, header: string, body: string)
    requires '\r' !in requestLine && '\r' !in header && header != []
    ensures BodyOf(requestLine + "\r\n" + header + BODY_SEPARATOR + body) == Some(body)
  {
    var head := requestLine + "\r\n" + header;
    var padded := head + BODY_SEPARATOR;
    forall i: nat | i < |head|
      ensures !OccursAt(padded, BODY_SEPARATOR, i)
    {
      BlankLineAt(padded, i);
      if i < |requestLine| {
        assert padded[i] == requestLine[i];
      } else if i == |requestLine| {
        assert padded[i + 2] == header[0];
      } else if i == |requestLine| + 1 {
        assert padded[i] == '\n';
      } else {
        assert padded[i] == header[i - |requestLine| - 2];
      }
    }
    assert requestLine + "\r\n" + header + BODY_SEPARATOR + body == head + BODY_SEPARATOR + body;
    BodyAfterHead(head, body);
  }

  // ---------------------------------------------------------------------------
  // From received bytes to a request
  // ---------------------------------------------------------------------------

  /** What a worker makes of one connection before calling the handler. */
  datatype Extracted = Closed | Parsed(request: HTTPRequest)

  /** The bytes recv places in the buffer: at most BUFFER_SIZE-1 of them (server.c:114). */
  function Received(incoming: seq<char>): (received: seq<char>)
    ensures |received| < BUFFER_SIZE && received <= incoming
  {
    Truncate(incoming, BUFFER_SIZE - 1)
  }

  /**
   * The request extraction of the worker loop (server.c:114-138): receive
   * at most BUFFER_SIZE-1 bytes, close without parsing when there are none,
   * terminate the buffer, build the request from the first '\n'-delimited
   * token, and for method "POST" set the body to what follows the first
   * blank line, when there is one. A first line that does not split into
   * exactly three space-separated tokens ends the worker process.
   */
  method ExtractRequest(incoming: seq<char>) returns (r: Run<Extracted>)
    ensures !r.Crash?
    ensures r == Returns(Closed) <==> Received(incoming) == []
    ensures var lines := Tokens(CString(Received(incoming)), LINE_DELIMITER);
            r.ExitFailure? <==> Received(incoming) != [] && (lines == [] || |Tokens(lines[0], " ")| != NUM_HTTP_REQUEST_TOKENS)
    ensures r.Returns? && r.value.Parsed? ==>
              var text := CString(Received(incoming));
              var words := Tokens(Tokens(text, LINE_DELIMITER)[0], " ");
              var request := r.value.request;
              && fresh(request)
              && request.httpMethod == words[0] && request.path == words[1] && request.protocol == words[2]
              && request.body == (if words[0] == "POST" then BodyOf(text) else None)
  {
    var received := Received(incoming);
    if |received| <= 0 {
      return Returns(Closed);
    }
    var buffer := received + ['\0'];
    CStringOfTerminated(buffer, CString(received));
    var text := CString(buffer);
    var firstLine := GetFirstToken(text, LINE_DELIMITER);
    var made := InitializeHTTPRequestFromString(firstLine.token);
    if made.ExitFailure? {
      return ExitFailure;
    }
    var request := made.value;
    if request.httpMethod == "POST" {
      var bodyStart := StrStr(text, BODY_SEPARATOR);
      if bodyStart.Some? {
        SetHTTPRequestBody(request, Some(text[bodyStart.value + |BODY_SEPARATOR|..]));
      }
    }
    r := Returns(Parsed(request));
  }

  /**
   * The request line is cut at '\n' only, so a line ended by CRLF keeps its
   * carriage return in the protocol token.
   */
  lemma {:induction false} ProtocolKeepsCarriageReturn(httpMethod: string, target: string, version: string, rest: string)
    requires IsToken(httpMethod, " ") && IsToken(target, " ") && IsToken(version, " ")
    requires '\n' !in httpMethod && '\n' !in target && '\n' !in version
    ensures var text := httpMethod + " " + target + " " + version + "\r\n" + rest;
            Tokens(Tokens(text, LINE_DELIMITER)[0], " ") == [httpMethod, target, version + "\r"]
  {
    var line := httpMethod + " " + target + " " + (version + "\r");
    assert httpMethod + " " + target + " " + version + "\r\n" + rest == line + ['\n'] + rest;
    TokensSplit(line, '\n', rest, LINE_DELIMITER);
    assert IsToken(line, LINE_DELIMITER) by {
      forall i | 0 <= i < |line|
        ensures line[i] !in LINE_DELIMITER
      {
        if i < |httpMethod| {
          assert line[i] == httpMethod[i];
        } else if i == |httpMethod| {
        } else if i < |httpMethod| + 1 + |target| {
          assert line[i] == target[i - |httpMethod| - 1];
        } else if i == |httpMethod| + 1 + |target| {
        } else if i < |line| - 1 {
          assert line[i] == version[i - |httpMethod| - |target| - 2];
        }
      }
    }
    TokensOfToken(line, LINE_DELIMITER);
    RequestLineTokens(httpMethod, target, version + "\r");
  }

  // ---------------------------------------------------------------------------
  // One pass of the worker loop
  // ---------------------------------------------------------------------------

  /** The received bytes hold a request line of exactly three space-separated tokens. */
  predicate RequestLineParses(incoming: seq<char>)
  {
    var lines := Tokens(CString(Received(incoming)), LINE_DELIMITER);
    Received(incoming) != [] && lines != [] && |Tokens(lines[0], " ")| == NUM_HTTP_REQUEST_TOKENS
  }

  /**
   * One pass of the worker loop (server.c:99-154): extract the request, run
   * check_for_handler_update as written, and call the handler in the slot; a
   * NULL slot is a call through a NULL pointer. So a parsed request crashes
   * the worker exactly when the reload leaves NULL in the slot, which a
   * failed reload does even when a working handler was there before.
   * `Returns(None)` is a connection closed without a request.
   */
  method ServeConnection(sock: Socket, incoming: seq<char>, fs: FileSystem, db: Database,
                         loader: Loader, slot: HandlerSlot, checkStat: Option<int>, reload: LoadOutcome, faults: Faults)
    returns (r: Run<Option<int>>)
    modifies sock, db, loader, slot
    ensures r == Returns(None) <==> Received(incoming) == []
    ensures Received(incoming) == [] ==>
              sock.wire == old(sock.wire) && db.data == old(db.data) && loader.State() == old(loader.State())
              && slot.handler == old(slot.handler)
    ensures r.ExitFailure? <==> Received(incoming) != [] && !RequestLineParses(incoming)
    ensures RequestLineParses(incoming) ==>
              Loaded(loader.State(), slot.handler) == CheckUpdate(old(loader.State()), old(slot.handler), checkStat, reload)
    ensures r.Crash? <==> RequestLineParses(incoming)
                          && CheckUpdate(old(loader.State()), old(slot.handler), checkStat, reload).handler.None?
    ensures r.Returns? && r.value.Some? ==> r.value.value == 0 || r.value.value == -1
  {
    var extracted := ExtractRequest(incoming);
    match extracted {
      case ExitFailure => return ExitFailure;
      case Crash => return Crash;
      case Returns(Closed) => return Returns(None);
      case Returns(Parsed(request)) =>
        loader.CheckForHandlerUpdate(checkStat, reload, slot);
        if slot.handler.None? {
          return Crash;
        }
        var ret := HandleRequest(sock, fs, db, request, faults);
        return Returns(Some(ret));
    }
  }

  /**
   * The worker pass with both corrections: the reload keeps a working
   * handler when it fails, and GET is served by the corrected
   * get_req_response. A worker that had a handler never calls through NULL.
   */
  method ServeConnectionIntended(sock: Socket, incoming: seq<char>, fs: FileSystem, db: Database,
                                 loader: Loader, slot: HandlerSlot, checkStat: Option<int>, reload: LoadOutcome, faults: Faults)
    returns (r: Run<Option<int>>)
    modifies sock, db, loader, slot
    ensures r == Returns(None) <==> Received(incoming) == []
    ensures Received(incoming) == [] ==>
              sock.wire == old(sock.wire) && db.data == old(db.data) && loader.State() == old(loader.State())
              && slot.handler == old(slot.handler)
    ensures r.ExitFailure? <==> Received(incoming) != [] && !RequestLineParses(incoming)
    ensures RequestLineParses(incoming) ==>
              Loaded(loader.State(), slot.handler) == CheckUpdateIntended(old(loader.State()), old(slot.handler), checkStat, reload)
    ensures r.Crash? <==> RequestLineParses(incoming)
                          && CheckUpdateIntended(old(loader.State()), old(slot.handler), checkStat, reload).handler.None?
    ensures r.Crash? ==> old(slot.handler).None?
    ensures r.Returns? && r.value.Some? ==> r.value.value == 0 || r.value.value == -1
  {
    var extracted := ExtractRequest(incoming);
    match extracted {
      case ExitFailure => return ExitFailure;
      case Crash => return Crash;
      case Returns(Closed) => return Returns(None);
      case Returns(Parsed(request)) =>
        loader.CheckForHandlerUpdateIntended(checkStat, reload, slot);
        if slot.handler.None? {
          return Crash;
        }
        var ret := HandleRequestIntended(sock, fs, db, request, faults);
        return Returns(Some(ret));
    }
  }

  // ---------------------------------------------------------------------------
  // socket_bind: the port string
  // ---------------------------------------------------------------------------

  const LONG_MIN: int := -0x8000_0000_0000_0000
  const LONG_MAX: int := 0x7fff_ffff_ffff_ffff

  /** isspace in the C locale. */
  predicate IsSpace(c: char)
  {
    c == ' ' || c == '\t' || c == '\n' || c == '\r' || c as int == 11 || c as int == 12
  }

  /** The number of leading white-space characters. */
  function SpacePrefix(s: string): (n: nat)
    ensures n <= |s|
    ensures forall i :: 0 <= i < n ==> IsSpace(s[i])
    ensures n < |s| ==> !IsSpace(s[n])
  {
    if s == [] || !IsSpace(s[0]) then 0 else 1 + SpacePrefix(s[1..])
  }

  /** The number of leading decimal digits. */
  function DigitPrefix(s: string): (n: nat)
    ensures n <= |s|
    ensures AllDigits(s[..n])
    ensures n < |s| ==> !IsDigit(s[n])
  {
    if s == [] || !IsDigit(s[0]) then 0
    else
      var n := 1 + DigitPrefix(s[1..]);
      assert s[..n] == [s[0]] + s[1..][..n - 1];
      n
  }

  /** The digit count is fixed by where the first non-digit stands. */
  lemma DigitPrefixIs(s: string, n: nat)
    requires n <= |s| && AllDigits(s[..n])
    requires n < |s| ==> !IsDigit(s[n])
    ensures DigitPrefix(s) == n
  {
    if n > 0 {
      assert s[1..][..n - 1] == s[1..n];
      DigitPrefixIs(s[1..], n - 1);
    }
  }

  /** The value strtol converted and where it stopped (`endptr` as an index). */
  datatype Conversion = Conversion(value: int, end: nat)

  /**
   * strtol(s, &endptr, 10): optional white space, an optional sign and a run
   * of digits, clamped to the range of a 64-bit `long`; with no digits the
   * value is 0 and `endptr` is the start of the string.
   */
  function StrToL(s: string): (r: Conversion)
    ensures r.end <= |s|
    ensures LONG_MIN <= r.value <= LONG_MAX
    ensures r.end == 0 ==> r.value == 0
  {
    var start := SpacePrefix(s);
    var signed := start < |s| && (s[start] == '+' || s[start] == '-');
    var first := if signed then start + 1 else start;
    var count := DigitPrefix(s[first..]);
    if count == 0 then Conversion(0, 0)
    else
      assert s[first..][..count] == s[first..first + count];
      var magnitude := ParseDecimal(s[first..first + count]);
      var value: int := if signed && s[start] == '-' then -(magnitude as int) else magnitude;
      Conversion(if value < LONG_MIN then LONG_MIN else if value > LONG_MAX then LONG_MAX else value, first + count)
  }

  /** socket_bind's port check: the conversion must stop at the end of the string or at a '\n'. */
  predicate PortAccepted(port: string)
  {
    var p := CString(port);
    var c := StrToL(p);
    c.end == |p| || p[c.end] == '\n'
  }

  /** The `(int)` cast of a `long`: the low 32 bits as two's complement. */
  function ToInt32(v: int): (x: int)
    ensures -0x8000_0000 <= x < 0x8000_0000
    ensures (x - v) % 0x1_0000_0000 == 0
  {
    var u := v % 0x1_0000_0000;
    if u >= 0x8000_0000 then u - 0x1_0000_0000 else u
  }

  /** The `(uint16_t)` cast: the low 16 bits. */
  function ToUint16(v: int): (x: nat)
    ensures x < 0x1_0000
  {
    v % 0x1_0000
  }

  /** The two casts together keep the low 16 bits of the converted value: there is no range check. */
  lemma PortCastKeepsLow16(v: int)
    ensures ToUint16(ToInt32(v)) == v % 0x1_0000
  {
    var u := v % 0x1_0000_0000;
    Low16OfShift(u, v / 0x1_0000_0000);
    assert v == u + 0x1_0000 * (0x1_0000 * (v / 0x1_0000_0000));
    if u >= 0x8000_0000 {
      Low16OfShift(u - 0x1_0000_0000, 1);
    }
  }

  /** Adding a multiple of 2^16 keeps the low 16 bits. */
  lemma Low16OfShift(a: int, k: int)
    ensures (a + 0x1_0000 * (0x1_0000 * k)) % 0x1_0000 == a % 0x1_0000
  {
    var q := a / 0x1_0000;
    var r := a % 0x1_0000;
    Low16OfDecomposition(a + 0x1_0000 * (0x1_0000 * k), q + 0x1_0000 * k, r);
  }

  /** The remainder modulo 2^16 is the unique one in range. */
  lemma Low16OfDecomposition(b: int, q: int, r: int)
    requires 0 <= r < 0x1_0000 && b == 0x1_0000 * q + r
    ensures b % 0x1_0000 == r
  {
    var d := b / 0x1_0000;
    assert 0x1_0000 * (q - d) == b % 0x1_0000 - r;
  }

  /**
   * socket_bind (server.c:301-336): -1 when inet_pton rejects the address or
   * the port text has anything but '\n' after the converted prefix;
   * otherwise the port is the converted value cut to 16 bits, and a failing
   * bind ends the process. `ipAccepted` and `bindFails` are the results of
   * inet_pton and bind.
   */
  method SocketBind(port: string, ipAccepted: bool, bindFails: bool) returns (r: Run<int>, sinPort: nat)
    ensures !r.Crash?
    ensures r == Returns(-1) <==> !ipAccepted || !PortAccepted(port)
    ensures r.ExitFailure? <==> ipAccepted && PortAccepted(port) && bindFails
    ensures r.Returns? ==> r.value == 0 || r.value == -1
    ensures r == Returns(0) ==> sinPort == StrToL(CString(port)).value % 0x1_0000
  {
    sinPort := 0;
    if !ipAccepted {
      return Returns(-1), sinPort;
    }
    var p := CString(port);
    var conversion := StrToL(p);
    var portValue := ToInt32(conversion.value);
    var endChar := if conversion.end < |p| then p[conversion.end] else '\0';
    if endChar != '\0' && endChar != '\n' {
      return Returns(-1), sinPort;
    }
    PortCastKeepsLow16(conversion.value);
    sinPort := ToUint16(portValue);
    if bindFails {
      return ExitFailure, sinPort;
    }
    return Returns(0), sinPort;
  }

  /** A decimal port, bare or followed by '\n', is accepted and converted to its value. */
  lemma {:induction false} DecimalPortAccepted(n: nat, newline: bool)
    requires n <= LONG_MAX
    ensures var port := Decimal(n) + (if newline then "\n" else "");
            PortAccepted(port) && StrToL(CString(port)).value == n
  {
    var port := Decimal(n) + (if newline then "\n" else "");
    var digits := Decimal(n);
    assert '\0' !in port by {
      forall i | 0 <= i < |port|
        ensures port[i] != '\0'
      {
        if i < |digits| {
          assert IsDigit(port[i]);
        }
      }
    }
    assert !IsSpace(port[0]) by {
      assert port[0] == digits[0];
    }
    assert SpacePrefix(port) == 0;
    assert port[0..] == port;
    assert port[..|digits|] == digits;
    DigitPrefixIs(port, |digits|);
    ParseDecimalOfDecimal(n);
  }

  /** The empty port is accepted as port 0: strtol stops at once and finds the terminator. */
  lemma EmptyPortIsZero()
    ensures PortAccepted("") && StrToL(CString("")).value == 0
  {
  }

  /** A decimal port followed by any other non-digit character is rejected. */
  lemma {:induction false} TrailingCharacterRejected(n: nat, c: char)
    requires n <= LONG_MAX
    requires !IsDigit(c) && c != '\n' && c != '\0'
    ensures !PortAccepted(Decimal(n) + [c])
  {
    var port := Decimal(n) + [c];
    var digits := Decimal(n);
    assert '\0' !in port by {
      forall i | 0 <= i < |port|
        ensures port[i] != '\0'
      {
        if i < |digits| {
          assert IsDigit(port[i]);
        }
      }
    }
    assert !IsSpace(port[0]) by {
      assert port[0] == digits[0];
    }
    assert SpacePrefix(port) == 0;
    assert port[0..] == port;
    assert port[..|digits|] == digits;
    DigitPrefixIs(port, |digits|);
  }
}
