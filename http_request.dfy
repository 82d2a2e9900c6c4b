/**
 * The request structure of src/httpRequest.c and include/httpRequest.h:
 * construction from the request line, the method check, the body setter and
 * the "return character" stripper.
 */
module HttpRequest {
  import opened Common
  import opened StringTools

  /** NUM_HTTP_REQUEST_TOKENS (httpRequest.c:11). */
  const NUM_HTTP_REQUEST_TOKENS: nat := 3

  /**
   * RETURN_CHARACTERS (httpRequest.c:12): the C literal "\\r\\n" is the four
   * characters backslash, 'r', backslash, 'n' — not carriage return and line feed.
   */
  const RETURN_CHARACTERS: string := ['\\', 'r', '\\', 'n']

  /** The `HTTPRequest` struct; `body` is NULL until a POST body is set. */
  class HTTPRequest {
    var httpMethod: string
    var path: string
    var protocol: string
    var body: Option<string>

    constructor (httpMethod: string, path: string, protocol: string)
      ensures this.httpMethod == httpMethod && this.path == path && this.protocol == protocol
      ensures body.None?
    {
      this.httpMethod := httpMethod;
      this.path := path;
      this.protocol := protocol;
      body := None;
    }
  }

  /** The three methods the server answers. */
  const HTTP_METHODS: set<string> := {"GET", "POST", "HEAD"}

  /**
   * isValidHTTPMethod (httpRequest.c:21-31): false for NULL, then three
   * strcmp calls against "GET", "POST" and "HEAD".
   */
  function IsValidHTTPMethod(httpMethod: Option<string>): (valid: bool)
    ensures valid <==> httpMethod.Some? && httpMethod.value in HTTP_METHODS
  {
    if httpMethod.None? then false
    else httpMethod.value == "GET" || httpMethod.value == "POST" || httpMethod.value == "HEAD"
  }

  /** The comparison is case-sensitive: "get" is not a valid method. */
  lemma LowerCaseMethodIsInvalid()
    ensures !IsValidHTTPMethod(Some("get"))
    ensures IsValidHTTPMethod(Some("GET"))
  {
    assert "get"[0] != "GET"[0];
  }

  /**
   * stripHTTPRequestReturnCharacters (httpRequest.c:33-40): the first token
   * over the delimiter set {'\\', 'r', 'n'}; a string with no such token ends the process.
   */
  method StripHTTPRequestReturnCharacters(s: string) returns (r: Run<string>)
    ensures !r.Crash?
    ensures r.ExitFailure? <==> Tokens(s, RETURN_CHARACTERS) == []
    ensures r.Returns? ==> r.value == Tokens(s, RETURN_CHARACTERS)[0]
    ensures r.Returns? ==> IsToken(r.value, RETURN_CHARACTERS)
  {
    var tokenized := TokenizeString(s, RETURN_CHARACTERS);
    if tokenized.ExitFailure? {
      return ExitFailure;
    }
    r := Returns(tokenized.value.strings[0]);
  }

  /**
   * The stripper keeps only what comes before the first backslash, 'r' or
   * 'n', whatever follows it.
   */
  lemma {:induction false} StripCutsAtReturnLetter(prefix: string, c: char, rest: string)
    requires IsToken(prefix, RETURN_CHARACTERS) && c in RETURN_CHARACTERS
    ensures Tokens(prefix + [c] + rest, RETURN_CHARACTERS)[0] == prefix
  {
    TokensSplit(prefix, c, rest, RETURN_CHARACTERS);
    TokensOfToken(prefix, RETURN_CHARACTERS);
  }

  /** The stripper cuts at the letter 'n' of "index": "GET /index.html" becomes "GET /i". */
  lemma StripCutsAtLetterN()
    ensures Tokens("GET /index.html", RETURN_CHARACTERS)[0] == "GET /i"
  {
    assert "GET /index.html" == "GET /i" + ['n'] + "dex.html";
    assert IsToken("GET /i", RETURN_CHARACTERS) by {
      forall i | 0 <= i < 6
        ensures "GET /i"[i] !in RETURN_CHARACTERS
      {
      }
    }
    StripCutsAtReturnLetter("GET /i", 'n', "dex.html");
  }

  /**
   * initializeHTTPRequest (httpRequest.c:72-100): exits when any argument is
   * NULL, otherwise copies the three strings and leaves the body NULL.
   */
  method InitializeHTTPRequest(httpMethod: Option<string>, path: Option<string>, protocol: Option<string>)
    returns (r: Run<HTTPRequest>)
    ensures !r.Crash?
    ensures r.Returns? <==> httpMethod.Some? && path.Some? && protocol.Some?
    ensures r.Returns? ==> fresh(r.value)
    ensures r.Returns? ==> r.value.httpMethod == httpMethod.value && r.value.path == path.value
                           && r.value.protocol == protocol.value && r.value.body.None?
  {
    if httpMethod.None? || path.None? || protocol.None? {
      return ExitFailure;
    }
    var request := new HTTPRequest(httpMethod.value, path.value, protocol.value);
    r := Returns(request);
  }

  /**
   * initializeHTTPRequestFromString (httpRequest.c:42-70): a NULL string ends
   * the process; otherwise the string is split on runs of spaces and any
   * token count other than three ends the process too (there is no 400 here).
   */
  method InitializeHTTPRequestFromString(s: Option<string>) returns (r: Run<HTTPRequest>)
    ensures !r.Crash?
    ensures r.Returns? <==> s.Some? && |Tokens(s.value, " ")| == NUM_HTTP_REQUEST_TOKENS
    ensures r.Returns? ==> fresh(r.value)
    ensures r.Returns? ==> var t := Tokens(s.value, " ");
                           r.value.httpMethod == t[0] && r.value.path == t[1]
                           && r.value.protocol == t[2] && r.value.body.None?
  {
    if s.None? {
      return ExitFailure;
    }
    var tokenized := TokenizeString(s.value, " ");
    if tokenized.ExitFailure? {
      return ExitFailure;
    }
    if tokenized.value.numStrings != NUM_HTTP_REQUEST_TOKENS {
      return ExitFailure;
    }
    var strings := tokenized.value.strings;
    r := InitializeHTTPRequest(Some(strings[0]), Some(strings[1]), Some(strings[2]));
  }

  /**
   * A request line "method SP target SP version" whose three parts hold no
   * space is split back into exactly those three parts, whatever the parts are.
   */
  lemma {:induction false} RequestLineTokens(httpMethod: string, target: string, version: string)
    requires IsToken(httpMethod, " ") && IsToken(target, " ") && IsToken(version, " ")
    ensures Tokens(httpMethod + " " + target + " " + version, " ") == [httpMethod, target, version]
  {
    var ts := [httpMethod, target, version];
    assert Join(ts[2..], ' ') == version;
    assert Join(ts[1..], ' ') == target + " " + version;
    assert Join(ts, ' ') == httpMethod + " " + target + " " + version;
    TokensOfJoin(ts, ' ', " ");
  }

  /** Runs of spaces count as one separator: extra spaces never add tokens. */
  lemma {:induction false} DoubleSpaceTokens(httpMethod: string, target: string, version: string)
    requires IsToken(httpMethod, " ") && IsToken(target, " ") && IsToken(version, " ")
    ensures Tokens(httpMethod + "  " + target + " " + version, " ") == [httpMethod, target, version]
  {
    var rest := target + " " + version;
    var spaced := [' '] + rest;
    var line := httpMethod + [' '] + spaced;
    assert httpMethod + "  " + target + " " + version == line;
    assert Tokens(spaced, " ") == [target, version] by {
      assert spaced[1..] == rest;
      assert Join([target, version], ' ') == rest;
      TokensOfJoin([target, version], ' ', " ");
    }
    assert Tokens(line, " ") == [httpMethod] + Tokens(spaced, " ") by {
      TokensSplit(httpMethod, ' ', spaced, " ");
      TokensOfToken(httpMethod, " ");
    }
  }

  /**
   * setHTTPRequestBody (httpRequest.c:102-109): a NULL request or a NULL body
   * changes nothing; otherwise the body becomes a copy of the string and the
   * other fields stay as they were.
   */
  method SetHTTPRequestBody(request: HTTPRequest?, bodyString: Option<string>)
    modifies request
    ensures request != null ==> request.httpMethod == old(request.httpMethod) && request.path == old(request.path)
                                && request.protocol == old(request.protocol)
    ensures request != null ==> request.body == if bodyString.Some? then bodyString else old(request.body)
  {
    if request == null || bodyString.None? {
      return;
    }
    request.body := bodyString;
  }
}
