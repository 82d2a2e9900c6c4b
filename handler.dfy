/**
 * handle_request of src/handler_v1.c, the entry point of the loadable
 * handler library: one strcmp chain that picks the GET, HEAD or POST helper,
 * or answers 400 or 405 itself.
 *
 * The fields of an `HTTPRequest` are never NULL in this model, because
 * initializeHTTPRequest ends the process instead of building such a request;
 * the only NULL the router can see is the request itself.
 */
module Handler {
  import opened Common
  import opened HttpRequest
  import opened Db
  import opened Response

  /** The branch handle_request takes. */
  datatype Route =
    | BadRequest
    | Get(path: string)
    | Head(path: string)
    | Post(body: Option<string>)
    | MethodNotAllowed

  /**
   * The strcmp chain of handle_request (handler_v1.c:21-43): exact,
   * case-sensitive comparisons, GET first, then HEAD, then POST.
   */
  function RouteOf(request: HTTPRequest?): (r: Route)
    reads request
    ensures r.BadRequest? <==> request == null
    ensures r.MethodNotAllowed? <==> request != null && !IsValidHTTPMethod(Some(request.httpMethod))
    ensures r.Get? || r.Head? ==> r.path == request.path
    ensures r.Post? ==> r.body == request.body
    ensures request != null ==>
              && (r.Get? <==> request.httpMethod == "GET")
              && (r.Head? <==> request.httpMethod == "HEAD")
              && (r.Post? <==> request.httpMethod == "POST")
  {
    if request == null then BadRequest
    else if request.httpMethod == "GET" then Get(request.path)
    else if request.httpMethod == "HEAD" then Head(request.path)
    else if request.httpMethod == "POST" then Post(request.body)
    else MethodNotAllowed
  }

  /**
   * handle_request (handler_v1.c:17-44): a NULL request gets "400 Bad
   * Request" and -1; GET, HEAD and POST go to their helpers with the path or
   * the body; any other method gets "405 Method Not Allowed" and -1. Only
   * POST touches the store. GET goes to get_req_response as written, so it
   * answers -1 and sends nothing.
   */
  method HandleRequest(sock: Socket, fs: FileSystem, db: Database, request: HTTPRequest?, faults: Faults)
    returns (ret: int)
    modifies sock, db
    ensures ret == 0 || ret == -1
    ensures !RouteOf(request).Post? ==> db.data == old(db.data)
    ensures RouteOf(request).BadRequest? ==> ret == -1 && SentPrefix(old(sock.wire), sock.wire, BAD_REQUEST)
    ensures RouteOf(request).MethodNotAllowed? ==>
              ret == -1 && SentPrefix(old(sock.wire), sock.wire, METHOD_NOT_ALLOWED)
    ensures RouteOf(request).Get? ==> ret == -1 && sock.wire == old(sock.wire)
    ensures RouteOf(request).Head? ==> HeadAnswered(old(sock.wire), sock.wire, fs, request.path, ret)
    ensures RouteOf(request).Post? ==> PostAnswered(old(sock.wire), sock.wire, old(db.data), db.data, true, request.body, faults, ret)
  {
    match RouteOf(request)
    case BadRequest =>
      var _ := sock.Send(BAD_REQUEST);
      ret := -1;
    case Get(path) =>
      ret := GetReqResponse(sock, fs, path);
    case Head(path) =>
      ret := HeadReqResponse(sock, fs, path);
    case Post(body) =>
      ret := HandlePostRequest(sock, db, request, body, faults);
    case MethodNotAllowed =>
      var _ := sock.Send(METHOD_NOT_ALLOWED);
      ret := -1;
  }

  /**
   * handle_request with the corrected get_req_response: a missing or empty
   * file is -1 with nothing sent, and 0 means the header and the whole file
   * went out. Every other route is as in HandleRequest.
   */
  method HandleRequestIntended(sock: Socket, fs: FileSystem, db: Database, request: HTTPRequest?, faults: Faults)
    returns (ret: int)
    modifies sock, db
    ensures ret == 0 || ret == -1
    ensures !RouteOf(request).Post? ==> db.data == old(db.data)
    ensures RouteOf(request).BadRequest? ==> ret == -1 && SentPrefix(old(sock.wire), sock.wire, BAD_REQUEST)
    ensures RouteOf(request).MethodNotAllowed? ==>
              ret == -1 && SentPrefix(old(sock.wire), sock.wire, METHOD_NOT_ALLOWED)
    ensures RouteOf(request).Get? ==> GetAnswered(old(sock.wire), sock.wire, fs, request.path, ret)
    ensures RouteOf(request).Head? ==> HeadAnswered(old(sock.wire), sock.wire, fs, request.path, ret)
    ensures RouteOf(request).Post? ==> PostAnswered(old(sock.wire), sock.wire, old(db.data), db.data, true, request.body, faults, ret)
  {
    match RouteOf(request)
    case BadRequest =>
      var _ := sock.Send(BAD_REQUEST);
      ret := -1;
    case Get(path) =>
      ret := GetReqResponseIntended(sock, fs, path);
    case Head(path) =>
      ret := HeadReqResponse(sock, fs, path);
    case Post(body) =>
      ret := HandlePostRequest(sock, db, request, body, faults);
    case MethodNotAllowed =>
      var _ := sock.Send(METHOD_NOT_ALLOWED);
      ret := -1;
  }
}
