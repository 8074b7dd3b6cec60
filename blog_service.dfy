/** The data gateway: builds the HTTP request of each of the five remote
    operations from the configured base URL, and normalises a failed
    exchange into one error message. The exchange itself is not modelled;
    its outcome is a `Response` supplied by the caller. */
module BlogService {
  import opened Wrappers
  import opened Text
  import opened BlogModel

  datatype HttpMethod = GET | POST | PUT | DELETE

  /** One call into the HTTP client: verb, target URL and JSON body. */
  datatype Request = Request(verb: HttpMethod, url: string, body: Option<BlogData>)

  // ---------------------------------------------------------------------
  // The remote API's resource routes, as a reference for the requests

  /** What the remote collection resource does with a request. */
  datatype Operation =
    | ListAll
    | FetchOne(id: int)
    | Create(draft: BlogData)
    | Replace(id: int, record: BlogData)
    | Remove(id: int)
    | Unroutable

  /** The item id named by `url` when it is `apiUrl + "/" + <integer>`. */
  function ItemId(apiUrl: string, url: string): Option<int> {
    var n := |apiUrl| + 1;
    if |url| > n && url[..n] == apiUrl + "/" then ParseInt(url[n..]) else None
  }

  /** The collection lives at `apiUrl`, each item at `apiUrl/{id}`:
      GET on either reads, POST on the collection creates, PUT on an item
      replaces it with the body, DELETE on an item removes it. */
  function Route(apiUrl: string, r: Request): Operation {
    var item := ItemId(apiUrl, r.url);
    match r.verb
    case GET =>
      if r.body.Some? then Unroutable
      else if r.url == apiUrl then ListAll
      else if item.Some? then FetchOne(item.value)
      else Unroutable
    case POST =>
      if r.url == apiUrl && r.body.Some? then Create(r.body.value) else Unroutable
    case PUT =>
      if item.Some? && r.body.Some? then Replace(item.value, r.body.value) else Unroutable
    case DELETE =>
      if item.Some? && r.body.None? then Remove(item.value) else Unroutable
  }

  /** `${id}` for an id that may be null: a template literal renders null
      as "null", which reads back as no number at all. */
  function IdText(id: Option<int>): (t: string)
    ensures ParseInt(t) == id
  {
    match id
    case Some(n) => IntToStringRoundTrip(n); IntToString(n)
    case None => assert !IsDigit("null"[0]); "null"
  }

  lemma ItemUrlNamesId(apiUrl: string, id: int)
    ensures ItemId(apiUrl, apiUrl + "/" + IntToString(id)) == Some(id)
  {
    var url := apiUrl + "/" + IntToString(id);
    assert url[..|apiUrl| + 1] == apiUrl + "/";
    assert url[|apiUrl| + 1..] == IntToString(id);
    IntToStringRoundTrip(id);
  }

  /** An item URL built from an id that may be null names that id, or
      nothing. */
  lemma IdTextNamesId(apiUrl: string, id: Option<int>)
    ensures ItemId(apiUrl, apiUrl + "/" + IdText(id)) == id
  {
    if id.Some? {
      ItemUrlNamesId(apiUrl, id.value);
    } else {
      var url := apiUrl + "/" + "null";
      assert url[|apiUrl| + 1..] == "null";
    }
  }

  // ---------------------------------------------------------------------
  // The five operations

  function GetAll(apiUrl: string): (r: Request)
    ensures Route(apiUrl, r) == ListAll
  {
    Request(GET, apiUrl, None)
  }

  function GetById(apiUrl: string, id: int): (r: Request)
    ensures Route(apiUrl, r) == FetchOne(id)
  {
    ItemUrlNamesId(apiUrl, id);
    Request(GET, apiUrl + "/" + IntToString(id), None)
  }

  function Add(apiUrl: string, blog: BlogData): (r: Request)
    ensures Route(apiUrl, r) == Create(blog)
  {
    Request(POST, apiUrl, Some(blog))
  }

  /** The target is built from `blog.id`; a null id yields `apiUrl/null`,
      which names no item. */
  function Update(apiUrl: string, blog: BlogData): (r: Request)
    ensures Route(apiUrl, r) == if blog.id.Some? then Replace(blog.id.value, blog) else Unroutable
  {
    IdTextNamesId(apiUrl, blog.id);
    Request(PUT, apiUrl + "/" + IdText(blog.id), Some(blog))
  }

  function Delete(apiUrl: string, id: int): (r: Request)
    ensures Route(apiUrl, r) == Remove(id)
  {
    ItemUrlNamesId(apiUrl, id);
    Request(DELETE, apiUrl + "/" + IntToString(id), None)
  }

  // ---------------------------------------------------------------------
  // Error normalisation

  /** The `error` property of an HttpErrorResponse: an `Error` object for a
      client-side or network failure, anything else for a server reply. */
  datatype ErrorPayload = ErrorObject(message: string) | OtherPayload

  datatype HttpErrorResponse = HttpErrorResponse(status: int, message: string, error: ErrorPayload)

  /** The outcome of one HTTP exchange. */
  datatype Response<+T> = Ok(value: T) | Failed(cause: HttpErrorResponse)

  const ClientSidePrefix := "A client-side error occurred: "
  const ServerSidePrefix := "A server-side error occurred: "

  /** The message of `handleError`: it opens with the client-side prefix
      exactly when the inner error is an `Error` object, and with the
      server-side prefix exactly when it is not. */
  function HandleError(e: HttpErrorResponse): (msg: string)
    ensures StartsWith(msg, ClientSidePrefix) <==> e.error.ErrorObject?
    ensures StartsWith(msg, ServerSidePrefix) <==> e.error.OtherPayload?
  {
    match e.error
    case ErrorObject(m) =>
      var msg := ClientSidePrefix + m;
      assert msg[..|ClientSidePrefix|] == ClientSidePrefix;
      assert msg[2] == 'c' && ServerSidePrefix[2] == 's';
      msg
    case OtherPayload =>
      var msg := ServerSidePrefix + IntToString(e.status) + " " + e.message;
      assert msg[..|ServerSidePrefix|] == ServerSidePrefix;
      assert msg[2] == 's' && ClientSidePrefix[2] == 'c';
      msg
  }

  /** What a normalised message says about the failure. */
  datatype Diagnosis = ClientSide(detail: string) | ServerSide(status: int, detail: string) | Unrecognised

  /** The side a failure came from, with the details the message should carry. */
  function CauseOf(e: HttpErrorResponse): Diagnosis {
    match e.error
    case ErrorObject(m) => ClientSide(m)
    case OtherPayload => ServerSide(e.status, e.message)
  }

  /** Reads a normalised message back. */
  function Diagnose(message: string): Diagnosis {
    var c, s := |ClientSidePrefix|, |ServerSidePrefix|;
    if StartsWith(message, ClientSidePrefix) then ClientSide(message[c..])
    else if StartsWith(message, ServerSidePrefix) then
      match SplitAtSpace(message[s..])
      case Some((status, detail)) =>
        (match ParseInt(status)
         case Some(n) => ServerSide(n, detail)
         case None => Unrecognised)
      case None => Unrecognised
    else Unrecognised
  }

  /** The message tells client-side from server-side failures and loses
      neither the inner message nor the status. */
  lemma HandleErrorDiagnosed(e: HttpErrorResponse)
    ensures Diagnose(HandleError(e)) == CauseOf(e)
  {
    var msg := HandleError(e);
    match e.error
    case ErrorObject(m) =>
      assert msg[|ClientSidePrefix|..] == m;
    case OtherPayload =>
      var st := IntToString(e.status);
      assert msg[|ServerSidePrefix|..] == st + " " + e.message;
      SplitAtSpaceJoin(st, e.message);
      IntToStringRoundTrip(e.status);
  }

  /** A client-side and a server-side failure never produce the same message. */
  lemma HandleErrorDistinguishesSides(client: HttpErrorResponse, server: HttpErrorResponse)
    requires client.error.ErrorObject? && server.error.OtherPayload?
    ensures HandleError(client) != HandleError(server)
  {
    HandleErrorDiagnosed(client);
    HandleErrorDiagnosed(server);
  }

  /** `.pipe(catchError(this.handleError))`: a value passes through; a
      failure is always turned into a failure (never a value) whose message
      is the normalised one. */
  function CatchError<T>(r: Response<T>): (res: Result<T, string>)
    ensures res.Success? <==> r.Ok?
    ensures r.Ok? ==> res.value == r.value
    ensures r.Failed? ==> res.error == HandleError(r.cause)
    ensures r.Failed? ==> Diagnose(res.error) == CauseOf(r.cause)
  {
    match r
    case Ok(v) => Success(v)
    case Failed(e) => HandleErrorDiagnosed(e); Failure(HandleError(e))
  }
}
