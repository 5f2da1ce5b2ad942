/**
 * The request handler: responses, the four store-backed routes, and the
 * top-level dispatch with its single catch-all for thrown errors. The store's
 * own behaviour (whether a call throws, the success flag of a write, the
 * server clock, the order rows come back in, the blob representation) is
 * passed in as a `StoreEnv`.
 */
module Handler {
  import opened Wrappers
  import opened Text
  import opened Routing
  import opened Messages
  import opened Table
  import opened Listing

  const JsonType: string := "application/json"
  const HtmlType: string := "text/html;charset=UTF-8"
  const ImageCache: string := "public, max-age=86400"
  const CreatedText: string := "留言发送成功"
  const InsertFailedText: string := "保存留言失败"
  const DeletedText: string := "留言已删除"
  const DeleteFailedText: string := "删除失败"
  const ServerErrorPrefix: string := "服务器错误: "

  datatype Body =
    | NoBody
    | IndexHtml
    | PlainText(text: string)
    | Binary(bytes: seq<byte>)
    | JsonError(error: string)
    | JsonSuccess(message: string)
    | JsonList(messages: seq<Listed>, pagination: Pagination)

  /**
   * A response: status, body, the explicit `Content-Type` and `Cache-Control`
   * headers (`None` when the handler sets none), and whether the CORS headers
   * are attached.
   */
  datatype Response = Response(
    status: nat, body: Body, contentType: Option<string>, cacheControl: Option<string>, cors: bool)

  /** How the body of the `try` block ended: with a response, or by throwing an error with a message. */
  datatype Completion = Returned(response: Response) | Threw(message: string)

  /** The request as the handler reads it: method, path, the `page` parameter and the parsed form (or why parsing threw). */
  datatype Request = Request(verb: string, path: string, page: Option<int>, form: Result<Form, string>)

  /**
   * What the store does on this request: `fault` is the error its call throws,
   * if any; `writeSucceeds` is the `success` flag an INSERT or DELETE reports;
   * `now` is the clock `datetime("now")` reads; `order` is how it lists the
   * table for `ORDER BY created_at DESC`; `blobsAsArrays` is the blob shape
   * its driver returns.
   */
  datatype StoreEnv = StoreEnv(
    fault: Option<string>, writeSucceeds: bool, now: int, order: seq<nat>, blobsAsArrays: bool)

  function Json(status: nat, body: Body): (resp: Response)
    ensures resp.status == status && resp.body == body && resp.cors
    ensures resp.contentType == Some(JsonType) && resp.cacheControl.None?
  {
    Response(status, body, Some(JsonType), None, true)
  }

  const PreflightResponse: Response := Response(200, NoBody, None, None, true)
  const IndexResponse: Response := Response(200, IndexHtml, Some(HtmlType), None, false)
  const NotFoundResponse: Response := Response(404, PlainText("Not Found"), None, None, true)
  const ImageNotFoundResponse: Response := Response(404, PlainText("Image not found"), None, None, false)

  /** The catch-all: a thrown error becomes a 500 whose error text is the prefix followed by the message. */
  function Settle(c: Completion): (resp: Response)
    ensures c.Returned? ==> resp == c.response
    ensures c.Threw? ==> resp == Json(500, JsonError(ServerErrorPrefix + c.message))
  {
    match c
    case Returned(r) => r
    case Threw(m) => Json(500, JsonError(ServerErrorPrefix + m))
  }

  /**
   * GET /api/messages: at most ten messages of the store's listing, starting
   * at `(page - 1) * 10`, newest first, each with its `imageUrl`, and the
   * pagination figures over the whole table.
   */
  function ListRoute(rows: map<nat, Row>, page: Option<int>, env: StoreEnv): (c: Completion)
    requires IsListingOrder(rows, env.order)
    ensures env.fault.Some? ==> c == Threw(env.fault.value)
    ensures env.fault.None? ==>
      && c.Returned? && c.response.status == 200 && c.response.cors
      && c.response.contentType == Some(JsonType)
      && c.response.body.JsonList?
      && c.response.body.pagination
           == Pagination(PageNumber(page), PageSize, |rows|, TotalPages(|rows|))
      && c.response.body.messages
           == ProjectAll(PageOf(rows, env.order, PageSize, Offset(PageNumber(page))))
      && |c.response.body.messages| <= PageSize
      && (forall i, j :: 0 <= i < j < |c.response.body.messages| ==>
            c.response.body.messages[i].createdAt >= c.response.body.messages[j].createdAt)
      && (forall i :: 0 <= i < |c.response.body.messages| ==> c.response.body.messages[i].id in rows)
  {
    if env.fault.Some? then Threw(env.fault.value)
    else
      var n := PageNumber(page);
      var results := PageOf(rows, env.order, PageSize, Offset(n));
      PageNewestFirst(rows, env.order, PageSize, Offset(n));
      var total := |rows|;
      Returned(Json(200, JsonList(ProjectAll(results), Pagination(n, PageSize, total, TotalPages(total)))))
  }

  /**
   * GET /api/images/<id>: the stored bytes and type of the row the last path
   * segment names, or a plain 404 without CORS headers when there is no such
   * row or it has no image.
   */
  function ImageRoute(rows: map<nat, Row>, path: string, env: StoreEnv): (c: Completion)
    ensures env.fault.Some? ==> c == Threw(env.fault.value)
    ensures env.fault.None? ==> c.Returned?
    ensures env.fault.None? ==>
      var found := Lookup(rows, LastSegment(path));
      if found.None? || found.value.image.None? then c.response == ImageNotFoundResponse
      else c.response == Response(200, Binary(found.value.image.value.data),
                                  Some(found.value.image.value.mimeType), Some(ImageCache), false)
  {
    if env.fault.Some? then Threw(env.fault.value)
    else
      match Lookup(rows, LastSegment(path))
      case None => Returned(ImageNotFoundResponse)
      case Some(row) =>
        if row.image.None? then Returned(ImageNotFoundResponse)
        else
          var blob := DriverBlob(row.image.value.data, env.blobsAsArrays);
          NormalizeDriverBlob(row.image.value.data, env.blobsAsArrays);
          Returned(Response(200, Binary(Normalize(blob)), Some(row.image.value.mimeType), Some(ImageCache), false))
  }

  /** Whether a create request gets as far as a successful insert. */
  predicate CreateAccepted(form: Result<Form, string>, env: StoreEnv)
  {
    form.Success? && Validate(form.value).Success? && env.fault.None? && env.writeSucceeds
  }

  /**
   * How the create branch ends. A failed parse or a throwing store is a
   * thrown error; a validation failure is a 400 with its own text; an insert
   * that reports failure is thrown as an error too; only an accepted create
   * answers 200.
   */
  function CreateOutcome(form: Result<Form, string>, env: StoreEnv): (c: Completion)
    ensures form.Failure? ==> c == Threw(form.error)
    ensures form.Success? && Validate(form.value).Failure? ==>
      c == Returned(Json(400, JsonError(ErrorText(Validate(form.value).error))))
    ensures form.Success? && Validate(form.value).Success? && env.fault.Some? ==> c == Threw(env.fault.value)
    ensures form.Success? && Validate(form.value).Success? && env.fault.None? && !env.writeSucceeds ==>
      c == Threw(InsertFailedText)
    ensures c == Returned(Json(200, JsonSuccess(CreatedText))) <==> CreateAccepted(form, env)
  {
    if form.Failure? then Threw(form.error)
    else if Validate(form.value).Failure? then Returned(Json(400, JsonError(ErrorText(Validate(form.value).error))))
    else if env.fault.Some? then Threw(env.fault.value)
    else if !env.writeSucceeds then Threw(InsertFailedText)
    else Returned(Json(200, JsonSuccess(CreatedText)))
  }

  /**
   * POST /api/messages: parse, validate, insert, ending as `CreateOutcome`
   * says. The table changes only on a successful insert, and then by exactly
   * one row.
   */
  method CreateRoute(db: MessageTable, form: Result<Form, string>, env: StoreEnv) returns (c: Completion)
    requires db.Valid()
    modifies db
    ensures db.Valid() && (old(db.RowsOk()) ==> db.RowsOk())
    ensures c == CreateOutcome(form, env)
    ensures CreateAccepted(form, env) ==>
      && db.rows == old(db.rows)[old(db.nextId) := RowOf(Validate(form.value).value, env.now)]
      && db.nextId == old(db.nextId) + 1
    ensures !CreateAccepted(form, env) ==> db.rows == old(db.rows) && db.nextId == old(db.nextId)
  {
    if form.Failure? {
      return Threw(form.error);
    }
    var checked := Validate(form.value);
    if checked.Failure? {
      return Returned(Json(400, JsonError(ErrorText(checked.error))));
    }
    if env.fault.Some? {
      return Threw(env.fault.value);
    }
    if !env.writeSucceeds {
      return Threw(InsertFailedText);
    }
    var _ := db.Insert(checked.value, env.now);
    c := Returned(Json(200, JsonSuccess(CreatedText)));
  }

  /**
   * How the delete branch ends. A reported failure is answered directly with
   * its own 500, not thrown; only a throwing store reaches the catch-all; a
   * reported success is a 200 whether or not a row matched.
   */
  function DeleteOutcome(env: StoreEnv): (c: Completion)
    ensures env.fault.Some? ==> c == Threw(env.fault.value)
    ensures env.fault.None? ==> c.Returned?
    ensures env.fault.None? && !env.writeSucceeds ==> c.response == Json(500, JsonError(DeleteFailedText))
    ensures env.fault.None? && env.writeSucceeds ==> c.response == Json(200, JsonSuccess(DeletedText))
  {
    if env.fault.Some? then Threw(env.fault.value)
    else if !env.writeSucceeds then Returned(Json(500, JsonError(DeleteFailedText)))
    else Returned(Json(200, JsonSuccess(DeletedText)))
  }

  /**
   * DELETE /api/messages/<id>: removes the row the last path segment names,
   * ending as `DeleteOutcome` says; a missing row is still a success.
   */
  method DeleteRoute(db: MessageTable, path: string, env: StoreEnv) returns (c: Completion)
    requires db.Valid()
    modifies db
    ensures db.Valid() && (old(db.RowsOk()) ==> db.RowsOk())
    ensures c == DeleteOutcome(env)
    ensures db.nextId == old(db.nextId)
    ensures !(env.fault.None? && env.writeSucceeds) ==> db.rows == old(db.rows)
    ensures env.fault.None? && env.writeSucceeds ==> db.rows == Without(old(db.rows), LastSegment(path))
  {
    if env.fault.Some? {
      return Threw(env.fault.value);
    }
    if !env.writeSucceeds {
      return Returned(Json(500, JsonError(DeleteFailedText)));
    }
    db.Delete(LastSegment(path));
    c := Returned(Json(200, JsonSuccess(DeletedText)));
  }

  /**
   * The whole handler. OPTIONS is answered before the `try`; every other
   * request goes to the route `Classify` picks, and whatever that route
   * throws is settled into a 500 by the catch-all. Only create and delete
   * change the table.
   */
  method Handle(db: MessageTable, req: Request, env: StoreEnv) returns (resp: Response)
    requires db.Valid()
    requires Classify(req.verb, req.path) == ListMessages ==> IsListingOrder(db.rows, env.order)
    modifies db
    ensures db.Valid() && (old(db.RowsOk()) ==> db.RowsOk())
    ensures var route := Classify(req.verb, req.path);
      && (route != CreateMessage && route != DeleteMessage ==>
            db.rows == old(db.rows) && db.nextId == old(db.nextId))
      && (route == Preflight ==> resp == PreflightResponse)
      && (route == IndexPage ==> resp == IndexResponse)
      && (route == NotFound ==> resp == NotFoundResponse)
      && (route == ListMessages ==> resp == Settle(ListRoute(old(db.rows), req.page, env)))
      && (route == FetchImage ==> resp == Settle(ImageRoute(old(db.rows), req.path, env)))
      && (route == CreateMessage ==>
            && resp == Settle(CreateOutcome(req.form, env))
            && db.nextId == old(db.nextId) + (if CreateAccepted(req.form, env) then 1 else 0)
            && (resp.status == 200 <==> CreateAccepted(req.form, env))
            && (CreateAccepted(req.form, env) ==>
                  db.rows == old(db.rows)[old(db.nextId) := RowOf(Validate(req.form.value).value, env.now)])
            && (!CreateAccepted(req.form, env) ==> db.rows == old(db.rows)))
      && (route == DeleteMessage ==>
            && resp == Settle(DeleteOutcome(env))
            && db.nextId == old(db.nextId)
            && (resp.status == 200 <==> env.fault.None? && env.writeSucceeds)
            && (env.fault.None? && env.writeSucceeds ==>
                  db.rows == Without(old(db.rows), LastSegment(req.path)))
            && (!(env.fault.None? && env.writeSucceeds) ==> db.rows == old(db.rows)))
  {
    var route := Classify(req.verb, req.path);
    if route == Preflight {
      return PreflightResponse;
    }
    var c: Completion;
    match route {
      case IndexPage => c := Returned(IndexResponse);
      case ListMessages => c := ListRoute(db.rows, req.page, env);
      case CreateMessage => c := CreateRoute(db, req.form, env);
      case FetchImage => c := ImageRoute(db.rows, req.path, env);
      case DeleteMessage => c := DeleteRoute(db, req.path, env);
      case NotFound => c := Returned(NotFoundResponse);
    }
    resp := Settle(c);
  }

  /**
   * An image sent with a create comes back byte for byte, with its declared
   * type, from the URL the list gives the new message.
   */
  lemma UploadThenFetch(rows: map<nat, Row>, id: nat, form: Form, now: int, env: StoreEnv)
    requires id !in rows && env.fault.None?
    requires form.image.FileValue? && Validate(form).Success?
    ensures var stored := rows[id := RowOf(Validate(form).value, now)];
      && Project(Select(stored, id)).imageUrl == Some(ImageUrl(id))
      && ImageRoute(stored, ImageUrl(id), env)
           == Returned(Response(200, Binary(form.image.file.bytes), Some(form.image.file.mimeType),
                                Some(ImageCache), false))
  {
  }

  /** Fetching an image for an id the table does not hold is a 404. */
  lemma MissingImageIsNotFound(rows: map<nat, Row>, id: nat, env: StoreEnv)
    requires id !in rows && env.fault.None?
    ensures ImageRoute(rows, ImageUrl(id), env) == Returned(ImageNotFoundResponse)
  {
  }

  /**
   * Deleting an id that is not there leaves the table as it was; the route
   * then answers with the store's success flag, as for any other id.
   */
  lemma DeleteMissingIsNoOp(rows: map<nat, Row>, id: nat)
    requires id !in rows
    ensures Without(rows, LastSegment(MessagePrefix + IdText(id))) == rows
  {
    var text := LastSegment(MessagePrefix + IdText(id));
    LastSegmentAfterSlash(MessagePrefix, IdText(id));
    ParseIdText(id);
    assert ParseId(text) == Some(id);
    assert rows - {id} == rows;
  }

  /**
   * A message created without an image is listed, on one of the pages
   * 1..totalPages of a listing the store gives, with a null `imageUrl`,
   * provided every page is cut from that one listing.
   */
  lemma CreatedWithoutImageIsListed(rows: map<nat, Row>, id: nat, form: Form, now: int, order: seq<nat>)
    requires id !in rows && !form.image.FileValue? && Validate(form).Success?
    requires IsListingOrder(rows[id := RowOf(Validate(form).value, now)], order)
    ensures var stored := rows[id := RowOf(Validate(form).value, now)];
      && Project(Select(stored, id)).imageUrl.None?
      && exists page :: 1 <= page <= TotalPages(|stored|) && OnPage(stored, order, page, id)
  {
    var stored := rows[id := RowOf(Validate(form).value, now)];
    EachMessageOnOnePage(stored, order, id);
  }

  /**
   * The responses a create gets once the catch-all has run: a 400 with the
   * failed check's text exactly when validation fails, a 500 with the
   * prefixed message when parsing or the store throws, and a 500 with the
   * prefixed insert-failure text when the insert reports failure.
   */
  lemma CreateResponses(form: Result<Form, string>, env: StoreEnv)
    ensures var resp := Settle(CreateOutcome(form, env));
      && (resp.status == 400 <==> form.Success? && Validate(form.value).Failure?)
      && (form.Success? && Validate(form.value).Failure? ==>
            resp == Json(400, JsonError(ErrorText(Validate(form.value).error))))
      && (form.Failure? ==> resp == Json(500, JsonError(ServerErrorPrefix + form.error)))
      && (form.Success? && Validate(form.value).Success? && env.fault.Some? ==>
            resp == Json(500, JsonError(ServerErrorPrefix + env.fault.value)))
      && (form.Success? && Validate(form.value).Success? && env.fault.None? && !env.writeSucceeds ==>
            resp == Json(500, JsonError(ServerErrorPrefix + InsertFailedText)))
  {
  }

  /**
   * The delete's own 500 is not the catch-all's: its error text is not the
   * server-error prefix followed by any message.
   */
  lemma DeleteFailureIsNotCatchAll(env: StoreEnv, message: string)
    requires env.fault.None? && !env.writeSucceeds
    ensures Settle(DeleteOutcome(env)) == Json(500, JsonError(DeleteFailedText))
    ensures Settle(DeleteOutcome(env)) != Json(500, JsonError(ServerErrorPrefix + message))
  {
    assert DeleteFailedText[0] != (ServerErrorPrefix + message)[0];
  }
}
