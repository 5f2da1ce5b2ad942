/**
 * Route selection of the request handler: the fixed order of `if` tests that
 * decides, from the request method and the URL path alone, which branch of
 * the handler answers.
 */
module Routing {
  import opened Text

  datatype Route =
    | Preflight       // OPTIONS on any path, answered before anything else
    | IndexPage       // `/` or `/index.html`, whatever the method
    | ListMessages    // GET /api/messages
    | CreateMessage   // POST /api/messages
    | FetchImage      // GET /api/images/<id>
    | DeleteMessage   // DELETE /api/messages/<id>
    | NotFound        // everything else

  const MessagesPath: string := "/api/messages"
  const MessagePrefix: string := "/api/messages/"
  const ImagePrefix: string := "/api/images/"

  predicate IsPagePath(path: string)
  {
    path == "/" || path == "/index.html"
  }

  /**
   * The branch that answers a `verb path` request. The contract states, route by
   * route, exactly which requests reach it once the earlier tests are
   * accounted for.
   */
  function Classify(verb: string, path: string): (r: Route)
    ensures r == Preflight <==> verb == "OPTIONS"
    ensures r == IndexPage <==> verb != "OPTIONS" && IsPagePath(path)
    ensures r == ListMessages <==> verb == "GET" && path == MessagesPath
    ensures r == CreateMessage <==> verb == "POST" && path == MessagesPath
    ensures r == FetchImage <==> verb == "GET" && StartsWith(path, ImagePrefix)
    ensures r == DeleteMessage <==> verb == "DELETE" && StartsWith(path, MessagePrefix)
    ensures r == NotFound <==>
      && verb != "OPTIONS" && !IsPagePath(path)
      && !(verb == "GET" && (path == MessagesPath || StartsWith(path, ImagePrefix)))
      && !(verb == "POST" && path == MessagesPath)
      && !(verb == "DELETE" && StartsWith(path, MessagePrefix))
  {
    if verb == "OPTIONS" then Preflight
    else if IsPagePath(path) then IndexPage
    else if path == MessagesPath && verb == "GET" then
      assert MessagesPath[5] != ImagePrefix[5];
      ListMessages
    else if path == MessagesPath && verb == "POST" then CreateMessage
    else if StartsWith(path, ImagePrefix) && verb == "GET" then FetchImage
    else if StartsWith(path, MessagePrefix) && verb == "DELETE" then DeleteMessage
    else NotFound
  }

  /** `DELETE /api/messages` names no message: it is not a delete and falls through to 404. */
  lemma DeleteWithoutIdIsNotFound()
    ensures Classify("DELETE", MessagesPath) == NotFound
  {
  }

  /** The page is served on path alone: a POST or DELETE to `/` still gets it. */
  lemma PageIgnoresMethod(verb: string)
    requires verb != "OPTIONS"
    ensures Classify(verb, "/") == IndexPage && Classify(verb, "/index.html") == IndexPage
  {
  }
}
