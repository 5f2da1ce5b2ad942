# Message board handler, modelled in Dafny

This project models the request handler of a small message-board service
(`src/index.js`): a single `fetch` function that answers CORS preflights,
serves the board's HTML page, lists messages ten to a page, creates a message
with an optional image, serves a message's image, and deletes a message, all
against a `messages` table in an SQLite-compatible store.

The model is split the way the handler's logic splits:

- `Routing` — the fixed order of `if` tests that picks a branch from the
  method and the path.
- `Text` — the `startsWith` test, `path.split('/').pop()`, the decimal id in
  an image URL, and the store's reading of an id segment as an integer key.
- `Messages` — the parsed form, the ordered create validation and its error
  texts, and the draft row it produces.
- `Table` — the store as an abstract map from id to row: lookup by id,
  delete by id, `ORDER BY ... LIMIT ... OFFSET` as a slice of a listing order,
  the driver's two blob shapes and their normalisation, and the class
  `MessageTable` whose `Insert` and `Delete` change the rows and the id counter.
- `Listing` — the page number, offset and page count, and the `imageUrl`
  projection of listed rows.
- `Handler` — responses, the four store-backed routes, and `Handle`, the
  dispatcher with its catch-all that turns a thrown error into a 500.

The store's behaviour is an input (`StoreEnv`): whether its call throws and
with what message, the `success` flag a write reports, the server clock read
by `datetime("now")`, the order it returns rows in, and whether its driver
hands blobs back as plain arrays. The HTTP runtime's parsing of the URL and of
the multipart body is an input too (`Request`): the `page` parameter already
read as an integer and the form already parsed, or the message the parse
threw with.

A few behaviours of the code are easy to mistake; the model follows the code:

- Listed messages do not drop the raw image columns altogether: they keep the
  selected `image_type` column next to the new `imageUrl` (the row is spread
  into the output); only `image_data` is never selected.
- A `page` value that is not a number does not fall back to 1 in the code
  (only an absent or empty one does); the model takes the page as an
  optional integer and does not cover unparsable values.
- Page numbers below 1 are echoed back as they are; their negative offset is
  read by the store as 0, so they show the first page.
- The error and success texts are the code's own strings.

## Model

| member | source | states |
|---|---|---|
| `Routing.Classify` | src/index.js:16-237 | OPTIONS on any path is the preflight; `/` and `/index.html` get the page for every other method; list, create, image and delete are reached exactly by their method and path or prefix; every other request is the 404 fallback |
| `Routing.DeleteWithoutIdIsNotFound` | src/index.js:200 | `DELETE /api/messages` without an id is a 404, not a delete |
| `Routing.PageIgnoresMethod` | src/index.js:24-30 | the page is served on path alone, for any method but OPTIONS |
| `Text.LastSegment` | src/index.js:174 | the result is the longest slash-free suffix of the path: no slash in it, and it is the whole path or follows a slash |
| `Text.LastSegmentAfterSlash` | src/index.js:201 | a prefix ending in `/` followed by a slash-free id splits back into exactly that id |
| `Text.IdText` | src/index.js:53 | an id renders as a non-empty string of decimal digits with no slash |
| `Text.ParseId` | src/index.js:176-180 | a textual id denotes an integer key exactly when it is a non-empty string of digits |
| `Text.ParseIdText` | src/index.js:53 | reading back a rendered id gives the same id |
| `Text.IdTextInjective` | src/index.js:53 | distinct ids render as distinct texts, so image URLs of different messages differ |
| `Messages.ErrorText` | src/index.js:80-141 | every validation failure is reported with a non-empty error text |
| `Messages.ErrorTextsDistinct` | src/index.js:82-132 | each validation failure has its own error text |
| `Messages.Validate` | src/index.js:80-145 | empty or missing content or name, then content over 1000, then image over 5 MiB, then a type not starting with `image/`: each error exactly when its check fails and all earlier pass; on success the draft holds the content, the name as `email`, and image bytes and type both present exactly when a file was sent, and it meets the stored-row constraints |
| `Messages.ContentLengthBoundary` | src/index.js:99 | content of 1000 code units is accepted, 1001 rejected |
| `Messages.ImageSizeBoundary` | src/index.js:117 | an image of 5242880 bytes is accepted, 5242881 rejected |
| `Table.RowOf` | src/index.js:148-152 | an inserted row holds the draft's content, name and image and the server time |
| `Table.Lookup` | src/index.js:176-180 | the select by id finds a row exactly when the id text denotes a stored key, and then that key's row |
| `Table.Without` | src/index.js:203-207 | the delete removes only the row the id text denotes; every other row stays with its values; a non-numeric id removes nothing |
| `Table.StartOf` | src/index.js:36-42 | the offset the store starts at: the given offset clipped to the listing, a negative one read as 0 |
| `Table.Select` | src/index.js:39 | a selected row carries its own id and the stored content, `email` and `created_at`; its `image_type` is present exactly when the row has an image, and is then that image's type |
| `Table.PageOf` | src/index.js:38-42 | at most `limit` rows, fewer only at the end of the listing, taken in listing order from the offset on, each with its stored columns |
| `Table.PageNewestFirst` | src/index.js:39 | a page of a `created_at DESC` listing is newest first |
| `Table.ListingOrderLength` | src/index.js:44-46 | a listing names each row once, so it is as long as the count |
| `Table.Normalize` | src/index.js:186-189 | a buffer blob is passed through; an array blob becomes bytes of the same length, each element reduced modulo 256 |
| `Table.NormalizeDriverBlob` | src/index.js:186-191 | whichever shape the driver returns, the normalised body equals the stored bytes |
| `Table.MessageTable.Insert` | src/index.js:148-152 | adds exactly one row under a fresh id above every existing one, keeps all other rows, advances the counter, keeps every row valid |
| `Table.MessageTable.Delete` | src/index.js:203-207 | the rows become the old rows without the one the id denotes; the counter is unchanged, so ids are never reused |
| `Listing.PageNumber` | src/index.js:34 | an absent or empty `page` means page 1; otherwise the given number |
| `Listing.Offset` | src/index.js:35-36 | for pages from 1 the offset is a non-negative multiple of 10 that skips exactly the earlier pages; below 1 it is negative |
| `Listing.TotalPages` | src/index.js:48-49 | the fewest pages of ten holding `total` rows; zero exactly when there are none |
| `Listing.ImageUrl` | src/index.js:53 | the URL starts with `/api/images/`, is routed to the image fetch, and its last segment reads back as the message id |
| `Listing.Project` | src/index.js:51-54 | a listed message keeps every selected column and has an `imageUrl` exactly when `image_type` is truthy, then the message's image URL |
| `Listing.ProjectAll` | src/index.js:51-54 | one listed message per selected row, in the same order |
| `Listing.ImageUrlExactlyForImages` | src/index.js:53 | for a row the service wrote, `imageUrl` is null exactly when the row has no image |
| `Listing.EachMessageOnOnePage` | src/index.js:34-49 | when every page request sees the same listing order, every message appears on one page between 1 and `totalPages`, and on no other positive page |
| `Listing.PageHoldsPosition` | src/index.js:36-42 | a message at position `pos` of the listing can only be on page `pos / 10 + 1` |
| `Listing.LowPagesShowFirstPage` | src/index.js:34-42 | a page number below 1 shows the same rows as page 1 |
| `Handler.Settle` | src/index.js:238-250 | a thrown error becomes a 500 JSON error with CORS headers whose text is the prefix and the message; a returned response is kept |
| `Handler.ListRoute` | src/index.js:33-70 | a throwing store is a thrown error; otherwise a 200 JSON list of at most ten messages, newest first, all from the table, with pagination of the page number, limit 10, the row count and its page count |
| `Handler.ImageRoute` | src/index.js:173-197 | a missing row or image is a plain 404 without CORS headers; otherwise a 200 with the stored bytes, the stored type and a one-day public cache |
| `Handler.CreateOutcome` | src/index.js:73-170 | a parse failure or throwing store is thrown; a validation failure is a 400 with its text; a reported insert failure is thrown with the insert-failure text; the 200 success answer comes exactly when the create is accepted |
| `Handler.CreateRoute` | src/index.js:73-170 | ends as `CreateOutcome` says; a rejected or failed create writes nothing; success inserts exactly the validated row under the next id |
| `Handler.DeleteOutcome` | src/index.js:200-231 | a throwing store is thrown; a reported failure is answered directly with the 500 `删除失败`; a reported success is the 200 answer |
| `Handler.DeleteRoute` | src/index.js:200-231 | ends as `DeleteOutcome` says; a failure changes nothing; success removes the named row only |
| `Handler.Handle` | src/index.js:4-251 | preflight, page and fallback responses as routed; every other route answers with its outcome settled by the catch-all (thrown errors become 500s); only create and delete change the table, and each as its route states: an accepted create adds its row under the next id and advances the counter, a delete keeps the counter, so ids are never reused |
| `Handler.CreateResponses` | src/index.js:80-169 | after the catch-all, a create is a 400 with the failed check's text exactly when validation fails, a 500 with the prefixed message when parsing or the store throws, and a 500 with the prefixed insert-failure text when the insert reports failure |
| `Handler.DeleteFailureIsNotCatchAll` | src/index.js:219-250 | a reported delete failure is the delete's own 500 `删除失败`, distinct from every catch-all 500 |
| `Handler.UploadThenFetch` | src/index.js:112-196 | an image sent with a create is listed under its image URL and fetched back byte for byte with its declared type |
| `Handler.MissingImageIsNotFound` | src/index.js:182-184 | fetching the image of an id the table lacks is the 404 |
| `Handler.DeleteMissingIsNoOp` | src/index.js:201-218 | deleting an id that is not in the table leaves the table unchanged |
| `Handler.CreatedWithoutImageIsListed` | src/index.js:38-54 | when every page request sees the same listing order, a message created without an image appears on one of the pages 1..totalPages with a null `imageUrl` |

## Left out

- The SQL engine: query parsing, `COUNT(*)` (modelled as the number of rows), and `ORDER BY created_at DESC`. The listing order is supplied by the store and assumed to list each row once, newest first; the order among equal timestamps is not fixed. The paging lemmas cut every page from one listing order: separate page requests that order equal timestamps differently (timestamps have one-second resolution) can show a message on two pages or on none, and that is not modelled.
- The server clock behind `datetime("now")`: it is an input; the timestamps it produces are not assumed to grow.
- Text ids in the form SQLite also reads as integers (`+5`, ` 5`, `5.0`): the model matches only plain digit strings.
- Request plumbing: `new URL`, `request.formData()`, `File.arrayBuffer()`, the `Response` objects and the imported HTML document; their results are inputs. A failure of `arrayBuffer()` is not modelled.
- `parseInt` on arbitrary text: the page is an optional integer; NaN is not modelled.
- Handler.ListRoute: pages whose offset `(page - 1) * 10` leaves SQLite's signed 64-bit range (a page above about 9.2·10^17) make the store query fail, which the catch-all answers with a 500; the model's integers are unbounded and it answers such pages with an empty list. The double-precision rounding of very large page numbers is not modelled either.
- Form fields `content` or `name` sent as files: they are modelled as text fields or absent.
- Character counting: `content.length` counts UTF-16 code units; each `char` of the model stands for one code unit.
- Concurrency: the list route's two reads are one snapshot of the table here; a write between them is not modelled.
- Store writes that report failure are taken to leave the table unchanged.
- `console.error` logging, the exact CORS header strings (only their presence is modelled), and the runtime's default `Content-Type` for plain-text responses (shown as no explicit header).
