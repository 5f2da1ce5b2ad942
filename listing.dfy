/**
 * The list route's arithmetic and output shape: the page number, the
 * offset, the page count, and the projection that adds `imageUrl` to each
 * selected row.
 */
module Listing {
  import opened Wrappers
  import opened Text
  import opened Routing
  import opened Table

  /** The fixed `limit`. */
  const PageSize: nat := 10

  /** The `pagination` object of the list response. */
  datatype Pagination = Pagination(page: int, limit: nat, total: nat, totalPages: nat)

  /** A listed message: the selected columns kept as they are, plus `imageUrl`. */
  datatype Listed = Listed(
    id: nat, content: string, email: string, createdAt: int, imageType: Option<string>,
    imageUrl: Option<string>)

  /**
   * The page number from the `page` query parameter, already read as an
   * integer; `None` stands for a parameter that is absent or empty.
   */
  function PageNumber(param: Option<int>): (page: int)
    ensures param.None? ==> page == 1
    ensures param.Some? ==> page == param.value
  {
    if param.Some? then param.value else 1
  }

  /** `(page - 1) * limit`: the rows that come before page `page`. */
  function Offset(page: int): (offset: int)
    ensures page >= 1 ==> 0 <= offset && offset % PageSize == 0 && offset / PageSize == page - 1
    ensures page < 1 ==> offset < 0
  {
    (page - 1) * PageSize
  }

  /** `Math.ceil(total / limit)`: the fewest pages of ten that hold `total` rows. */
  function TotalPages(total: nat): (pages: nat)
    ensures total <= pages * PageSize < total + PageSize
    ensures pages == 0 <==> total == 0
  {
    (total + PageSize - 1) / PageSize
  }

  /** The URL under which a message's image is served. */
  function ImageUrl(id: nat): (url: string)
    ensures StartsWith(url, ImagePrefix)
    ensures Classify("GET", url) == FetchImage
    ensures LastSegment(url) == IdText(id)
    ensures ParseId(LastSegment(url)) == Some(id)
  {
    var url := ImagePrefix + IdText(id);
    assert url[..|ImagePrefix|] == ImagePrefix;
    LastSegmentAfterSlash(ImagePrefix, IdText(id));
    ParseIdText(id);
    url
  }

  /** JavaScript truthiness of the `image_type` column: present and not empty. */
  predicate HasImageType(imageType: Option<string>)
  {
    imageType.Some? && imageType.value != ""
  }

  /** `{...msg, imageUrl: msg.image_type ? '/api/images/' + msg.id : null}`. */
  function Project(sel: Selected): (m: Listed)
    ensures m.id == sel.id && m.content == sel.content && m.email == sel.email
    ensures m.createdAt == sel.createdAt && m.imageType == sel.imageType
    ensures m.imageUrl.None? <==> !HasImageType(sel.imageType)
    ensures m.imageUrl.Some? ==> m.imageUrl.value == ImageUrl(sel.id)
  {
    Listed(sel.id, sel.content, sel.email, sel.createdAt, sel.imageType,
           if HasImageType(sel.imageType) then Some(ImageUrl(sel.id)) else None)
  }

  /** `results.map(...)`: one listed message per selected row, in the same order. */
  function ProjectAll(results: seq<Selected>): (messages: seq<Listed>)
    ensures |messages| == |results|
    ensures forall i :: 0 <= i < |results| ==> messages[i] == Project(results[i])
  {
    seq(|results|, i requires 0 <= i < |results| => Project(results[i]))
  }

  /**
   * For a row the service wrote, the list shows an image URL exactly when the
   * row has an image, and that URL leads back to the row's id.
   */
  lemma ImageUrlExactlyForImages(rows: map<nat, Row>, id: nat)
    requires id in rows && RowOk(rows[id])
    ensures Project(Select(rows, id)).imageUrl.None? <==> rows[id].image.None?
    ensures rows[id].image.Some? ==> Project(Select(rows, id)).imageUrl == Some(ImageUrl(id))
  {
  }

  /** Whether message `id` is on page `page` of the listing `order`. */
  ghost predicate OnPage(rows: map<nat, Row>, order: seq<nat>, page: int, id: nat)
    requires IsListingOrder(rows, order)
  {
    var shown := PageOf(rows, order, PageSize, Offset(page));
    exists i :: 0 <= i < |shown| && shown[i].id == id
  }

  /**
   * Paging covers the table: each message is on exactly one of the pages
   * 1..totalPages, and on no other positive page. Every page is cut from the
   * same listing `order`; page requests that see rows with equal timestamps
   * in different orders are not covered.
   */
  lemma {:induction false} EachMessageOnOnePage(rows: map<nat, Row>, order: seq<nat>, id: nat)
    requires IsListingOrder(rows, order) && id in rows
    ensures exists page :: 1 <= page <= TotalPages(|rows|) && OnPage(rows, order, page, id)
    ensures forall page, other :: 1 <= page && 1 <= other && OnPage(rows, order, page, id) && OnPage(rows, order, other, id)
              ==> page == other
  {
    ListingOrderLength(rows, order);
    var pos :| 0 <= pos < |order| && order[pos] == id;
    var page := pos / PageSize + 1;
    var shown := PageOf(rows, order, PageSize, Offset(page));
    assert StartOf(Offset(page), |order|) == pos - pos % PageSize;
    assert shown[pos % PageSize].id == id;
    assert OnPage(rows, order, page, id);
    forall p | 1 <= p && OnPage(rows, order, p, id) ensures p == page {
      PageHoldsPosition(rows, order, p, id, pos);
    }
  }

  /** The one page that holds the message at position `pos` of the listing. */
  lemma PageHoldsPosition(rows: map<nat, Row>, order: seq<nat>, page: int, id: nat, pos: nat)
    requires IsListingOrder(rows, order) && pos < |order| && order[pos] == id
    requires 1 <= page && OnPage(rows, order, page, id)
    ensures page == pos / PageSize + 1
  {
  }

  /** Page numbers below 1 give a negative offset, which the store reads as 0: they show page 1. */
  lemma LowPagesShowFirstPage(rows: map<nat, Row>, order: seq<nat>, page: int)
    requires IsListingOrder(rows, order) && page < 1
    ensures PageOf(rows, order, PageSize, Offset(page)) == PageOf(rows, order, PageSize, Offset(1))
  {
  }
}
