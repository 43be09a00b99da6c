/** Listings served page by page, as the calendar API serves events and calendars. */
module Paging {
  import opened Wrappers

  /** One reply: its items, None where the reply has no items array, and the token of the next page,
      empty on the last. */
  datatype Page<T> = Page(items: Option<seq<T>>, nextToken: string)

  /** What a server answers to one query, by page token; the first page has the empty token. */
  type Listing<T> = map<string, Page<T>>

  /** From this token the listing ends after at most `more` further pages. */
  predicate Chained<T>(listing: Listing<T>, token: string, more: nat)
    decreases more
  {
    && token in listing
    && var next := listing[token].nextToken;
    next == "" || (more > 0 && Chained(listing, next, more - 1))
  }

  function PageItems<T>(page: Page<T>): seq<T> {
    if page.items.Some? then page.items.value else []
  }

  function ItemsFrom<T>(listing: Listing<T>, token: string, more: nat): seq<T>
    requires Chained(listing, token, more)
    decreases more
  {
    var page := listing[token];
    PageItems(page) + if page.nextToken == "" then [] else ItemsFrom(listing, page.nextToken, more - 1)
  }
}
