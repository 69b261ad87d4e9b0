/** How the browser client and the book routes fit together: the query string
    `loadBooks` sends, read the way the list route reads it, and the body
    `handleSaveBook` sends, read the way the create and update routes read it. */
module EndToEnd {
  import opened Wrappers
  import opened Strings
  import Catalog
  import Client

  /** `parseInt` of a parameter made of decimal digits; `None` when it was not sent. */
  function ParseCount(p: Option<string>): Option<int>
    requires p.Some? ==> forall i :: 0 <= i < |p.value| ==> IsDigit(p.value[i])
  {
    if p.Some? then Some(DigitsValue(p.value)) else None
  }

  /** How the list route destructures a query string built by the client;
      `parseFloat` is the number the rating text parses to. */
  function ServerQuery(q: Client.Query, parseFloat: string -> real): Catalog.ListQuery
    requires Client.Lookup(q, Client.Page).Some? && Client.Lookup(q, Client.Limit).Some?
    requires forall i :: 0 <= i < |Client.Lookup(q, Client.Page).value| ==> IsDigit(Client.Lookup(q, Client.Page).value[i])
    requires forall i :: 0 <= i < |Client.Lookup(q, Client.Limit).value| ==> IsDigit(Client.Lookup(q, Client.Limit).value[i])
  {
    var rating := Client.Lookup(q, Client.Rating);
    Catalog.ListQuery(
      Client.Lookup(q, Client.Author),
      Client.Lookup(q, Client.Category),
      if rating.Some? then Some(Catalog.Numeral(rating.value, parseFloat(rating.value))) else None,
      Client.Lookup(q, Client.Title),
      ParseCount(Client.Lookup(q, Client.Page)),
      ParseCount(Client.Lookup(q, Client.Limit)))
  }

  /** A query the client builds (the postcondition of `App.BooksQuery` at page
      `page`) asks the server for page `page` of six books, and selects a book
      exactly when it passes every filter the user filled in. */
  lemma ClientQueryAsServerReadsIt(q: Client.Query, f: Client.Filters, page: nat, parseFloat: string -> real)
    requires page >= 1
    requires Client.LoadQuery(q, f, page)
    ensures var lq := ServerQuery(q, parseFloat);
      && lq.page == Some(page) && lq.limit == Some(Client.PageSize)
      && forall b :: Catalog.Satisfies(b, lq) <==>
           && (f.title != "" ==> ContainsInsensitive(b.title, f.title))
           && (f.author != "" ==> ContainsInsensitive(b.author, f.author))
           && (f.category != "" ==> b.category == f.category)
           && (f.rating != "" ==> b.rating >= parseFloat(f.rating))
  {
    DecimalRoundTrip(page);
    DecimalRoundTrip(Client.PageSize);
  }

  /** The create and update routes' view of a save request's body: every field is sent. */
  function SentFields(d: Client.BookData): Catalog.BookFields {
    Catalog.BookFields(Some(d.title), Some(d.author), Some(d.category),
                       Some(d.price), Some(d.rating), Some(d.publishedDate))
  }

  /** What the client lets through: non-empty title, author and date, a
      non-negative price and a rating between 0 and 5. */
  predicate PassedClientChecks(d: Client.BookData) {
    d.title != "" && d.author != "" && d.price >= 0.0 && 0.0 <= d.rating <= 5.0 && d.publishedDate != ""
  }

  /** The client does not check the category, the create route does: a new
      book that passed the form's checks is stored exactly when its category
      is not empty. */
  lemma CreateAcceptsSavedFormIffCategory(d: Client.BookData)
    requires PassedClientChecks(d)
    ensures Catalog.HasRequiredFields(SentFields(d)) <==> d.category != ""
  {
  }

  /** Saving an edited book replaces every field but the identifier, except
      that an emptied category leaves the stored one in place. */
  lemma UpdateFromSavedForm(b: Catalog.Book, d: Client.BookData)
    requires PassedClientChecks(d)
    ensures Catalog.ApplyPatch(b, SentFields(d)) ==
      Catalog.Book(b.id, d.title, d.author, if d.category != "" then d.category else b.category,
                   d.price, d.rating, d.publishedDate)
  {
  }

  /** The page count the client keeps after a successful load of a page the
      list route answered. */
  function ClientTotalPages(p: Catalog.Pagination): int {
    if p.pages.Some? && p.pages.value != 0 then p.pages.value else 1
  }

  /** Every page the client lets the user reach, from 1 to its page count,
      starts inside the list of matches, unless there are none at all. */
  lemma {:induction false} ReachablePagesAreNonEmpty(total: nat, limit: nat, page: nat)
    requires limit >= 1 && 1 <= page <= ClientTotalPages(Catalog.Pagination(total, page, limit, Some(Catalog.CeilDiv(total, limit))))
    ensures ClientTotalPages(Catalog.Pagination(total, page, limit, Some(Catalog.CeilDiv(total, limit)))) >= 1
    ensures total > 0 ==> Catalog.SkipCount(page, limit) < total
    ensures total == 0 ==> page == 1
  {
    var pages := Catalog.CeilDiv(total, limit);
    if total > 0 {
      Catalog.CeilDivZero(total, limit);
      MultiplyMonotone(page - 1, pages - 1, limit);
    }
  }

  lemma {:induction false} MultiplyMonotone(a: nat, b: nat, c: nat)
    requires a <= b
    ensures a * c <= b * c
  {
    if a < b {
      MultiplyMonotone(a, b - 1, c);
      assert b * c == (b - 1) * c + c;
    }
  }
}
