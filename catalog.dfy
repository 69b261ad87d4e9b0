/** The book catalog behind `/api/books`: create, filtered and paginated list,
    get, partial update and delete over the store of book records. Every
    operation here is reached only after the authentication middleware has
    accepted the request's bearer token. */
module Catalog {
  import opened Wrappers
  import opened Strings

  /** Record identifiers, generated by the store. */
  type BookId = nat

  /** A stored book. `publishedDate` is kept in the textual form the request gave. */
  datatype Book = Book(
    id: BookId,
    title: string,
    author: string,
    category: string,
    price: real,
    rating: real,
    publishedDate: string)

  /** The fields destructured from the body of `POST /` and `PUT /:id`.
      `None` is a field the body did not send; `price` and `rating` are given
      as the numbers `parseFloat` makes of them. */
  datatype BookFields = BookFields(
    title: Option<string>,
    author: Option<string>,
    category: Option<string>,
    price: Option<real>,
    rating: Option<real>,
    publishedDate: Option<string>)

  /** A numeric query parameter: its text (which decides whether the filter is
      applied) and the number `parseFloat` makes of it. */
  datatype Numeral = Numeral(text: string, value: real)

  /** The query string of `GET /`. `page` and `limit` are the numbers `parseInt`
      makes of the parameters that were sent. */
  datatype ListQuery = ListQuery(
    author: Option<string>,
    category: Option<string>,
    rating: Option<Numeral>,
    title: Option<string>,
    page: Option<int>,
    limit: Option<int>)

  /** The `where` object handed to the store: one optional condition per field. */
  datatype Where = Where(
    author: Option<string>,
    category: Option<string>,
    ratingAtLeast: Option<real>,
    title: Option<string>)

  /** The `pagination` object of a list answer. `pages` is `None` for the
      `null` that JSON makes of `Math.ceil(total / 0)` (Infinity or NaN). */
  datatype Pagination = Pagination(total: nat, page: int, limit: int, pages: Option<nat>)

  datatype Body =
    | BookBody(book: Book)
    | ListBody(data: seq<Book>, pagination: Pagination)
    | MessageBody(message: string)
    | EmptyBody

  datatype Reply = Reply(status: int, body: Body)

  const AllFieldsRequired := Reply(400, MessageBody("All fields are required"))
  const BookNotFound := Reply(404, MessageBody("Book not found"))

  const DefaultPage := 1
  const DefaultLimit := 10

  // ---------------------------------------------------------------------------
  // Create and update payloads
  // ---------------------------------------------------------------------------

  /** The required-field check of `POST /`: the text fields must be truthy,
      while price and rating only have to be sent (so 0 is accepted). */
  predicate HasRequiredFields(f: BookFields) {
    && Truthy(f.title) && Truthy(f.author) && Truthy(f.category)
    && f.price.Some? && f.rating.Some?
    && Truthy(f.publishedDate)
  }

  function NewBook(id: BookId, f: BookFields): Book
    requires HasRequiredFields(f)
  {
    Book(id, f.title.value, f.author.value, f.category.value,
         f.price.value, f.rating.value, f.publishedDate.value)
  }

  /** The data object of `PUT /:id`: a text field is written only when it is
      truthy, price and rating whenever they were sent. */
  function ApplyPatch(b: Book, f: BookFields): Book {
    b.(title := if Truthy(f.title) then f.title.value else b.title,
       author := if Truthy(f.author) then f.author.value else b.author,
       category := if Truthy(f.category) then f.category.value else b.category,
       price := if f.price.Some? then f.price.value else b.price,
       rating := if f.rating.Some? then f.rating.value else b.rating,
       publishedDate := if Truthy(f.publishedDate) then f.publishedDate.value else b.publishedDate)
  }

  /** A field that is not supplied keeps its value; every supplied one takes the
      new value; the identifier never changes. */
  lemma PatchChangesOnlySuppliedFields(b: Book, f: BookFields)
    ensures ApplyPatch(b, f).id == b.id
    ensures Truthy(f.title) ==> ApplyPatch(b, f).title == f.title.value
    ensures !Truthy(f.title) ==> ApplyPatch(b, f).title == b.title
    ensures Truthy(f.author) ==> ApplyPatch(b, f).author == f.author.value
    ensures !Truthy(f.author) ==> ApplyPatch(b, f).author == b.author
    ensures Truthy(f.category) ==> ApplyPatch(b, f).category == f.category.value
    ensures !Truthy(f.category) ==> ApplyPatch(b, f).category == b.category
    ensures f.price.Some? ==> ApplyPatch(b, f).price == f.price.value
    ensures f.price.None? ==> ApplyPatch(b, f).price == b.price
    ensures f.rating.Some? ==> ApplyPatch(b, f).rating == f.rating.value
    ensures f.rating.None? ==> ApplyPatch(b, f).rating == b.rating
    ensures Truthy(f.publishedDate) ==> ApplyPatch(b, f).publishedDate == f.publishedDate.value
    ensures !Truthy(f.publishedDate) ==> ApplyPatch(b, f).publishedDate == b.publishedDate
  {
  }

  /** A body that supplies nothing (or only empty strings) leaves the book as it was. */
  lemma EmptyPatchIsIdentity(b: Book, f: BookFields)
    requires !Truthy(f.title) && !Truthy(f.author) && !Truthy(f.category)
    requires f.price.None? && f.rating.None? && !Truthy(f.publishedDate)
    ensures ApplyPatch(b, f) == b
  {
  }

  /** Sending the same update twice has the effect of sending it once. */
  lemma PatchIdempotent(b: Book, f: BookFields)
    ensures ApplyPatch(ApplyPatch(b, f), f) == ApplyPatch(b, f)
  {
  }

  /** A body that would pass the create check replaces every field of the book. */
  lemma FullPatchIsNewBook(b: Book, f: BookFields)
    requires HasRequiredFields(f)
    ensures ApplyPatch(b, f) == NewBook(b.id, f)
  {
  }

  // ---------------------------------------------------------------------------
  // Filtering
  // ---------------------------------------------------------------------------

  /** The store's reading of a `where` object: every condition present holds. */
  predicate Matches(b: Book, w: Where) {
    && (w.author.Some? ==> ContainsInsensitive(b.author, w.author.value))
    && (w.category.Some? ==> b.category == w.category.value)
    && (w.ratingAtLeast.Some? ==> b.rating >= w.ratingAtLeast.value)
    && (w.title.Some? ==> ContainsInsensitive(b.title, w.title.value))
  }

  /** What a list query asks for: each filter that was sent with a non-empty
      value constrains the book; the others constrain nothing. */
  predicate Satisfies(b: Book, q: ListQuery) {
    && (Truthy(q.author) ==> ContainsInsensitive(b.author, q.author.value))
    && (Truthy(q.category) ==> b.category == q.category.value)
    && (q.rating.Some? && q.rating.value.text != "" ==> b.rating >= q.rating.value.value)
    && (Truthy(q.title) ==> ContainsInsensitive(b.title, q.title.value))
  }

  /** The `where` object of `GET /`, built one condition at a time. */
  method BuildWhere(q: ListQuery) returns (w: Where)
    ensures forall b :: Matches(b, w) <==> Satisfies(b, q)
    ensures (!Truthy(q.author) && !Truthy(q.category) && !Truthy(q.title)
             && (q.rating.None? || q.rating.value.text == "")) ==> w == Where(None, None, None, None)
  {
    w := Where(None, None, None, None);
    if Truthy(q.author) {
      w := w.(author := Some(q.author.value));
    }
    if Truthy(q.category) {
      w := w.(category := Some(q.category.value));
    }
    if q.rating.Some? && q.rating.value.text != "" {
      w := w.(ratingAtLeast := Some(q.rating.value.value));
    }
    if Truthy(q.title) {
      w := w.(title := Some(q.title.value));
    }
  }

  /** Every book is stored under its own identifier. */
  ghost predicate WellKeyed(books: map<BookId, Book>) {
    forall id :: id in books ==> books[id].id == id
  }

  /** The books with identifier below `n` that match `w`, in identifier order:
      the store's answer to `findMany({ where })`. */
  function Matching(books: map<BookId, Book>, w: Where, n: nat): (r: seq<Book>)
    requires WellKeyed(books)
    ensures forall i :: 0 <= i < |r| ==>
      r[i].id < n && r[i].id in books && books[r[i].id] == r[i] && Matches(r[i], w)
    ensures forall i, j :: 0 <= i < j < |r| ==> r[i].id < r[j].id
    ensures forall id :: id in books && id < n && Matches(books[id], w) ==> books[id] in r
  {
    if n == 0 then []
    else
      var earlier := Matching(books, w, n - 1);
      if n - 1 in books && Matches(books[n - 1], w) then earlier + [books[n - 1]] else earlier
  }

  ghost function MatchingIds(books: map<BookId, Book>, w: Where, n: nat): set<BookId> {
    set id | id in books && id < n && Matches(books[id], w)
  }

  lemma MatchingIdsStep(books: map<BookId, Book>, w: Where, n: nat)
    requires n > 0
    ensures MatchingIds(books, w, n) ==
      MatchingIds(books, w, n - 1) + (if n - 1 in books && Matches(books[n - 1], w) then {n - 1} else {})
  {
  }

  /** Counting the matches gives the length of the list of matches. */
  lemma {:induction false} MatchingCount(books: map<BookId, Book>, w: Where, n: nat)
    requires WellKeyed(books)
    ensures |Matching(books, w, n)| == |MatchingIds(books, w, n)|
  {
    if n == 0 {
      assert MatchingIds(books, w, 0) == {};
    } else {
      MatchingCount(books, w, n - 1);
      MatchingIdsStep(books, w, n);
      var earlier := MatchingIds(books, w, n - 1);
      assert n - 1 !in earlier;
    }
  }

  // ---------------------------------------------------------------------------
  // Pagination
  // ---------------------------------------------------------------------------

  function Min(a: int, b: int): int {
    if a <= b then a else b
  }

  /** `findMany({ skip, take })`: at most `take` elements, starting at `skip`. */
  function Window<T>(all: seq<T>, skip: nat, take: nat): (r: seq<T>)
    ensures |r| == if skip >= |all| then 0 else Min(take, |all| - skip)
    ensures forall k :: 0 <= k < |r| ==> r[k] == all[skip + k]
  {
    if skip >= |all| then [] else all[skip..Min(skip + take, |all|)]
  }

  /** `(page - 1) * limit`, the number of matches before page `page`. */
  function SkipCount(page: int, limit: int): nat
    requires page >= 1 && limit >= 0
  {
    var before: nat := page - 1;
    before * limit
  }

  /** `Math.ceil(total / limit)`: the least number of pages of `limit`
      entries that hold `total` entries. */
  function CeilDiv(total: nat, limit: nat): (pages: nat)
    requires limit >= 1
    ensures pages * limit >= total
    ensures pages == 0 || (pages - 1) * limit < total
  {
    var q := (total + limit - 1) / limit;
    var m := (total + limit - 1) % limit;
    assert total + limit - 1 == q * limit + m;
    assert (q - 1) * limit == q * limit - limit;
    q
  }

  /** The page count is zero exactly when nothing matched. */
  lemma CeilDivZero(total: nat, limit: nat)
    requires limit >= 1
    ensures CeilDiv(total, limit) == 0 <==> total == 0
  {
  }

  /** The last page is never empty and never overfull. */
  lemma LastPageHoldsRemainder(total: nat, limit: nat)
    requires limit >= 1 && total >= 1
    ensures var p := CeilDiv(total, limit); 0 < total - (p - 1) * limit <= limit
  {
  }

  // ---------------------------------------------------------------------------
  // The store
  // ---------------------------------------------------------------------------

  class Catalog {
    /** The stored books, by identifier. */
    var books: map<BookId, Book>
    /** The identifier the store gives the next book it creates. */
    var nextId: BookId

    ghost predicate Valid()
      reads this
    {
      forall id :: id in books ==> id < nextId && books[id].id == id
    }

    constructor ()
      ensures Valid() && books == map[]
    {
      books := map[];
      nextId := 0;
    }

    /** `POST /`. */
    method Create(f: BookFields) returns (r: Reply)
      requires Valid()
      modifies this
      ensures Valid()
      ensures !HasRequiredFields(f) ==>
        r == AllFieldsRequired && books == old(books) && nextId == old(nextId)
      ensures HasRequiredFields(f) ==>
        var b := NewBook(old(nextId), f);
        && b.id !in old(books)
        && books == old(books)[b.id := b]
        && books.Keys == old(books).Keys + {b.id}
        && r == Reply(201, BookBody(b))
    {
      if !HasRequiredFields(f) {
        return AllFieldsRequired;
      }
      var b := NewBook(nextId, f);
      books := books[b.id := b];
      nextId := nextId + 1;
      r := Reply(201, BookBody(b));
    }

    /** `GET /`. The status is always 200. `total` counts every book the
        query selects; `data` is page `page` of them (pages of `limit` books,
        in identifier order); `pages` is the number of pages that hold them all. */
    method List(q: ListQuery) returns (r: Reply)
      requires Valid()
      requires q.page.GetOr(DefaultPage) >= 1 && q.limit.GetOr(DefaultLimit) >= 0
      ensures r.status == 200 && r.body.ListBody?
      ensures var page, limit := q.page.GetOr(DefaultPage), q.limit.GetOr(DefaultLimit);
        var p := r.body.pagination;
        && p.page == page && p.limit == limit
        && p.total == |Selected(books, q)|
        && p.pages == (if limit == 0 then None else Some(CeilDiv(p.total, limit)))
      ensures var page, limit := q.page.GetOr(DefaultPage), q.limit.GetOr(DefaultLimit);
        var skip, data := SkipCount(page, limit), r.body.data;
        && |data| == (if skip >= |Selected(books, q)| then 0 else Min(limit, |Selected(books, q)| - skip))
        && (forall k :: 0 <= k < |data| ==>
              data[k].id in Selected(books, q) && books[data[k].id] == data[k]
              && Rank(books, q, data[k].id) == skip + k)
        && (forall id :: id in Selected(books, q) && skip <= Rank(books, q, id) < skip + limit ==>
              books[id] in data)
    {
      var page := q.page.GetOr(DefaultPage);
      var limit := q.limit.GetOr(DefaultLimit);
      var skip: nat := SkipCount(page, limit);
      var w := BuildWhere(q);
      var all := Matching(books, w, nextId);
      var total := |all|;
      var data := Window(all, skip, limit);
      var pages := if limit == 0 then None else Some(CeilDiv(total, limit));
      r := Reply(200, ListBody(data, Pagination(total, page, limit, pages)));
      PageOfMatches(books, w, q, nextId, skip, limit);
    }

    /** `GET /:id`. */
    method Get(id: BookId) returns (r: Reply)
      ensures id in books ==> r == Reply(200, BookBody(books[id]))
      ensures id !in books ==> r == BookNotFound
    {
      if id !in books {
        return BookNotFound;
      }
      r := Reply(200, BookBody(books[id]));
    }

    /** `PUT /:id`: a partial update of one book. */
    method Update(id: BookId, f: BookFields) returns (r: Reply)
      requires Valid()
      modifies this
      ensures Valid() && nextId == old(nextId)
      ensures id !in old(books) ==> r == BookNotFound && books == old(books)
      ensures id in old(books) ==>
        var b := ApplyPatch(old(books)[id], f);
        books == old(books)[id := b] && r == Reply(200, BookBody(b))
    {
      if id !in books {
        return BookNotFound;
      }
      var b := ApplyPatch(books[id], f);
      books := books[id := b];
      r := Reply(200, BookBody(b));
    }

    /** `DELETE /:id`: a hard delete. */
    method Delete(id: BookId) returns (r: Reply)
      requires Valid()
      modifies this
      ensures Valid() && nextId == old(nextId)
      ensures id !in old(books) ==> r == BookNotFound && books == old(books)
      ensures id in old(books) ==> books == old(books) - {id} && r == Reply(204, EmptyBody)
    {
      if id !in books {
        return BookNotFound;
      }
      books := books - {id};
      r := Reply(204, EmptyBody);
    }
  }

  /** The matches below `m` are the first entries of the matches below `n`. */
  lemma {:induction false} MatchingPrefix(books: map<BookId, Book>, w: Where, m: nat, n: nat)
    requires WellKeyed(books) && m <= n
    ensures Matching(books, w, m) <= Matching(books, w, n)
    decreases n - m
  {
    if m < n {
      MatchingPrefix(books, w, m, n - 1);
      var earlier := Matching(books, w, n - 1);
      assert earlier <= Matching(books, w, n);
    }
  }

  /** The position of a matching book in the list of matches is the number of
      matching books with a smaller identifier. */
  lemma RankInMatching(books: map<BookId, Book>, w: Where, n: nat, id: BookId)
    requires WellKeyed(books)
    requires id in books && id < n && Matches(books[id], w)
    ensures var rank := |MatchingIds(books, w, id)|;
      rank < |Matching(books, w, n)| && Matching(books, w, n)[rank] == books[id]
  {
    MatchingCount(books, w, id);
    MatchingPrefix(books, w, id + 1, n);
    var upTo := Matching(books, w, id + 1);
    assert upTo == Matching(books, w, id) + [books[id]];
    assert upTo[|Matching(books, w, id)|] == books[id];
  }

  /** The books a list query selects, whatever page is asked for. */
  ghost function Selected(books: map<BookId, Book>, q: ListQuery): set<BookId> {
    set id | id in books && Satisfies(books[id], q)
  }

  /** The number of selected books that come before `id`: its position in the
      full, unpaginated answer. */
  ghost function Rank(books: map<BookId, Book>, q: ListQuery, id: BookId): nat {
    |set j | j in books && j < id && Satisfies(books[j], q)|
  }

  /** The store's answer read through the query: the list of matches counts the
      selected books, and a window of it holds exactly the selected books whose
      rank falls in the window, at the position their rank gives. */
  lemma PageOfMatches(books: map<BookId, Book>, w: Where, q: ListQuery, n: nat, skip: nat, limit: nat)
    requires WellKeyed(books) && forall id :: id in books ==> id < n
    requires forall b :: Matches(b, w) <==> Satisfies(b, q)
    ensures |Matching(books, w, n)| == |Selected(books, q)|
    ensures var data := Window(Matching(books, w, n), skip, limit);
      && (forall k :: 0 <= k < |data| ==>
            data[k].id in Selected(books, q) && books[data[k].id] == data[k]
            && Rank(books, q, data[k].id) == skip + k)
      && (forall id :: id in Selected(books, q) && skip <= Rank(books, q, id) < skip + limit ==>
            books[id] in data)
  {
    var all := Matching(books, w, n);
    var data := Window(all, skip, limit);
    MatchingCount(books, w, n);
    assert MatchingIds(books, w, n) == Selected(books, q);
    forall id | id in books
      ensures MatchingIds(books, w, id) == set j | j in books && j < id && Satisfies(books[j], q)
    {
    }
    forall k | 0 <= k < |data|
      ensures data[k].id in Selected(books, q) && books[data[k].id] == data[k]
      ensures Rank(books, q, data[k].id) == skip + k
    {
      var id := all[skip + k].id;
      RankInMatching(books, w, n, id);
      var rank := |MatchingIds(books, w, id)|;
      assert all[rank].id == all[skip + k].id;
    }
    forall id | id in Selected(books, q) && skip <= Rank(books, q, id) < skip + limit
      ensures books[id] in data
    {
      RankInMatching(books, w, n, id);
      var rank := Rank(books, q, id);
      assert data[rank - skip] == all[rank];
    }
  }

  /** Deleting a book and then asking for it finds nothing, and the other
      books are still there. */
  method DeleteThenGet(c: Catalog, id: BookId, other: BookId) returns (deleted: Reply, got: Reply)
    requires c.Valid() && id in c.books && other != id
    modifies c
    ensures deleted.status == 204 && got == BookNotFound
    ensures other in old(c.books) ==> other in c.books && c.books[other] == old(c.books[other])
  {
    deleted := c.Delete(id);
    got := c.Get(id);
  }

  /** The example of a catalog session: create a book, find it through the
      category and rating filters, change its price, delete it. */
  method DuneSession() {
    var c := new Catalog();
    var created := c.Create(BookFields(Some("Dune"), Some("Frank Herbert"), Some("Fiction"),
                                       Some(350.0), Some(4.9), Some("1965-08-01")));
    assert created.status == 201;
    var dune := created.body.book;

    var listed := c.List(ListQuery(None, Some("Fiction"), Some(Numeral("4", 4.0)), None, None, None));
    assert Satisfies(dune, ListQuery(None, Some("Fiction"), Some(Numeral("4", 4.0)), None, None, None));
    assert (set j | j in c.books && j < dune.id && Satisfies(c.books[j], ListQuery(None, Some("Fiction"), Some(Numeral("4", 4.0)), None, None, None))) == {};
    assert dune in listed.body.data;

    var updated := c.Update(dune.id, BookFields(None, None, None, Some(375.0), None, None));
    assert updated.body.book == dune.(price := 375.0);

    var deleted := c.Delete(dune.id);
    var got := c.Get(dune.id);
    assert deleted.status == 204 && got.status == 404;
  }
}
