/** The browser client's state: the session token, the pagination of the book
    list, and the book being edited, with the handlers that change them. The
    page, the network and local storage are outside the model: what a handler
    reads from the form is a parameter, the request it would send is its
    result, and the parts of a response it inspects are a parameter of the
    step that handles the response. */
module Client {
  import opened Wrappers
  import opened Strings

  /** `loadBooks` always asks for six books per page. */
  const PageSize := 6

  /** The four filter inputs above the book list, as typed. */
  datatype Filters = Filters(title: string, author: string, category: string, rating: string)

  /** The names `loadBooks` gives its query parameters. */
  datatype Param = Title | Author | Category | Rating | Page | Limit {
    function Name(): string {
      match this
      case Title => "title"
      case Author => "author"
      case Category => "category"
      case Rating => "rating"
      case Page => "page"
      case Limit => "limit"
    }
  }

  /** A query string: its name/value pairs in the order they were appended. */
  type Query = seq<(Param, string)>

  /** `URLSearchParams.get`: the value of the first pair named `name`. */
  function Lookup(q: Query, name: Param): Option<string> {
    if q == [] then None
    else if q[0].0 == name then Some(q[0].1)
    else Lookup(q[1..], name)
  }

  /** Appending a pair leaves every name that is already present as it was,
      and gives the new name its value. */
  lemma {:induction false} LookupAppend(q: Query, name: Param, value: string, key: Param)
    ensures Lookup(q + [(name, value)], key) ==
      if Lookup(q, key).Some? then Lookup(q, key)
      else if name == key then Some(value)
      else None
  {
    if q != [] {
      assert (q + [(name, value)])[1..] == q[1..] + [(name, value)];
      LookupAppend(q[1..], name, value, key);
    }
  }

  /** No name occurs twice. */
  predicate DistinctNames(q: Query) {
    forall i, j :: 0 <= i < j < |q| ==> q[i].0 != q[j].0
  }

  /** A name that `Lookup` does not find occurs nowhere. */
  lemma {:induction false} LookupNone(q: Query, name: Param)
    ensures Lookup(q, name).None? ==> forall i :: 0 <= i < |q| ==> q[i].0 != name
  {
    if q != [] && Lookup(q, name).None? {
      LookupNone(q[1..], name);
      assert forall i :: 1 <= i < |q| ==> q[i] == q[1..][i - 1];
    }
  }

  /** `URLSearchParams.append`, seen through `Lookup`. */
  function Append(q: Query, name: Param, value: string): (r: Query)
    ensures forall key :: (Lookup(r, key) ==
      if Lookup(q, key).Some? then Lookup(q, key) else if name == key then Some(value) else None)
    ensures DistinctNames(q) && Lookup(q, name).None? ==> DistinctNames(r)
  {
    var r := q + [(name, value)];
    forall key ensures Lookup(r, key) ==
      (if Lookup(q, key).Some? then Lookup(q, key) else if name == key then Some(value) else None)
    {
      LookupAppend(q, name, value, key);
    }
    LookupNone(q, name);
    r
  }

  /** The filter part of the query `loadBooks` builds: each filter input,
      in order, only when it is not empty. */
  function FilterQuery(f: Filters): (q: Query)
    ensures Lookup(q, Title) == if f.title != "" then Some(f.title) else None
    ensures Lookup(q, Author) == if f.author != "" then Some(f.author) else None
    ensures Lookup(q, Category) == if f.category != "" then Some(f.category) else None
    ensures Lookup(q, Rating) == if f.rating != "" then Some(f.rating) else None
    ensures Lookup(q, Page).None? && Lookup(q, Limit).None?
    ensures DistinctNames(q)
  {
    var q0: Query := [];
    var q1 := if f.title != "" then Append(q0, Title, f.title) else q0;
    var q2 := if f.author != "" then Append(q1, Author, f.author) else q1;
    var q3 := if f.category != "" then Append(q2, Category, f.category) else q2;
    if f.rating != "" then Append(q3, Rating, f.rating) else q3
  }

  /** The query `loadBooks` sends for filters `f` at page `page`: each filter
      exactly when it is not empty, the page in decimal, a limit of six, and
      no name twice. */
  predicate LoadQuery(q: Query, f: Filters, page: nat) {
    && Lookup(q, Title) == (if f.title != "" then Some(f.title) else None)
    && Lookup(q, Author) == (if f.author != "" then Some(f.author) else None)
    && Lookup(q, Category) == (if f.category != "" then Some(f.category) else None)
    && Lookup(q, Rating) == (if f.rating != "" then Some(f.rating) else None)
    && Lookup(q, Page) == Some(Decimal(page))
    && Lookup(q, Limit) == Some(Decimal(PageSize))
    && DistinctNames(q)
  }

  /** The parts of the `GET /api/books` response that `loadBooks` looks at:
      the status, whether the body has `data`, and `pagination.pages`. */
  datatype BooksResponse = BooksResponse(status: int, hasData: bool, pages: Option<int>)

  /** `response.ok`. */
  predicate IsOk(status: int) {
    200 <= status <= 299
  }

  const SessionExpired := "Session expired. Please login again."

  /** The book form as `handleSaveBook` reads it. `price` and `rating` are
      what `parseFloat` makes of the inputs, `None` when that is NaN. */
  datatype BookForm = BookForm(
    title: string,
    author: string,
    category: string,
    price: Option<real>,
    rating: Option<real>,
    publishedDate: string)

  /** The JSON body of a save request. */
  datatype BookData = BookData(
    title: string,
    author: string,
    category: string,
    price: real,
    rating: real,
    publishedDate: string)

  datatype HttpMethod = Post | Put

  /** What pressing Save does: an error notification and no request, or a request. */
  datatype SaveAction =
    | Rejected(message: string)
    | Send(verb: HttpMethod, url: string, body: BookData)

  class App {
    /** The bearer token, `null` when logged out. */
    var token: Option<string>
    var currentPage: int
    var totalPages: int
    /** The identifier of the book being edited, `null` when adding one. */
    var currentBookId: Option<string>
    var prevDisabled: bool
    var nextDisabled: bool

    /** The page shown is never before the first, and a book being edited has
        an identifier. */
    ghost predicate Valid()
      reads this
    {
      currentPage >= 1 && (currentBookId.Some? ==> currentBookId.value != "")
    }

    /** The module's start-up state; `stored` is what local storage holds. */
    constructor (stored: Option<string>)
      ensures Valid()
      ensures token == if Truthy(stored) then stored else None
      ensures currentPage == 1 && totalPages == 1 && currentBookId == None
    {
      token := if Truthy(stored) then stored else None;
      currentPage := 1;
      totalPages := 1;
      currentBookId := None;
      prevDisabled := false;
      nextDisabled := false;
    }

    /** `logout`: forget the token. */
    method Logout()
      modifies this
      ensures token == None
      ensures currentPage == old(currentPage) && totalPages == old(totalPages)
      ensures currentBookId == old(currentBookId)
      ensures prevDisabled == old(prevDisabled) && nextDisabled == old(nextDisabled)
    {
      token := None;
    }

    /** The check every book request makes first: a 401 means the session is
        over, so the client logs out. */
    method CheckSession(status: int) returns (expired: bool)
      modifies this
      ensures expired == (status == 401)
      ensures token == if expired then None else old(token)
      ensures currentPage == old(currentPage) && totalPages == old(totalPages)
      ensures currentBookId == old(currentBookId)
      ensures prevDisabled == old(prevDisabled) && nextDisabled == old(nextDisabled)
    {
      expired := status == 401;
      if expired {
        Logout();
      }
    }

    /** The query string `loadBooks` builds: each filter only when it is not
        empty, then the current page and the page size. */
    method BooksQuery(f: Filters) returns (q: Query)
      requires Valid()
      ensures LoadQuery(q, f, currentPage)
    {
      q := FilterQuery(f);
      q := Append(q, Page, Decimal(currentPage));
      q := Append(q, Limit, Decimal(PageSize));
    }

    /** The search button: back to the first page, then load. */
    method Search(f: Filters) returns (q: Query)
      requires Valid()
      modifies this
      ensures Valid() && currentPage == 1
      ensures token == old(token) && totalPages == old(totalPages) && currentBookId == old(currentBookId)
      ensures prevDisabled == old(prevDisabled) && nextDisabled == old(nextDisabled)
      ensures LoadQuery(q, f, 1)
    {
      currentPage := 1;
      q := BooksQuery(f);
    }

    /** The previous-page button: it moves back, and loads, only past page 1. */
    method PrevPage(f: Filters) returns (q: Option<Query>)
      requires Valid()
      modifies this
      ensures Valid()
      ensures old(currentPage) > 1 ==> currentPage == old(currentPage) - 1 && q.Some?
      ensures old(currentPage) <= 1 ==> currentPage == old(currentPage) && q == None
      ensures q.Some? ==> LoadQuery(q.value, f, currentPage)
      ensures token == old(token) && totalPages == old(totalPages) && currentBookId == old(currentBookId)
      ensures prevDisabled == old(prevDisabled) && nextDisabled == old(nextDisabled)
    {
      if currentPage > 1 {
        currentPage := currentPage - 1;
        var query := BooksQuery(f);
        return Some(query);
      }
      return None;
    }

    /** The next-page button: it moves on, and loads, only before the last page. */
    method NextPage(f: Filters) returns (q: Option<Query>)
      requires Valid()
      modifies this
      ensures Valid()
      ensures old(currentPage) < totalPages ==> currentPage == old(currentPage) + 1 && q.Some?
      ensures old(currentPage) >= totalPages ==> currentPage == old(currentPage) && q == None
      ensures old(currentPage) <= totalPages ==> currentPage <= totalPages
      ensures q.Some? ==> LoadQuery(q.value, f, currentPage)
      ensures token == old(token) && totalPages == old(totalPages) && currentBookId == old(currentBookId)
      ensures prevDisabled == old(prevDisabled) && nextDisabled == old(nextDisabled)
    {
      if currentPage < totalPages {
        currentPage := currentPage + 1;
        var query := BooksQuery(f);
        return Some(query);
      }
      return None;
    }

    /** What `loadBooks` does with the response: a 401 logs out; a failure or
        a body without `data` is reported; otherwise the page count becomes
        `pagination.pages`, or 1 when that is missing or 0, and the buttons
        are enabled or disabled to match. */
    method BooksLoaded(resp: BooksResponse) returns (error: Option<string>)
      requires Valid()
      modifies this
      ensures Valid() && currentPage == old(currentPage) && currentBookId == old(currentBookId)
      ensures resp.status == 401 ==> error == Some(SessionExpired) && token == None
      ensures resp.status != 401 ==> token == old(token)
      ensures error.None? <==> resp.status != 401 && IsOk(resp.status) && resp.hasData
      ensures error.Some? ==>
        totalPages == old(totalPages) && prevDisabled == old(prevDisabled) && nextDisabled == old(nextDisabled)
      ensures error.None? ==>
        && totalPages == (if resp.pages.Some? && resp.pages.value != 0 then resp.pages.value else 1)
        && (prevDisabled <==> currentPage <= 1)
        && (nextDisabled <==> currentPage >= totalPages)
    {
      var expired := CheckSession(resp.status);
      if expired {
        return Some(SessionExpired);
      }
      if !IsOk(resp.status) {
        return Some("Failed to load books");
      }
      if !resp.hasData {
        return Some("Invalid data format received from server");
      }
      totalPages := if resp.pages.Some? && resp.pages.value != 0 then resp.pages.value else 1;
      prevDisabled := currentPage <= 1;
      nextDisabled := currentPage >= totalPages;
      return None;
    }

    /** The add button: the form that opens saves a new book. */
    method ShowAddBookModal()
      requires Valid()
      modifies this
      ensures Valid() && currentBookId == None
      ensures token == old(token) && currentPage == old(currentPage) && totalPages == old(totalPages)
      ensures prevDisabled == old(prevDisabled) && nextDisabled == old(nextDisabled)
    {
      currentBookId := None;
    }

    /** What `editBook` does with the response to `GET /api/books/{id}`; `id`
        is the `id` field of the body. Only a book with an identifier opens
        the form for editing. */
    method BookDetailsLoaded(status: int, id: Option<string>) returns (error: Option<string>)
      requires Valid()
      modifies this
      ensures Valid() && currentPage == old(currentPage) && totalPages == old(totalPages)
      ensures prevDisabled == old(prevDisabled) && nextDisabled == old(nextDisabled)
      ensures token == if status == 401 then None else old(token)
      ensures status == 401 ==> error == Some(SessionExpired)
      ensures error.None? <==> status != 401 && IsOk(status) && Truthy(id)
      ensures currentBookId == if error.None? then id else old(currentBookId)
    {
      var expired := CheckSession(status);
      if expired {
        return Some(SessionExpired);
      }
      if !IsOk(status) {
        return Some("Failed to load book details");
      }
      if !Truthy(id) {
        return Some("Invalid book data received");
      }
      currentBookId := id;
      return None;
    }

    /** The checks `handleSaveBook` makes, in order, before it sends anything,
        and the request it then sends: a new book is posted to the collection,
        an edited one is put to its own address. */
    method PrepareSave(form: BookForm) returns (a: SaveAction)
      requires Valid()
      ensures Trim(form.title) == "" ==> a == Rejected("Book title is required")
      ensures Trim(form.title) != "" && Trim(form.author) == "" ==> a == Rejected("Author name is required")
      ensures Trim(form.title) != "" && Trim(form.author) != ""
              && (form.price.None? || form.price.value < 0.0) ==>
        a == Rejected("Price must be a positive number")
      ensures Trim(form.title) != "" && Trim(form.author) != ""
              && form.price.Some? && form.price.value >= 0.0
              && (form.rating.None? || form.rating.value < 0.0 || form.rating.value > 5.0) ==>
        a == Rejected("Rating must be between 0 and 5")
      ensures Trim(form.title) != "" && Trim(form.author) != ""
              && form.price.Some? && form.price.value >= 0.0
              && form.rating.Some? && 0.0 <= form.rating.value <= 5.0
              && form.publishedDate == "" ==>
        a == Rejected("Published date is required")
      ensures a.Send? ==>
        && a.body.title == Trim(form.title) != "" && a.body.author == Trim(form.author) != ""
        && a.body.category == Trim(form.category)
        && form.price == Some(a.body.price) && a.body.price >= 0.0
        && form.rating == Some(a.body.rating) && 0.0 <= a.body.rating <= 5.0
        && a.body.publishedDate == form.publishedDate != ""
      ensures Trim(form.title) != "" && Trim(form.author) != ""
              && form.price.Some? && form.price.value >= 0.0
              && form.rating.Some? && 0.0 <= form.rating.value <= 5.0
              && form.publishedDate != "" ==>
        a.Send?
      ensures a.Send? ==> (a.verb == Put <==> currentBookId.Some?)
      ensures a.Send? && currentBookId.None? ==> a.url == "/api/books"
      ensures a.Send? && currentBookId.Some? ==> a.url == "/api/books/" + currentBookId.value
    {
      var title := Trim(form.title);
      var author := Trim(form.author);
      if title == "" {
        return Rejected("Book title is required");
      }
      if author == "" {
        return Rejected("Author name is required");
      }
      var category := Trim(form.category);
      if form.price.None? || form.price.value < 0.0 {
        return Rejected("Price must be a positive number");
      }
      var price := form.price.value;
      if form.rating.None? || form.rating.value < 0.0 || form.rating.value > 5.0 {
        return Rejected("Rating must be between 0 and 5");
      }
      var rating := form.rating.value;
      if form.publishedDate == "" {
        return Rejected("Published date is required");
      }
      var body := BookData(title, author, category, price, rating, form.publishedDate);
      var url := "/api/books";
      var verb := Post;
      if Truthy(currentBookId) {
        url := "/api/books/" + currentBookId.value;
        verb := Put;
      }
      a := Send(verb, url, body);
    }

    /** What `handleSaveBook` and `deleteBook` do with the response: a 401
        logs out; any other failure reports the server's message, or
        `fallback` when the body has none. */
    method SaveOrDeleteResponded(status: int, message: Option<string>, fallback: string)
      returns (error: Option<string>)
      requires Valid()
      modifies this
      ensures Valid() && currentPage == old(currentPage) && totalPages == old(totalPages)
      ensures currentBookId == old(currentBookId)
      ensures prevDisabled == old(prevDisabled) && nextDisabled == old(nextDisabled)
      ensures token == if status == 401 then None else old(token)
      ensures status == 401 ==> error == Some(SessionExpired)
      ensures status != 401 && !IsOk(status) ==> error == Some(if Truthy(message) then message.value else fallback)
      ensures status != 401 && IsOk(status) ==> error == None
    {
      var expired := CheckSession(status);
      if expired {
        return Some(SessionExpired);
      }
      if !IsOk(status) {
        return Some(if Truthy(message) then message.value else fallback);
      }
      return None;
    }
  }
}
