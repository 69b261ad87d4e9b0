# BookStore API — a Dafny model of its routes and its browser client

The BookStore API is an Express service with two route groups and a single-page client:

- **Book routes** (`/api/books`): create, list, get, update and delete book records. The list is filtered by author, category, minimum rating and title, and paginated. Every book route sits behind a bearer-token middleware.
- **Auth routes** (`/api/auth`): signup stores a user with a bcrypt-hashed password; signup and login both answer with a signed token.
- **Browser client** (`public/script.js`): keeps the token, the current page, the page count and the book being edited. It builds the list query, validates the book form before saving, and logs out when a response is 401.

The model has one module per part:

- `Catalog` (`catalog.dfy`): class `Catalog` over a map of books, one method per route.
- `Auth` (`auth.dfy`): class `Registry` over a map of users, with the hash and its comparison as function-valued constants.
- `Client` (`client.dfy`): class `App` with the client's global variables as fields and one method per handler step.
- `EndToEnd` (`end_to_end.dfy`): lemmas about what the client sends as the server reads it.
- `Strings` (`strings.dfy`) and `Wrappers` (`wrappers.dfy`): the JavaScript string operations used, and `Option`.

What is proved, in short:

- The list route answers exactly the page of the selected books that the page number asks for, in identifier order. Its `total` counts all of them, and `pages` is the least count of pages that holds them.
- A partial update changes exactly the fields it supplies.
- Login gives the same answer for an unknown address and for a wrong password. A user who just signed up can log in with the same password.
- The client's query string carries each non-empty filter once, and the page number reads back as the current page. The Save button rejects inputs in the order and with the messages of the source. It sends PUT exactly when a book is being edited.

Where the code and its design description differ, the model follows the code:

- The create route stores no owner for a new book (`backend/src/routes/bookRoutes.js:22-31`).
- The update route ignores a text field sent as the empty string (`bookRoutes.js:137-142`), so that field keeps its value rather than being cleared. Price and rating are applied whenever they are sent, 0 included.
- The create route's required-field check treats `price` and `rating` differently from the text fields: it looks only at whether they were sent, so 0 is accepted (`bookRoutes.js:17`).

## Model

| member | source | states |
|---|---|---|
| `Catalog.Catalog.constructor` | backend/src/routes/bookRoutes.js:6 | the store starts empty and every book is stored under its own identifier |
| `Catalog.Catalog.Create` | backend/src/routes/bookRoutes.js:12-38 | without all six fields (text fields non-empty, price and rating sent) the answer is 400 "All fields are required" and nothing changes; otherwise exactly one book with a fresh identifier and the sent fields is added and returned with 201 |
| `Catalog.Catalog.List` | backend/src/routes/bookRoutes.js:41-96 | always 200; page and limit default to 1 and 10 and are echoed; `total` is the number of books the filters select; `pages` is the ceiling of total/limit, or `null` when the limit is 0; `data` holds exactly the selected books ranked `(page-1)*limit` up to, but excluding, `page*limit`, each at the position its rank gives |
| `Catalog.Catalog.Get` | backend/src/routes/bookRoutes.js:99-116 | a stored book is returned with 200, a missing one gives 404 "Book not found" |
| `Catalog.Catalog.Update` | backend/src/routes/bookRoutes.js:119-151 | a missing book gives 404 and nothing changes; otherwise only that book is replaced by the patched one, which is returned with 200 |
| `Catalog.Catalog.Delete` | backend/src/routes/bookRoutes.js:154-177 | a missing book gives 404 and nothing changes; otherwise exactly that book is removed and the answer is 204 with no body |
| `Catalog.BuildWhere` | backend/src/routes/bookRoutes.js:55-71 | a book matches the `where` object exactly when it satisfies every filter sent non-empty; with no such filter the object is empty |
| `Catalog.Matching` | backend/src/routes/bookRoutes.js:77-81 | the store's list of matches holds every stored matching book, only those, each once, in increasing identifier order |
| `Catalog.MatchingCount` | backend/src/routes/bookRoutes.js:74 | `count({ where })` equals the length of the list `findMany({ where })` walks |
| `Catalog.MatchingPrefix` | backend/src/routes/bookRoutes.js:77-81 | the matches below a smaller identifier bound are a prefix of the matches below a larger one |
| `Catalog.RankInMatching` | backend/src/routes/bookRoutes.js:77-81 | a matching book sits in the list of matches at the position given by the number of matching books before it |
| `Catalog.PageOfMatches` | backend/src/routes/bookRoutes.js:52-81 | a `skip`/`take` window of the matches holds exactly the selected books whose rank falls in the window, and the list's length is the number of selected books |
| `Catalog.Window` | backend/src/routes/bookRoutes.js:79-80 | `skip`/`take` gives at most `take` elements — fewer only at the end — starting at element `skip` |
| `Catalog.CeilDiv` | backend/src/routes/bookRoutes.js:89 | `Math.ceil(total / limit)` is the least page count whose pages hold all `total` entries |
| `Catalog.CeilDivZero` | backend/src/routes/bookRoutes.js:89 | the page count is 0 exactly when nothing matched |
| `Catalog.LastPageHoldsRemainder` | backend/src/routes/bookRoutes.js:85-90 | when something matched, the last page holds between 1 and `limit` books |
| `Catalog.PatchChangesOnlySuppliedFields` | backend/src/routes/bookRoutes.js:134-146 | each field the body supplies takes the new value; every other field, and the identifier, keep theirs |
| `Catalog.EmptyPatchIsIdentity` | backend/src/routes/bookRoutes.js:136-143 | a body that supplies nothing leaves the book unchanged |
| `Catalog.PatchIdempotent` | backend/src/routes/bookRoutes.js:134-146 | sending the same update twice has the effect of sending it once |
| `Catalog.FullPatchIsNewBook` | backend/src/routes/bookRoutes.js:17-31 | a body that would pass the create check replaces every field but the identifier, as create would have set it |
| `Catalog.DeleteThenGet` | backend/src/routes/bookRoutes.js:99-177 | after a delete, a get of the same identifier gives 404 while every other book is unchanged |
| `Auth.Registry.constructor` | backend/src/routes/authRoutes.js:7 | the user store starts empty |
| `Auth.Registry.Signup` | backend/src/routes/authRoutes.js:10-48 | a missing or empty field gives 400; an address already in use gives 409 and nothing changes; otherwise exactly one user is added, with a fresh identifier and the salted hash in place of the password, and the answer is 201 with that user's identifier, address and token |
| `Auth.Registry.Login` | backend/src/routes/authRoutes.js:51-83 | a missing or empty field gives 400; the answer is 200 exactly when the address is registered and the password compares equal to its hash, and then carries that user's identifier, address and token; an unknown address and a wrong password both give the same 401 "Invalid credentials" |
| `Auth.SignupThenLogin` | backend/src/routes/authRoutes.js:10-83 | a user who has just signed up logs in with the same password and gets the same identifier and address, and a token for the same identifier |
| `Auth.SignupTwice` | backend/src/routes/authRoutes.js:18-34 | a second signup for the same address is refused with 409 whatever the password, and the first password hash is kept |
| `Client.App.constructor` | backend/public/script.js:2-5 | the token is what local storage holds (none when that is empty); the page and page count start at 1 and no book is being edited |
| `Client.App.Logout` | backend/public/script.js:180-185 | the token is cleared and nothing else changes |
| `Client.App.CheckSession` | backend/public/script.js:209-213 | a 401 answer, and only that, counts as an expired session and clears the token |
| `Client.App.BooksQuery` | backend/public/script.js:197-203 | the query carries each filter exactly when it is non-empty, with its value; it carries the current page in decimal and a limit of 6; no name occurs twice |
| `Client.FilterQuery` | backend/public/script.js:198-201 | the filter part of the query carries each filter exactly when it is non-empty, with its value, no page or limit, and no name twice |
| `Client.Append` | backend/public/script.js:198-203 | appending a parameter keeps every value already there, gives a new name its value and keeps the names distinct |
| `Client.LookupAppend` | backend/public/script.js:198-203 | reading a query after an append finds the earlier value of a name, or else the appended one |
| `Client.LookupNone` | backend/public/script.js:198-203 | a name the query does not yield occurs nowhere in it |
| `Client.App.Search` | backend/public/script.js:65-68 | the search button goes back to page 1 and issues the load query for the current filters at page 1 |
| `Client.App.PrevPage` | backend/public/script.js:73-78 | the page moves back by one and a load is issued exactly when the page was past 1, with the load query for the current filters at the new page; otherwise nothing changes |
| `Client.App.NextPage` | backend/public/script.js:79-84 | the page moves on by one and a load is issued exactly when it was before the last page, with the load query for the current filters at the new page; the page never passes the page count |
| `Client.App.BooksLoaded` | backend/public/script.js:209-232 | a 401 logs out; a failed status or a body without data reports an error and changes nothing else; on success the page count is `pagination.pages`, or 1 when that is missing or 0, and the buttons are disabled exactly at the first and last page |
| `Client.App.ShowAddBookModal` | backend/public/script.js:283-294 | the form opened by the add button saves a new book |
| `Client.App.BookDetailsLoaded` | backend/public/script.js:297-341 | a 401 logs out; the edited book becomes the loaded one exactly when the answer succeeded and carries an identifier |
| `Client.App.PrepareSave` | backend/public/script.js:371-413 | title, author, price, rating and date are checked in that order, each failure with its own message; a request is sent exactly when all pass, with the trimmed text fields and the parsed numbers; it is a PUT to the book's address exactly when a book is being edited, else a POST to the collection |
| `Client.App.SaveOrDeleteResponded` | backend/public/script.js:353-361 | a 401 logs out; any other failure reports the server's message or the fallback; success reports nothing |
| `Strings.IsInfixIffOffset` | backend/src/routes/bookRoutes.js:58 | the substring search succeeds exactly when the needle starts at some offset of the text |
| `Strings.LowerIdempotent` | backend/src/routes/bookRoutes.js:58 | lower-casing twice is lower-casing once |
| `Strings.ContainsInsensitiveIgnoresNeedleCase` | backend/src/routes/bookRoutes.js:70 | the case of a title or author filter never changes which books match |
| `Strings.ContainsInsensitiveSelf` | backend/src/routes/bookRoutes.js:70 | every value matches a filter equal to itself |
| `Strings.TrimStart` | backend/public/script.js:376 | trimming the front removes exactly the leading white space |
| `Strings.TrimEnd` | backend/public/script.js:376 | trimming the back removes exactly the trailing white space |
| `Strings.TrimHasNoOuterSpace` | backend/public/script.js:376-383 | what `trim` keeps neither starts nor ends with white space |
| `Strings.TrimEmptyIff` | backend/public/script.js:379-380 | a title or author is rejected as missing exactly when it is all white space |
| `Strings.Decimal` | backend/public/script.js:202 | a page number is rendered as decimal digits with no leading zero |
| `Strings.DecimalRoundTrip` | backend/src/routes/bookRoutes.js:52 | `parseInt` of the rendered page number gives back the page number |
| `EndToEnd.ClientQueryAsServerReadsIt` | backend/public/script.js:197-203 | the list route reads the client's query as page `currentPage` of 6 books, selecting a book exactly when it passes every filter the user filled in |
| `EndToEnd.CreateAcceptsSavedFormIffCategory` | backend/src/routes/bookRoutes.js:17-19 | a new book that passed the form's checks is stored exactly when its category is not empty, the one field the client does not check |
| `EndToEnd.UpdateFromSavedForm` | backend/src/routes/bookRoutes.js:134-146 | saving an edited book replaces every field except the identifier; a category left empty keeps the stored one |
| `EndToEnd.ReachablePagesAreNonEmpty` | backend/public/script.js:229-232 | the page count the client keeps is at least 1; every page it lets the user reach begins inside the matches, or is page 1 when there are none |

## Left out

- Express, the HTTP transport, the DOM, `fetch`, `localStorage` and notifications: handlers take what they read as parameters and return what they would send or show.
- The success notifications of save and delete, and the follow-up `loadBooks` call after a successful save or delete (`script.js:363-364`, `434-436`).
- The bearer-token middleware applied to every book route: `backend/src/middleware/auth.js` is not part of this model. The client's reaction to its 401 is modelled.
- Every `500 "Server error"` path: a failure of the database or of a foreign call.
- `safeParseJSON` and malformed response bodies: a response is modelled by the parts the client inspects.
- `parseFloat` and `NaN`. Price and rating arrive as the reals `parseFloat` gives. The client form's price and rating are `None` where `parseFloat` gives NaN. A rating filter carries its text and its parsed value, and no NaN case is modelled.
- `new Date(...)`: dates are kept as the text the request gave, and the form's default date of today is not modelled.
- Case folding: `mode: 'insensitive'` is modelled by ASCII lower-casing. Unicode case folding is not modelled.
- bcrypt's salt generation and cost factor: the salt is a parameter. The hash and its comparison are uninterpreted, except that a password compares equal to any hash of itself.
- JSON Web Tokens: the secret, the signature and the 24-hour expiry are not modelled, and a token is the user identifier it carries.
- `handleLogin` and `handleSignup` in the client, which send the forms and store the returned token, together with the `displayBooks` rendering.
- Identifier generation: the store's identifiers are a counter, fresh for each new record.
- Catalog.Matching: `findMany` has no `orderBy`, so its order is the store's. The model fixes that order to increasing identifier.
- Catalog.Catalog.List: requires page ≥ 1 and limit ≥ 0. With a positive limit, a page ≤ 0 makes `skip` negative, which the store refuses, so the route answers 500. A negative limit and non-numeric `page` or `limit` text (NaN) are not modelled either. A limit of 0 is modelled: the answer is 200 with empty `data`, and `pages` is `null`, because JSON writes the Infinity or NaN of `Math.ceil(total / 0)` as `null`. The client only ever sends a page ≥ 1 and a limit of 6.
- Auth.Registry.Signup: a request field that is not a string (a number or an object in the JSON body) is not modelled; fields are absent or strings.
- `prisma/seed.js` and `src/app.js` (seeding, wiring and static file serving) are not part of this model.
