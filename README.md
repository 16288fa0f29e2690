# Bookshelf API handlers, modelled in Dafny

This project models the request handlers of a small bookshelf HTTP service.
The service keeps an in-memory table of book records. Five handlers work on
it:

- create (`POST /books`) validates the payload and appends one record;
- list (`GET /books`) filters the table by name, `reading` and `finished`, and projects each kept record to `{id, name, publisher}`;
- get (`GET /books/{id}`) returns the first record with an id;
- update (`PUT /books/{id}`) merges a payload into the first record with an id;
- delete (`DELETE /books/{id}`) splices that record out.

Each handler answers with an envelope `{status, message?, data?}` and a status code.

Layout:

- `sequences.dfy` (module `Sequences`): `Keep`, the model of `Array.prototype.filter`, and the subsequence relation it produces.
- `text.dfy` (module `Text`): ASCII lower-casing, `includes` as a search, and the `split("\"")[1]` step applied to the name query.
- `books.dfy` (module `Books`): the book record, the payload, the list projection, payload validation, and the record built by create and by update.
- `store.dfy` (module `Store`): lookups by id (`findIndex`, `filter(...)[0]`) and what push, slot overwrite and splice do to them.
- `listing.dfy` (module `Listing`): query flags, the list handler's filter chain, and its description book by book (`Selected`).
- `handler.dfy` (module `Handler`): the envelope datatype, the messages, and the class `Bookshelf`. The class holds the table as a `seq<Book>` field, and the five handlers are its methods. Create, update and delete reassign the field; list and get have no `modifies` clause, so they cannot change the table.

Abstractions:

- The generated id (`nanoid(16)`) is the parameter `freshId`. Facts that need it to be new to the table (unique ids, the id finding the new record) take that as a hypothesis.
- The current time (`new Date().toISOString()`) is the parameter `now`.
- A missing payload `name` and a missing query parameter are both the empty string. The handlers test them only for falsiness, and both are falsy.
- The `reading` and `finished` query values are parsed into `Flag`: "0" becomes `WantFalse`, "1" becomes `WantTrue`, anything else becomes `Unset`.

Details the model takes from the code:

- The messages are the code's own Indonesian strings.
- The create handler builds the new record (id, timestamps) before it validates the payload.

## Model

| member | source | states |
|---|---|---|
| `Handler.Bookshelf.constructor` | src/handler.js:3 | the table starts as whatever the `books` module holds; nothing is assumed about it |
| `Handler.Bookshelf.AddBook` | src/handler.js:21-102 | an empty name gives 400 first; otherwise readPage > pageCount gives 400; both leave the table unchanged. A valid payload appends exactly `NewBook(freshId, …)` at the end and answers 201 with `bookId` = freshId. The 500 answer never happens, and unique ids stay unique when freshId is new |
| `Books.Rejection` | src/handler.js:49-69 | validation order: a missing name is reported exactly when the name is empty; a read page past the end only when the name is present; the payload passes exactly when the name is present and readPage <= pageCount |
| `Books.NewBook` | src/handler.js:38-47 | the created record carries the given id and every payload field, `finished` iff pageCount == readPage, and insertedAt == updatedAt == now |
| `Store.AppendedIsFound` | src/handler.js:73-98 | after the push, filtering the table by the new id finds at least one record, so the "inserting issue" 500 branch is dead |
| `Store.FreshAppendFound` | src/handler.js:73-88 | when the id was fresh, after the push `findIndex` gives the last position and get returns exactly the new record |
| `Store.FreshAppendUnique` | src/handler.js:38-47 | appending under a fresh id keeps ids unique |
| `Handler.Bookshelf.ListBooks` | src/handler.js:104-169 | always 200 with no message. The data is the filtered table, projected position by position to `{id, name, publisher}`. The table is not changed |
| `Listing.ParseFlag` | src/handler.js:122-147 | a `reading`/`finished` value asks for false iff it is "0", for true iff it is "1", and filters nothing otherwise |
| `Text.NameQuery` | src/handler.js:112-114 | a name query without a double quote is used as is. With one, the needle is the text right after the first quote, up to the next quote or the end, and holds no quote |
| `Text.SecondPieceUnique` | src/handler.js:112-114 | any text that fits that description is the needle `NameQuery` returns, so the description determines it |
| `Text.IndexOf` | src/handler.js:112-113 | the first position of a character, or the length when it is absent |
| `Text.LowerChar` | src/handler.js:118 | against an alphabet table: the k-th capital letter becomes the k-th small letter, and every character that is not a capital is unchanged |
| `Text.LowerCharEqIff` | src/handler.js:118 | two characters lower-case to the same character iff they are equal or are the two cases of one letter |
| `Text.LowerAscii` | src/handler.js:118 | `toLowerCase` on ASCII keeps the length and lower-cases each character in place |
| `Text.LowerAsciiEqIff` | src/handler.js:118 | two strings lower-case to the same string iff they have the same length and agree letter by letter up to case |
| `Text.Contains` | src/handler.js:118 | the search that models `includes` succeeds iff the needle occurs at some position of the name |
| `Listing.NameMatchesIff` | src/handler.js:117-119 | a book passes the name filter iff some slice of its name equals the needle up to ASCII case |
| `Listing.NameMatchIgnoresCase` | src/handler.js:117-119 | changing the case of letters in a book's name or in the needle does not change whether the book passes |
| `Sequences.Keep` | src/handler.js:117-119 | `filter` returns no more elements than its input, and only elements of the input that pass the predicate |
| `Sequences.KeepMembers` | src/handler.js:117-119 | an element is in a filter's result iff it is in the input and passes the predicate |
| `Sequences.KeepIsSubseq` | src/handler.js:117-148 | a filter keeps the relative order of what it keeps |
| `Sequences.KeepKeep` | src/handler.js:117-148 | two filters in a row equal one filter by the conjunction of their predicates |
| `Listing.ByName` | src/handler.js:109-120 | the name step filters nothing for an empty query, and otherwise keeps exactly the books whose name matches the quote-trimmed needle |
| `Listing.ByFlag` | src/handler.js:122-148 | a reading/finished step keeps exactly the books whose field the flag admits: all for an unset flag, false for "0", true for "1" |
| `Listing.Filtered` | src/handler.js:108-148 | the name, reading and finished filters in a row keep exactly the books `Selected` describes, in table order |
| `Listing.ListViewSpec` | src/handler.js:108-166 | the list result is an order-preserving subsequence of the table; a book is in it iff it is in the table and selected; the projected view holds exactly the summaries of selected books |
| `Listing.FlagQueriesSelect` | src/handler.js:122-148 | with reading=1 every listed book is being read, with reading=0 none is; likewise for finished |
| `Handler.Project` | src/handler.js:151-155 | the `forEach` loop fills each slot with the `{id, name, publisher}` of the book at that position, giving exactly `Summaries` of the filtered books |
| `Listing.Summaries` | src/handler.js:151-155 | the projection keeps the length, and position k holds the `{id, name, publisher}` of book k |
| `Books.Summarize` | src/handler.js:152-153 | the list entry of a book carries exactly its id, name and publisher |
| `Handler.Bookshelf.GetBook` | src/handler.js:171-200 | no record with the id gives 404; otherwise 200 with the record at the first matching position, unmodified. The table is not changed |
| `Store.WithId` | src/handler.js:75 | filtering by id keeps exactly the records of the table that carry the id |
| `Store.FirstWithId` | src/handler.js:174-176 | `filter(...)[0]` is undefined iff no record carries the id, and otherwise is a record of the table with that id |
| `Store.FirstWithIdIsFindIndex` | src/handler.js:174-176 | the head of the id filter is exactly the record `findIndex` points at, and the filter is empty exactly when `findIndex` gives -1 |
| `Store.FindIndex` | src/handler.js:226-228 | -1 iff no record has the id; otherwise a position holding the id with no earlier position holding it |
| `Handler.Bookshelf.EditBook` | src/handler.js:202-288 | an unknown id gives 404 before the payload is looked at; then an empty name gives 400, then readPage > pageCount gives 400; every failure leaves the table unchanged. On success only the first matching slot changes, to `Merge(old record, payload, now)`, with 200. Unique ids stay unique |
| `Books.Merge` | src/handler.js:269-274 | the updated record keeps its id and insertedAt, takes every payload field, has `finished` iff pageCount == readPage, and updatedAt == now |
| `Books.MergeIsRecreate` | src/handler.js:269-274 | the updated record is what a create with the same payload would build, except that it keeps its id and insertedAt. So `finished` is recomputed, updatedAt is now, and every payload field is taken |
| `Books.MergeLastWins` | src/handler.js:269-274 | of two updates in a row, only the second shows |
| `Store.ReplaceUnique` | src/handler.js:269-274 | overwriting a record with one of the same id keeps ids unique |
| `Handler.Bookshelf.DeleteBook` | src/handler.js:290-322 | an unknown id gives 404 and leaves the table unchanged. Otherwise the record at the first matching position is spliced out, with 200. When ids were unique they stay unique and the id is no longer found |
| `Store.RemoveAt` | src/handler.js:311 | `splice(i, 1)` shortens the table by one, keeps the records before i, and shifts the later ones down by one |
| `Store.RemoveAtTakesOne` | src/handler.js:311 | the result is an order-preserving subsequence, and exactly one copy of the removed record is gone |
| `Store.RemoveUnique` | src/handler.js:311 | removing a record keeps ids unique |
| `Store.RemoveFoundLeavesNone` | src/handler.js:294-311 | with unique ids, after removing the record an id finds, `findIndex` gives -1 for it and get finds nothing (404) |

## Left out

- The routing table (src/routes.js) and the server bootstrap (src/server.js) are not modelled: they hold no logic, only wiring, CORS configuration and socket start-up.
- Id generation by `nanoid` and the wall clock are parameters (`freshId`, `now`). The code never checks that a generated id is new; the model states uniqueness only for ids that are.
- `console.log` output of the list handler is not modelled.
- The framework's `h.response(...).code(...)` object is the plain `Response` datatype.
- JavaScript loose equality is not modelled. The code tests `reading==0`, which also accepts values such as "00" or " 0". The model accepts only exactly "0" and "1". It also does not model `==` against `===` on ids and page counts.
- Payload fields are typed and present. The one exception is `name`, where a missing value is the empty string. Other falsy names (`null`, `0`) and missing numeric fields stored as `undefined` are not modelled.
- A query parameter given more than once (which the framework passes as an array) is not modelled.
- `toLowerCase` is modelled on ASCII letters only; full Unicode case mapping is not.
- `Handler.Bookshelf.ListBooks`: the code overwrites each slot of its local copy with the projected object in place. The model writes the projections into a fresh array of summaries. The order and the contents are the same.
- Id uniqueness is not an invariant of the table: the initial contents are arbitrary, and get, update and delete act on the first match. The handlers' contracts state that unique ids stay unique.
