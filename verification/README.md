# Book catalog view-controller

A Dafny model of the `App` component of a single-page book catalog. The
component keeps five state cells: `books`, `selectedBook`, `viewMode`,
`loading` and `error`. Its handlers fetch, view, edit, delete and save books
against a remote REST collection, and update those cells from each response.
Its render step shows the loading text, the error text, or exactly one of the
list, detail and form subviews.

Layout:

- `wrappers.dfy` (`Wrappers`): the `Option` type used for `selectedBook` and `error`.
- `collection.dfy` (`Collection`): `Id` (missing, number or string), the JavaScript
  truthiness of an id, `Book`, and the pure collection computations the handlers
  run. These are `find` by id, `filter` out by id, `map` to replace by id, and
  append. Each comes with lemmas about order, identity of the result and
  uniqueness of ids.
- `errors.dfy` (`Errors`): the shape of a rejected request (response, request
  sent, message) and the outcome `Reply` of one API call. It holds `handleError`'s
  three-way priority classification, the displayed text, and the decimal rendering
  of the status code.
- `app.dfy` (`App`): the class `BookApp` with the five cells as fields and one
  method per handler. Each method's `modifies` clause names exactly the cells the
  handler sets. The file also holds the pure render selection `Render` and four
  sessions driven through the handlers: load, failed load, a create/edit/save/delete
  round trip, and the update path as written.

Every call to the remote API is a `Reply` parameter of the handler: either
`Success(data)` or `Failure(err)`. Each handler is one atomic step.

## Model

| member | source | states |
|---|---|---|
| `Collection.FindById` | src/App.jsx:46 | The result is absent exactly when no book carries the id. Otherwise it is the book at the first index carrying that id. |
| `Collection.FindByIdUnique` | src/App.jsx:51 | With unique ids, looking up the id of entry k yields entry k. |
| `Collection.RemoveByIdFilters` | src/App.jsx:58 | A book survives the filter exactly when it was in the collection and carries another id. No book with the id remains. Every book with another id keeps its number of occurrences. |
| `Collection.RemoveByIdAbsent` | src/App.jsx:58 | Deleting an id that no book carries leaves the collection unchanged. |
| `Collection.RemoveByIdConcat` | src/App.jsx:58 | The filter distributes over concatenation, so survivors keep their relative order. |
| `Collection.RemoveByIdUnique` | src/App.jsx:58 | With unique ids, deleting the id of entry k gives `books[..k] + books[k+1..]`: exactly that entry goes and the rest keep their order. |
| `Collection.RemoveKeepsUnique` | src/App.jsx:58 | Deleting preserves uniqueness of ids. |
| `Collection.ReplaceById` | src/App.jsx:70 | This is the intended `books.map(b => b.id === book.id ? book : b)`. The length is kept. Every entry with the saved id becomes the saved book. Every other entry is unchanged. |
| `Collection.ReplaceByIdKeepsIds` | src/App.jsx:70 | Replacement keeps every entry's id at its index, and so preserves uniqueness of ids. |
| `Collection.ReplaceByIdAbsent` | src/App.jsx:70 | Saving a book whose id is not in the collection leaves it unchanged. |
| `Collection.ReplaceByIdFinds` | src/App.jsx:70 | After replacing a present id, looking it up yields the saved book. |
| `Collection.ReplaceByIdIdempotent` | src/App.jsx:70 | Saving the same book twice equals saving it once. |
| `Collection.AppendFresh` | src/App.jsx:73 | Appending a created book whose id is new has three consequences. Ids stay unique. The book is found by its id. Deleting that id restores the collection exactly. |
| `Collection.ReplaceAppended` | src/App.jsx:70-73 | Saving an edit of the freshly appended book replaces just the last entry. |
| `Errors.Classify` | src/App.jsx:17-25 | This is the exclusive priority chain. A present response gives a status error carrying its status and server message. Otherwise a sent request gives the network error. Otherwise the result is the exception's own message. |
| `Errors.Text` | src/App.jsx:19-23 | Every message text is non-empty, so it is truthy. The text equals the fixed network text exactly for the connectivity branch. |
| `Errors.Decimal` | src/App.jsx:19 | The status code renders as a non-empty run of decimal digits with no leading zero. |
| `Errors.DecimalRoundTrip` | src/App.jsx:19 | Reading the rendered digits back gives the status code. |
| `App.Render` | src/App.jsx:91-122 | The loading screen shows exactly when loading. The error screen, with the message text, shows exactly when not loading and an error is set. Otherwise the one subview matching `viewMode` shows, with the collection or the selection as its prop. |
| `App.BookApp.constructor` | src/App.jsx:11-15 | The initial state is an empty collection, no selection, list mode, loading, and no error. |
| `App.BookApp.HandleError` | src/App.jsx:17-25 | Only `error` changes. It becomes the classified message. |
| `App.BookApp.FetchBooks` | src/App.jsx:28-43 | Loading ends false in both cases. On success, `books` is exactly the fetched data and the error is cleared. On failure, `books` is unchanged and the error is the classified message. |
| `App.BookApp.HandleView` | src/App.jsx:45-48 | The selection becomes the first book with the id, or none. The mode becomes view. Nothing else changes. |
| `App.BookApp.HandleEdit` | src/App.jsx:50-53 | The same lookup, with none when absent. The mode becomes edit. Nothing else changes. |
| `App.BookApp.HandleDelete` | src/App.jsx:55-64 | On success, `books` is the filtered collection, so no book with the id remains. The mode becomes list, the error is cleared, and uniqueness of ids is preserved. On failure, `books` and the mode are unchanged and only the error is set. |
| `App.BookApp.HandleSave` | src/App.jsx:66-80 | This is the corrected save. For a truthy id, success replaces by id and keeps ids unique. For a falsy id, success appends the server's book, so the length grows by one and earlier entries stay as they were. Both successes set list mode and clear the error. On failure only the error changes. |
| `App.BookApp.HandleSaveAsWritten` | src/App.jsx:66-80 | This is the save as written. After a successful PUT, `books` and the mode are unchanged. The error becomes the client error "book.map is not a function". The create and failure paths behave as in `HandleSave`. |
| `App.BookApp.HandleBack` | src/App.jsx:82-84 | Only the mode changes, to list. The selection is kept. |
| `App.BookApp.HandleCreateNewBook` | src/App.jsx:86-89 | Only the selection (cleared) and the mode (edit) change. |
| `App.LoadScenario` | src/App.jsx:28-43 | After a successful initial load, the screen is the list of exactly the fetched books. |
| `App.LoadFailureScenario` | src/App.jsx:28-43 | After a failed initial load, the collection is empty and the classified error text replaces every subview. A request sent without a response shows the network text. |
| `App.RoundTripScenario` | src/App.jsx:50-89 | The session runs create, edit, save and delete on a fresh id. The created book appears and is found by its id. Editing selects it. The save puts the edited book under the same id. The delete leaves the collection as loaded. |
| `App.AsWrittenUpdateScenario` | src/App.jsx:66-97 | As written, a successful update leaves the collection as it was. That differs from the intended replacement. The screen shows "Error: book.map is not a function". |

## Findings

| source | as written | input that shows it | evidently intended | confidence | as-written member | corrected member |
|---|---|---|---|---|---|---|
| src/App.jsx:70 | `book.map(...)` is called on the saved book object. That object has no `map` method, so after the PUT succeeds a TypeError is thrown. The catch on lines 77-78 records it. `books` keeps the old entry, `viewMode` stays `edit`, and the screen shows "Error: book.map is not a function". | `books = [{id: 1, title: "A"}]`, then save `{id: 1, title: "B"}` with a successful PUT | `books.map((b) => (b.id === book.id ? book : b))`: replace the entry with that id, then go to the list | high (not executed) | `App.BookApp.HandleSaveAsWritten`, exhibited by `App.AsWrittenUpdateScenario` | `App.BookApp.HandleSave`, using `Collection.ReplaceById` and its lemmas |

The class `BookApp` uses the corrected `HandleSave` everywhere else, including
in `RoundTripScenario`.

## Behaviour worth noting

- Only a successful fetch, delete or save clears `error` (src/App.jsx lines 34, 60 and 76). `handleView`, `handleEdit`, `handleBack` and `handleCreateNewBook` leave it as it is.
- `handleBack` (src/App.jsx lines 82-84) sets only `viewMode`, so `selectedBook` is kept.
- The update path of `handleSave` is recorded under Findings.

## Left out

- The HTTP calls and the hard-coded API URL: each call's outcome is a `Reply` parameter. `HandleSave` takes one reply, whose data is the created book on the POST path and is ignored on the PUT path.
- JSX markup, styling, and the `BookList`, `ViewBook` and `BookForm` components are not part of this model. Rendering is the `Screen` tag with the props the chosen subview receives.
- React hook mechanics. This covers `useState`, `useEffect` scheduling (the model does not enforce that `FetchBooks` runs only once), re-render timing and stale closures.
- Interleaving of in-flight requests: every handler is one atomic step. The intermediate `setLoading(true)` of `fetchBooks` is therefore never observed.
- `undefined` versus `null`: `handleView` stores `undefined` when no book matches and `handleEdit` stores `null`. Both are `None`, since the subviews receive no book either way.
- Ids that are fractional numbers, `NaN` or other JSON values: an id is missing, an integer or a string.
- A server response whose `data.message` is missing (the template literal would print `undefined`): the server message is always a string.
- A GET response whose body is not an array of books: the fetched data is always a `seq<Book>`.
- Exact error wording beyond the branch and its fields. The texts follow the source's template literals; the TypeError message is the one V8 produces.
- Book fields other than `id`: they are an opaque map owned by the remote API.
