/** The `App` component: five state cells, one method per handler, and the
    selection of what is rendered. Each remote call is replaced by a `Reply`
    parameter, and each handler runs as one atomic step. */
module App {
  import opened Wrappers
  import opened Collection
  import opened Errors

  /** `viewMode`: which subview is shown when nothing is loading and no error is set. */
  datatype Mode = List | View | Edit

  /** What the component returns: the loading text, the error text, or one subview
      with the props it receives. */
  datatype Screen =
    | LoadingScreen
    | ErrorScreen(text: string)
    | ListScreen(books: seq<Book>)
    | ViewScreen(book: Option<Book>)
    | EditScreen(book: Option<Book>)

  /** The render selection: loading first, then a truthy error, then exactly the
      subview matching the mode. */
  function Render(loading: bool, error: Option<ErrorMessage>, mode: Mode,
                  books: seq<Book>, selected: Option<Book>): (s: Screen)
    ensures s.LoadingScreen? <==> loading
    ensures s.ErrorScreen? <==> !loading && error.Some?
    ensures s.ErrorScreen? ==> s.text == Text(error.value)
    ensures s.ListScreen? <==> !loading && error.None? && mode == List
    ensures s.ViewScreen? <==> !loading && error.None? && mode == View
    ensures s.EditScreen? <==> !loading && error.None? && mode == Edit
    ensures s.ListScreen? ==> s.books == books
    ensures s.ViewScreen? || s.EditScreen? ==> s.book == selected
  {
    if loading then LoadingScreen
    else if error.Some? && Text(error.value) != "" then ErrorScreen(Text(error.value))
    else
      match mode
      case List => ListScreen(books)
      case View => ViewScreen(selected)
      case Edit => EditScreen(selected)
  }

  /** The TypeError that `book.map(...)` throws: it carries neither a response nor
      a request, only its message. */
  const BookMapTypeError: HttpError := HttpError(None, false, "book.map is not a function")

  class BookApp {
    var books: seq<Book>
    var selectedBook: Option<Book>
    var viewMode: Mode
    var loading: bool
    var error: Option<ErrorMessage>

    /** The initial values of the five `useState` cells. */
    constructor ()
      ensures books == [] && selectedBook == None && viewMode == List
      ensures loading && error == None
    {
      books := [];
      selectedBook := None;
      viewMode := List;
      loading := true;
      error := None;
    }

    /** What the component currently shows. */
    function Screen(): Screen
      reads this
    {
      Render(loading, error, viewMode, books, selectedBook)
    }

    /** `handleError`: records the classified message and touches nothing else. */
    method HandleError(err: HttpError)
      modifies this`error
      ensures error == Some(Classify(err))
    {
      error := Some(Classify(err));
    }

    /** `fetchBooks`, run once on mount with the outcome of the GET. */
    method FetchBooks(reply: Reply<seq<Book>>)
      modifies this`books, this`error, this`loading
      ensures !loading
      ensures reply.Success? ==> books == reply.data && error == None
      ensures reply.Failure? ==> books == old(books) && error == Some(Classify(reply.err))
    {
      loading := true;
      match reply
      case Success(data) =>
        books := data;
        error := None;
        loading := false;
      case Failure(err) =>
        HandleError(err);
        loading := false;
    }

    /** `handleView`: select the first book with `id` (none when absent) and show it. */
    method HandleView(id: Id)
      modifies this`selectedBook, this`viewMode
      ensures selectedBook == FindById(books, id) && viewMode == View
    {
      selectedBook := FindById(books, id);
      viewMode := View;
    }

    /** `handleEdit`: the same lookup, with an explicit `null` when absent (both are
        `None` here), and open the form. */
    method HandleEdit(id: Id)
      modifies this`selectedBook, this`viewMode
      ensures selectedBook == FindById(books, id) && viewMode == Edit
    {
      var found := FindById(books, id);
      selectedBook := if found.Some? then found else None;
      viewMode := Edit;
    }

    /** `handleDelete` with the outcome of the DELETE request. */
    method HandleDelete(id: Id, reply: Reply<()>)
      modifies this`books, this`viewMode, this`error
      ensures reply.Success? ==> books == RemoveById(old(books), id) && viewMode == List && error == None
      ensures reply.Success? ==> !HasId(books, id)
      ensures reply.Success? && UniqueIds(old(books)) ==> UniqueIds(books)
      ensures reply.Failure? ==>
        books == old(books) && viewMode == old(viewMode) && error == Some(Classify(reply.err))
    {
      match reply
      case Success(_) =>
        if UniqueIds(books) { RemoveKeepsUnique(books, id); }
        books := RemoveById(books, id);
        viewMode := List;
        error := None;
      case Failure(err) =>
        HandleError(err);
    }

    /** `handleSave` with the update path corrected to replace the matching entry of
        `books` (the source maps over the saved book instead; `HandleSaveAsWritten`
        keeps that). `reply` is the outcome of the PUT (its body is unused) when the
        id is truthy and of the POST otherwise. */
    method HandleSave(book: Book, reply: Reply<Book>)
      modifies this`books, this`viewMode, this`error
      ensures reply.Success? && Truthy(book.id) ==> books == ReplaceById(old(books), book)
      ensures reply.Success? && !Truthy(book.id) ==>
        books == old(books) + [reply.data] && |books| == |old(books)| + 1
      ensures reply.Success? ==> viewMode == List && error == None
      ensures reply.Success? && Truthy(book.id) && UniqueIds(old(books)) ==> UniqueIds(books)
      ensures reply.Failure? ==>
        books == old(books) && viewMode == old(viewMode) && error == Some(Classify(reply.err))
    {
      match reply
      case Failure(err) =>
        HandleError(err);
      case Success(created) =>
        if Truthy(book.id) {
          ReplaceByIdKeepsIds(books, book);
          books := ReplaceById(books, book);
        } else {
          books := books + [created];
        }
        viewMode := List;
        error := None;
    }

    /** `handleSave` as written: after a successful PUT, line 70 calls `map` on the
        saved book, which throws; the catch records that exception, and neither
        `books` nor `viewMode` changes. The create path is as in `HandleSave`. */
    method HandleSaveAsWritten(book: Book, reply: Reply<Book>)
      modifies this`books, this`viewMode, this`error
      ensures reply.Success? && Truthy(book.id) ==>
        books == old(books) && viewMode == old(viewMode) &&
        error == Some(ClientError("book.map is not a function"))
      ensures reply.Success? && !Truthy(book.id) ==>
        books == old(books) + [reply.data] && viewMode == List && error == None
      ensures reply.Failure? ==>
        books == old(books) && viewMode == old(viewMode) && error == Some(Classify(reply.err))
    {
      match reply
      case Failure(err) =>
        HandleError(err);
      case Success(created) =>
        if Truthy(book.id) {
          HandleError(BookMapTypeError);
        } else {
          books := books + [created];
          viewMode := List;
          error := None;
        }
    }

    /** `handleBack`: back to the list, keeping the selection. */
    method HandleBack()
      modifies this`viewMode
      ensures viewMode == List
    {
      viewMode := List;
    }

    /** `handleCreateNewBook`: clear the selection and open an empty form. */
    method HandleCreateNewBook()
      modifies this`selectedBook, this`viewMode
      ensures selectedBook == None && viewMode == Edit
    {
      selectedBook := None;
      viewMode := Edit;
    }
  }

  // ---- sessions driven through the handlers ----

  /** A successful initial load shows the list of exactly the fetched books. */
  method LoadScenario(data: seq<Book>) returns (shown: Screen)
    ensures shown == ListScreen(data)
  {
    var app := new BookApp();
    assert app.Screen() == LoadingScreen;
    app.FetchBooks(Success(data));
    shown := app.Screen();
  }

  /** A failed initial load leaves the collection empty and shows the classified
      error in place of every subview. */
  method LoadFailureScenario(err: HttpError) returns (shown: Screen, books: seq<Book>)
    ensures books == []
    ensures shown == ErrorScreen(Text(Classify(err)))
    ensures err.response.None? && err.requestSent ==> shown == ErrorScreen(NetworkErrorText)
  {
    var app := new BookApp();
    app.FetchBooks(Failure(err));
    shown, books := app.Screen(), app.books;
  }

  /** Create a book, open it for editing, save an edited version, then delete it:
      the collection gains the created book, then holds the edited one under the
      same id, and ends as it was loaded. */
  method RoundTripScenario(data: seq<Book>, draft: Book, created: Book, edited: Book)
    returns (afterCreate: seq<Book>, editing: Option<Book>, afterUpdate: seq<Book>, afterDelete: seq<Book>)
    requires UniqueIds(data) && !Truthy(draft.id)
    requires Truthy(created.id) && !HasId(data, created.id) && edited.id == created.id
    ensures afterCreate == data + [created] && FindById(afterCreate, created.id) == Some(created)
    ensures editing == Some(created)
    ensures afterUpdate == data + [edited] && FindById(afterUpdate, created.id) == Some(edited)
    ensures afterDelete == data && !HasId(afterDelete, created.id)
  {
    var app := new BookApp();
    app.FetchBooks(Success(data));
    app.HandleCreateNewBook();
    app.HandleSave(draft, Success(created));
    afterCreate := app.books;
    AppendFresh(data, created);
    app.HandleEdit(created.id);
    editing := app.selectedBook;
    app.HandleSave(edited, Success(edited));
    afterUpdate := app.books;
    ReplaceAppended(data, created, edited);
    assert !HasId(data, edited.id);
    AppendFresh(data, edited);
    app.HandleDelete(created.id, Success(()));
    afterDelete := app.books;
  }

  /** The update path as written: a successful PUT of an edited book leaves the
      collection as it was (not as the corrected replacement) and shows the
      TypeError's message instead of the list. */
  method AsWrittenUpdateScenario(data: seq<Book>, k: nat, edited: Book)
    returns (shown: Screen, kept: seq<Book>)
    requires UniqueIds(data) && k < |data| && edited.id == data[k].id && Truthy(edited.id)
    requires edited != data[k]
    ensures kept == data && kept != ReplaceById(data, edited)
    ensures shown == ErrorScreen("Error: " + "book.map is not a function")
  {
    var app := new BookApp();
    app.FetchBooks(Success(data));
    app.HandleEdit(edited.id);
    app.HandleSaveAsWritten(edited, Success(edited));
    shown, kept := app.Screen(), app.books;
    assert ReplaceById(data, edited)[k] == edited;
  }
}
