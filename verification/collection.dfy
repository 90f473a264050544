/** The local book collection and the three lookups the view-controller runs on
    it: `find` by id (handleView, handleEdit), `filter` out by id (handleDelete)
    and `map` to replace by id (the update path of handleSave). Appending the
    created book is plain `books + [b]`; its properties are lemmas here. */
module Collection {
  import opened Wrappers

  /** A book identifier as the JSON API delivers it: missing, a number or a string.
      Equality of two `Id`s is JavaScript's `===`: a number never equals a string. */
  datatype Id = Missing | Num(n: int) | Str(s: string)

  /** JavaScript truthiness of an identifier: `undefined`, `0` and `""` are falsy,
      so `if (book.id)` sends a book with such an id down the create path. */
  predicate Truthy(id: Id) {
    match id
    case Missing => false
    case Num(n) => n != 0
    case Str(s) => s != ""
  }

  /** A book record: its identifier and the descriptive fields, whose schema the
      remote API owns. */
  datatype Book = Book(id: Id, fields: map<string, string>)

  /** Some book of the collection carries `id`. */
  ghost predicate HasId(books: seq<Book>, id: Id) {
    exists i :: 0 <= i < |books| && books[i].id == id
  }

  /** No two books of the collection share an identifier. */
  ghost predicate UniqueIds(books: seq<Book>) {
    forall i, j :: 0 <= i < j < |books| ==> books[i].id != books[j].id
  }

  /** Entry `k` is the first book of the collection that carries `id`. */
  ghost predicate FirstWithId(books: seq<Book>, id: Id, k: int) {
    0 <= k < |books| && books[k].id == id && forall j :: 0 <= j < k ==> books[j].id != id
  }

  /** `books.find((book) => book.id === id)`: the first book carrying `id`, if any. */
  function FindById(books: seq<Book>, id: Id): (r: Option<Book>)
    ensures r.None? <==> !HasId(books, id)
    ensures r.Some? ==> exists k :: FirstWithId(books, id, k) && books[k] == r.value
  {
    if books == [] then None
    else if books[0].id == id then (assert FirstWithId(books, id, 0); Some(books[0]))
    else
      var r := FindById(books[1..], id);
      assert r.Some? ==> exists k :: FirstWithId(books, id, k) && books[k] == r.value by {
        if r.Some? {
          var k :| FirstWithId(books[1..], id, k) && books[1..][k] == r.value;
          assert FirstWithId(books, id, k + 1) by {
            forall j | 0 <= j < k + 1 ensures books[j].id != id {
              if j > 0 { assert books[j] == books[1..][j - 1]; }
            }
          }
        }
      }
      assert r.None? ==> !HasId(books, id) by {
        if r.None? {
          forall i | 0 <= i < |books| ensures books[i].id != id {
            if i > 0 { assert books[i] == books[1..][i - 1]; }
          }
        }
      }
      r
  }

  /** `books.filter((book) => book.id !== id)`: no book with `id` is left. Which
      books survive, in what order and how often is stated by `RemoveByIdFilters`,
      `RemoveByIdConcat` and `RemoveByIdUnique`. */
  function RemoveById(books: seq<Book>, id: Id): (r: seq<Book>)
    ensures |r| <= |books|
    ensures !HasId(r, id)
  {
    if books == [] then []
    else
      var rest := RemoveById(books[1..], id);
      var r := if books[0].id == id then rest else [books[0]] + rest;
      assert !HasId(r, id) by {
        forall i | 0 <= i < |r| ensures r[i].id != id {
          if books[0].id != id && i > 0 { assert r[i] == rest[i - 1]; }
        }
      }
      r
  }

  /** `books.map((b) => (b.id === saved.id ? saved : b))`: the collection with every
      entry carrying the saved book's id replaced by the saved book. */
  function ReplaceById(books: seq<Book>, saved: Book): (r: seq<Book>)
    ensures |r| == |books|
    ensures forall i :: 0 <= i < |books| ==>
      (books[i].id == saved.id ==> r[i] == saved) && (books[i].id != saved.id ==> r[i] == books[i])
  {
    if books == [] then []
    else
      var rest := ReplaceById(books[1..], saved);
      [if books[0].id == saved.id then saved else books[0]] + rest
  }

  // ---- filter: order and uniqueness ----

  /** A book survives the filter exactly when it was in the collection with another
      id, and every book with another id keeps its number of occurrences. */
  lemma {:induction false} RemoveByIdFilters(books: seq<Book>, id: Id)
    ensures forall b :: b in RemoveById(books, id) <==> b in books && b.id != id
    ensures forall b: Book :: b.id != id ==> multiset(RemoveById(books, id))[b] == multiset(books)[b]
    ensures !HasId(RemoveById(books, id), id)
  {
    var r := RemoveById(books, id);
    if books != [] {
      var tail := books[1..];
      RemoveByIdFilters(tail, id);
      assert books == [books[0]] + tail;
      var rest := RemoveById(tail, id);
      assert r == if books[0].id == id then rest else [books[0]] + rest;
    }
    forall i | 0 <= i < |r| ensures r[i].id != id {
      assert r[i] in r;
    }
  }

  /** Removing an id that no book carries changes nothing. */
  lemma {:induction false} RemoveByIdAbsent(books: seq<Book>, id: Id)
    requires !HasId(books, id)
    ensures RemoveById(books, id) == books
  {
    if books != [] {
      assert !HasId(books[1..], id) by {
        forall i | 0 <= i < |books[1..]| ensures books[1..][i].id != id {
          assert books[1..][i] == books[i + 1];
        }
      }
      RemoveByIdAbsent(books[1..], id);
      assert books[0].id != id;
      assert books == [books[0]] + books[1..];
    }
  }

  /** Filtering works piece by piece: it keeps the relative order of the survivors. */
  lemma {:induction false} RemoveByIdConcat(a: seq<Book>, b: seq<Book>, id: Id)
    ensures RemoveById(a + b, id) == RemoveById(a, id) + RemoveById(b, id)
  {
    if a == [] {
      assert a + b == b;
    } else {
      var ab := a + b;
      assert ab[0] == a[0] && ab[1..] == a[1..] + b;
      RemoveByIdConcat(a[1..], b, id);
      var tail := RemoveById(a[1..], id) + RemoveById(b, id);
      assert RemoveById(ab, id) == (if a[0].id == id then tail else [a[0]] + tail);
      assert RemoveById(a, id) ==
        (if a[0].id == id then RemoveById(a[1..], id) else [a[0]] + RemoveById(a[1..], id));
    }
  }

  /** In a collection with unique ids, deleting the id of entry `k` removes exactly
      that entry and keeps all others in their original order. */
  lemma {:induction false} RemoveByIdUnique(books: seq<Book>, k: nat)
    requires UniqueIds(books) && k < |books|
    ensures RemoveById(books, books[k].id) == books[..k] + books[k + 1..]
  {
    var id := books[k].id;
    var pre, post := books[..k], books[k + 1..];
    assert books == pre + ([books[k]] + post);
    assert !HasId(pre, id) by {
      forall i | 0 <= i < |pre| ensures pre[i].id != id { assert pre[i] == books[i]; }
    }
    assert !HasId(post, id) by {
      forall i | 0 <= i < |post| ensures post[i].id != id { assert post[i] == books[k + 1 + i]; }
    }
    RemoveByIdConcat(pre, [books[k]] + post, id);
    RemoveByIdConcat([books[k]], post, id);
    RemoveByIdAbsent(pre, id);
    RemoveByIdAbsent(post, id);
    assert RemoveById([books[k]], id) == [] by {
      assert [books[k]][1..] == [];
    }
  }

  /** Putting a book in front of a collection with unique ids, none of them its own,
      keeps ids unique. */
  lemma ConsUnique(x: Book, s: seq<Book>)
    requires UniqueIds(s) && forall b :: b in s ==> b.id != x.id
    ensures UniqueIds([x] + s)
  {
    // Follows from `UniqueIds` of `s` and the requires on `x`.
  }

  /** Deleting keeps the identifiers of the collection unique. */
  lemma {:induction false} RemoveKeepsUnique(books: seq<Book>, id: Id)
    requires UniqueIds(books)
    ensures UniqueIds(RemoveById(books, id))
  {
    if books != [] {
      var tail := books[1..];
      assert UniqueIds(tail) by {
        forall i, j | 0 <= i < j < |tail| ensures tail[i].id != tail[j].id {
          assert tail[i] == books[i + 1] && tail[j] == books[j + 1];
        }
      }
      RemoveKeepsUnique(tail, id);
      var rest := RemoveById(tail, id);
      RemoveByIdFilters(tail, id);
      if books[0].id != id {
        forall b | b in rest ensures b.id != books[0].id {
          var m :| 0 <= m < |tail| && tail[m] == b;
          assert tail[m] == books[m + 1];
        }
        ConsUnique(books[0], rest);
      }
    }
  }

  // ---- map: replacement by id ----

  /** Replacement leaves every entry's identifier where it was. */
  lemma ReplaceByIdKeepsIds(books: seq<Book>, saved: Book)
    ensures forall i :: 0 <= i < |books| ==> ReplaceById(books, saved)[i].id == books[i].id
    ensures UniqueIds(books) ==> UniqueIds(ReplaceById(books, saved))
  {
  }

  /** Replacing by an id that no book carries changes nothing. */
  lemma ReplaceByIdAbsent(books: seq<Book>, saved: Book)
    requires !HasId(books, saved.id)
    ensures ReplaceById(books, saved) == books
  {
  }

  /** After a replacement, looking the saved id up yields the saved book. */
  lemma {:induction false} ReplaceByIdFinds(books: seq<Book>, saved: Book)
    requires HasId(books, saved.id)
    ensures FindById(ReplaceById(books, saved), saved.id) == Some(saved)
  {
    var r := ReplaceById(books, saved);
    assert HasId(r, saved.id) by {
      var i :| 0 <= i < |books| && books[i].id == saved.id;
      assert r[i].id == saved.id;
    }
  }

  /** Saving the same book twice is the same as saving it once. */
  lemma ReplaceByIdIdempotent(books: seq<Book>, saved: Book)
    ensures ReplaceById(ReplaceById(books, saved), saved) == ReplaceById(books, saved)
  {
  }

  // ---- find ----

  /** In a collection with unique ids, looking up the id of entry `k` yields entry `k`. */
  lemma FindByIdUnique(books: seq<Book>, k: nat)
    requires UniqueIds(books) && k < |books|
    ensures FindById(books, books[k].id) == Some(books[k])
  {
    // A corollary of the contract of `FindById` and `UniqueIds`.
  }

  // ---- append: `[...books, created]` ----

  /** Appending a book whose id is new keeps ids unique, makes the book findable,
      and deleting that id again restores the collection exactly. */
  lemma AppendFresh(books: seq<Book>, created: Book)
    requires UniqueIds(books) && !HasId(books, created.id)
    ensures UniqueIds(books + [created])
    ensures FindById(books + [created], created.id) == Some(created)
    ensures RemoveById(books + [created], created.id) == books
  {
    var s := books + [created];
    assert s[|books|] == created;
    FindByIdUnique(s, |books|);
    RemoveByIdUnique(s, |books|);
    assert s[..|books|] == books;
  }

  /** Saving an edited version of the last, freshly created book replaces just that
      last entry. */
  lemma ReplaceAppended(books: seq<Book>, created: Book, edited: Book)
    requires !HasId(books, created.id) && edited.id == created.id
    ensures ReplaceById(books + [created], edited) == books + [edited]
  {
    // A corollary of the pointwise contract of `ReplaceById`.
  }
}
