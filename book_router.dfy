/**
  The book router's four handlers over the abstract store: create, list,
  get by identifier and update. Each produces the reply the client receives,
  a status and a JSON body; store errors are passed back as the body, under
  the transport's default status.
 */
module BookRouter {
  import opened Options
  import opened BookModel
  import opened QueryFilter
  import opened BookStore

  /** The status a response carries when the handler sets none. */
  const DefaultStatus: nat := 200
  /** The status the create handler sets. */
  const CreatedStatus: nat := 201

  /** A JSON response body: one book, JSON null, a list of books, or a store error. */
  datatype Payload =
    | OneBook(book: Book)
    | NullBook
    | BookList(books: seq<Book>)
    | ErrorBody(error: StoreError)

  datatype Response = Response(status: nat, body: Payload)

  /**
    What a handler does with a request: send a response, or throw before
    sending one (the request is then left without an answer).
   */
  datatype Reply = Sent(response: Response) | Crashed

  /**
    POST /books: builds a book from the body under the identifier the store's
    id source hands out, and answers 201 with that book. The save is started
    but not awaited, so the answer does not depend on whether it lands.
   */
  function CreateBook(body: Body, newId: Id): (r: Response)
    ensures r.status == CreatedStatus && r.body.OneBook?
    ensures r.body.book.id == newId && r.body.book.rest == map[]
    ensures forall f :: FieldOf(r.body.book, f) == BodyField(body, f)
  {
    Response(CreatedStatus, OneBook(FromBody(newId, body)))
  }

  /**
    GET /books: builds the filter from the query and asks the store. A store
    error becomes the body verbatim and no book is returned; otherwise the body
    lists exactly the stored books that satisfy the filter.
   */
  function ListBooks(s: Store, q: Query): (r: Response)
    ensures r.status == DefaultStatus
    ensures s.fault.Some? <==> r.body.ErrorBody?
    ensures s.fault.Some? ==> r.body == ErrorBody(s.fault.value)
    ensures s.fault.None? ==> r.body.BookList?
    ensures r.body.BookList? ==>
      forall b :: b in r.body.books <==> b in s.docs.Values && Matches(b, SelectFilter(q))
  {
    match FindMany(s, SelectFilter(q))
    case Err(e) => Response(DefaultStatus, ErrorBody(e))
    case Ok(books) => Response(DefaultStatus, BookList(books))
  }

  /**
    GET /books/:bookId: a store error becomes the body verbatim; otherwise the
    body is the book filed under the identifier, or JSON null when there is
    none (not told apart from success by its status).
   */
  function GetBook(s: Store, bookId: Id): (r: Response)
    ensures r.status == DefaultStatus
    ensures s.fault.Some? ==> r.body == ErrorBody(s.fault.value)
    ensures s.fault.None? && bookId in s.docs ==> r.body == OneBook(s.docs[bookId])
    ensures s.fault.None? && bookId !in s.docs ==> r.body == NullBook
  {
    match FindById(s, bookId)
    case Err(e) => Response(DefaultStatus, ErrorBody(e))
    case Ok(None) => Response(DefaultStatus, NullBook)
    case Ok(Some(b)) => Response(DefaultStatus, OneBook(b))
  }

  /**
    PUT /books/:bookId: fetches the book, assigns its four client fields from
    the body in place and answers with the changed document. A store error
    becomes the body verbatim. When no book is filed under the identifier the
    handler dereferences null and throws, so nothing is sent.
   */
  method PutBook(s: Store, bookId: Id, body: Body) returns (reply: Reply)
    ensures s.fault.Some? ==> reply == Sent(Response(DefaultStatus, ErrorBody(s.fault.value)))
    ensures s.fault.None? && bookId !in s.docs ==> reply == Crashed
    ensures s.fault.None? && bookId in s.docs ==>
      reply == Sent(Response(DefaultStatus, OneBook(Overwrite(s.docs[bookId], body))))
  {
    var found := FindById(s, bookId);
    match found
    case Err(e) =>
      reply := Sent(Response(DefaultStatus, ErrorBody(e)));
    case Ok(None) =>
      reply := Crashed;
    case Ok(Some(b)) =>
      var doc := new BookDocument(b);
      doc.AssignFields(body);
      reply := Sent(Response(DefaultStatus, OneBook(doc.Snapshot())));
  }

  /**
    Once the save started by create has landed, fetching the new identifier
    returns the book create answered with, and the collection has grown by one.
   */
  lemma CreatedBookIsRetrievable(s: Store, body: Body, newId: Id)
    requires s.fault.None? && newId !in s.docs
    ensures var created := CreateBook(body, newId).body.book;
      && GetBook(Save(s, created), newId) == Response(DefaultStatus, OneBook(created))
      && |Save(s, created).docs| == |s.docs| + 1
      && forall id :: id in s.docs ==> GetBook(Save(s, created), id) == GetBook(s, id)
  {
    SaveFreshAddsOne(s, CreateBook(body, newId).body.book);
  }

  /**
    Once the save started by update has landed, fetching the identifier returns
    the updated book, other books are unaffected, and repeating the same update
    leaves the store as it was after the first.
   */
  lemma UpdatedBookIsRetrievable(s: Store, bookId: Id, body: Body)
    requires Valid(s) && s.fault.None? && bookId in s.docs
    ensures var updated := Overwrite(s.docs[bookId], body);
      var t := Save(s, updated);
      && updated.id == bookId
      && GetBook(t, bookId) == Response(DefaultStatus, OneBook(updated))
      && (forall id :: id in s.docs && id != bookId ==> GetBook(t, id) == GetBook(s, id))
      && t.docs.Keys == s.docs.Keys
      && Save(t, Overwrite(t.docs[bookId], body)) == t
  {
    var updated := Overwrite(s.docs[bookId], body);
    var t := Save(s, updated);
    OverwriteIdempotent(s.docs[bookId], body);
    assert t.docs[bookId := updated] == t.docs;
  }

  /**
    A query that names only an identifier lists every stored book: the
    identifier is not used as a filter.
   */
  lemma IdQueryListsEverything(s: Store, q: Query)
    requires s.fault.None? && q.Keys <= {"id", "_id"}
    ensures ListBooks(s, q).body.BookList?
    ensures forall b :: b in ListBooks(s, q).body.books <==> b in s.docs.Values
  {
    IdOnlyMatchesAll(q);
  }

  /** Listing with only a non-empty read parameter lists the books whose read flag is that text. */
  lemma ListByRead(s: Store, v: string)
    requires s.fault.None? && v != ""
    ensures ListBooks(s, map["read" := v]).body.BookList?
    ensures forall b :: b in ListBooks(s, map["read" := v]).body.books <==>
      b in s.docs.Values && b.read == Some(Str(v))
  {
    var q: Query := map["read" := v];
    ReadChosenIff(q);
    var f := SelectFilter(q);
    assert f == FieldEquals(Read, v);
    var books := ListBooks(s, q).body.books;
    forall b ensures b in books <==> b in s.docs.Values && b.read == Some(Str(v)) {
      assert Matches(b, f) <==> b.read == Some(Str(v));
    }
  }

  /**
    When every stored book's read flag is the text "true" or "false", listing
    with read=true and with read=false gives two disjoint lists that together
    hold every stored book.
   */
  lemma ReadListsPartition(s: Store)
    requires s.fault.None?
    requires forall b :: b in s.docs.Values ==> b.read == Some(Str("true")) || b.read == Some(Str("false"))
    ensures var yes := ListBooks(s, map["read" := "true"]).body.books;
      var no := ListBooks(s, map["read" := "false"]).body.books;
      && (forall b :: !(b in yes && b in no))
      && (forall b :: b in s.docs.Values <==> b in yes || b in no)
  {
    ListByRead(s, "true");
    ListByRead(s, "false");
  }
}
