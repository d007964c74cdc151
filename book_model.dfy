/** A small Option type for values that may be absent (JavaScript's `undefined`). */
module Options {
  datatype Option<+T> = None | Some(value: T)
}

/**
  The Book entity of the catalog service and the request body it is built from.
  A book is a document with an immutable identifier, four optional fields that
  clients set, and whatever other paths the document store keeps beside them.
 */
module BookModel {
  import opened Options

  /** The store-assigned identifier of a document. */
  type Id = nat

  /** A scalar a request body can carry for a book field: text or a flag. */
  datatype Value = Str(s: string) | Bool(b: bool)

  /** The four fields a client may set. */
  datatype Field = Title | Author | Genre | Read

  /**
    A stored book. `rest` holds every other path of the stored document
    (for instance a version key); no handler writes it.
   */
  datatype Book = Book(
    id: Id,
    title: Option<Value>,
    author: Option<Value>,
    genre: Option<Value>,
    read: Option<Value>,
    rest: map<string, Value>)

  /** A parsed JSON request body: parameter name to value. */
  type Body = map<string, Value>

  /** The property name under which a field travels in bodies and queries. */
  function Key(f: Field): string {
    match f
    case Title => "title"
    case Author => "author"
    case Genre => "genre"
    case Read => "read"
  }

  /** The value a book holds for a field, or None when the path is unset. */
  function FieldOf(b: Book, f: Field): Option<Value> {
    match f
    case Title => b.title
    case Author => b.author
    case Genre => b.genre
    case Read => b.read
  }

  /** `body.<field>` in JavaScript: the body's value, or undefined (None). */
  function BodyField(body: Body, f: Field): Option<Value> {
    if Key(f) in body then Some(body[Key(f)]) else None
  }

  /**
    `new Book(body)`: a fresh document with identifier `id` whose four fields
    are taken from the body; other body keys are not part of the document.
   */
  function FromBody(id: Id, body: Body): (b: Book)
    ensures b.id == id && b.rest == map[]
    ensures forall f :: FieldOf(b, f) == BodyField(body, f)
  {
    Book(id, BodyField(body, Title), BodyField(body, Author),
         BodyField(body, Genre), BodyField(body, Read), map[])
  }

  /**
    The four assignments of the update handler: title, author, genre and read
    take the body's values, absent ones included, and nothing else changes.
    The result is a full replace: what create would build from the same body,
    keeping the old identifier and other paths.
   */
  function Overwrite(b: Book, body: Body): (r: Book)
    ensures r.id == b.id && r.rest == b.rest
    ensures forall f :: FieldOf(r, f) == BodyField(body, f)
    ensures r == FromBody(b.id, body).(rest := b.rest)
  {
    b.(title := BodyField(body, Title), author := BodyField(body, Author),
       genre := BodyField(body, Genre), read := BodyField(body, Read))
  }

  /** Applying the same update twice leaves the book as applying it once. */
  lemma OverwriteIdempotent(b: Book, body: Body)
    ensures Overwrite(Overwrite(b, body), body) == Overwrite(b, body)
  {
  }

  /** Two books that agree on identifier and other paths are overwritten alike. */
  lemma OverwriteForgetsOldFields(b: Book, c: Book, body: Body)
    requires b.id == c.id && b.rest == c.rest
    ensures Overwrite(b, body) == Overwrite(c, body)
  {
  }

  /**
    A book document as the update handler holds it after fetching it: an object
    whose fields the handler assigns one by one.
   */
  class BookDocument {
    const id: Id
    var title: Option<Value>
    var author: Option<Value>
    var genre: Option<Value>
    var read: Option<Value>
    var rest: map<string, Value>

    /** The document's current contents as a value. */
    function Snapshot(): Book
      reads this
    {
      Book(id, title, author, genre, read, rest)
    }

    /** Hydrates a document object from a stored book. */
    constructor (b: Book)
      ensures Snapshot() == b
    {
      id := b.id;
      title := b.title;
      author := b.author;
      genre := b.genre;
      read := b.read;
      rest := b.rest;
    }

    /** Assigns the four client fields from the body, in place. */
    method AssignFields(body: Body)
      modifies this
      ensures Snapshot() == Overwrite(old(Snapshot()), body)
      ensures rest == old(rest)
    {
      title := BodyField(body, Title);
      author := BodyField(body, Author);
      genre := BodyField(body, Genre);
      read := BodyField(body, Read);
    }
  }
}
