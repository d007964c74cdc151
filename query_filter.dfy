/**
  The list handler's filter builder: from the request's query parameters it
  picks at most one equality filter, trying genre, author, title and read in
  that order and keeping the first whose value is truthy.
 */
module QueryFilter {
  import opened BookModel

  /** Query parameters as parsed from the URL: name to text value. */
  type Query = map<string, string>

  /** JavaScript truthiness of `query[key]`: present and not the empty string. */
  predicate Truthy(q: Query, key: string) {
    key in q && q[key] != ""
  }

  /** The store filter: match every book, or one field equal to a text value. */
  datatype Filter = MatchAll | FieldEquals(field: Field, value: string)

  /** The order in which the parameters are tried. */
  const Precedence: seq<Field> := [Genre, Author, Title, Read]

  /** No field occurs twice in `fields`. */
  predicate Distinct(fields: seq<Field>) {
    forall j, k :: 0 <= j < k < |fields| ==> fields[j] != fields[k]
  }

  /**
    Reference definition of the precedence rule: the first field of `fields`
    whose parameter is truthy, with that parameter's value, else match-all.
   */
  function FirstTruthy(q: Query, fields: seq<Field>): (r: Filter)
    ensures r.FieldEquals? ==>
      r.field in fields && Truthy(q, Key(r.field)) && r.value == q[Key(r.field)]
    ensures r == MatchAll <==> forall i :: 0 <= i < |fields| ==> !Truthy(q, Key(fields[i]))
  {
    if fields == [] then MatchAll
    else if Truthy(q, Key(fields[0])) then FieldEquals(fields[0], q[Key(fields[0])])
    else FirstTruthy(q, fields[1..])
  }

  /** The filter the list handler uses for query `q`. */
  function SelectFilter(q: Query): Filter {
    FirstTruthy(q, Precedence)
  }

  /** The filter as the JavaScript object handed to the store. */
  function ObjectOf(f: Filter): (o: map<string, string>)
    ensures |o| <= 1
    ensures f == MatchAll <==> o == map[]
  {
    match f
    case MatchAll => map[]
    case FieldEquals(field, value) => map[Key(field) := value]
  }

  /**
    Builds the filter object step by step: start from the empty object and set
    at most one key in an if/else chain. The object it builds is exactly the
    precedence rule's filter, so it never has more than one key.
   */
  method BuildQuery(q: Query) returns (query: map<string, string>)
    ensures query == ObjectOf(SelectFilter(q))
    ensures |query| <= 1
  {
    query := map[];
    if Truthy(q, "genre") {
      GenreWins(q);
      query := query["genre" := q["genre"]];
    } else if Truthy(q, "author") {
      AuthorChosenIff(q);
      query := query["author" := q["author"]];
    } else if Truthy(q, "title") {
      TitleChosenIff(q);
      query := query["title" := q["title"]];
    } else if Truthy(q, "read") {
      ReadChosenIff(q);
      query := query["read" := q["read"]];
    } else {
      MatchAllIff(q);
      query := map[];
    }
  }

  /**
    The precedence rule in general: the filter is on `fields[i]` exactly when
    that parameter is truthy and every earlier one is not.
   */
  lemma {:induction false} FirstTruthyPicks(q: Query, fields: seq<Field>, i: nat)
    requires i < |fields| && Distinct(fields)
    ensures FirstTruthy(q, fields).FieldEquals? && FirstTruthy(q, fields).field == fields[i]
        <==> Truthy(q, Key(fields[i])) && forall j :: 0 <= j < i ==> !Truthy(q, Key(fields[j]))
  {
    if i > 0 {
      var tail := fields[1..];
      assert Distinct(tail) by {
        forall j, k | 0 <= j < k < |tail| ensures tail[j] != tail[k] {
          assert tail[j] == fields[j + 1] && tail[k] == fields[k + 1];
        }
      }
      FirstTruthyPicks(q, tail, i - 1);
      assert tail[i - 1] == fields[i];
      if Truthy(q, Key(fields[0])) {
        assert fields[0] != fields[i];
      } else {
        forall j | 0 < j < i ensures tail[j - 1] == fields[j] { }
      }
    }
  }

  lemma PrecedenceDistinct()
    ensures Distinct(Precedence)
  {
  }

  lemma PrecedenceKeys()
    ensures Key(Precedence[0]) == "genre" && Key(Precedence[1]) == "author"
    ensures Key(Precedence[2]) == "title" && Key(Precedence[3]) == "read"
  {
  }

  /** A truthy genre decides the filter, whatever else the query holds. */
  lemma GenreWins(q: Query)
    requires Truthy(q, "genre")
    ensures SelectFilter(q) == FieldEquals(Genre, q["genre"])
  {
  }

  /** The author filter is chosen exactly when genre is falsy and author is truthy. */
  lemma AuthorChosenIff(q: Query)
    ensures SelectFilter(q).FieldEquals? && SelectFilter(q).field == Author
        <==> !Truthy(q, "genre") && Truthy(q, "author")
    ensures SelectFilter(q) == FieldEquals(Author, q["author"])
        <== !Truthy(q, "genre") && Truthy(q, "author")
  {
    PrecedenceDistinct();
    PrecedenceKeys();
    FirstTruthyPicks(q, Precedence, 1);
  }

  /** The title filter is chosen exactly when genre and author are falsy and title is truthy. */
  lemma TitleChosenIff(q: Query)
    ensures SelectFilter(q).FieldEquals? && SelectFilter(q).field == Title
        <==> !Truthy(q, "genre") && !Truthy(q, "author") && Truthy(q, "title")
    ensures SelectFilter(q) == FieldEquals(Title, q["title"])
        <== !Truthy(q, "genre") && !Truthy(q, "author") && Truthy(q, "title")
  {
    PrecedenceDistinct();
    PrecedenceKeys();
    FirstTruthyPicks(q, Precedence, 2);
  }

  /**
    The read filter is chosen exactly when the three earlier parameters are
    falsy and read is truthy; its value is the query text itself, so "false"
    stays the string "false" rather than becoming a boolean.
   */
  lemma ReadChosenIff(q: Query)
    ensures SelectFilter(q).FieldEquals? && SelectFilter(q).field == Read
        <==> !Truthy(q, "genre") && !Truthy(q, "author") && !Truthy(q, "title") && Truthy(q, "read")
    ensures SelectFilter(q) == FieldEquals(Read, q["read"])
        <== !Truthy(q, "genre") && !Truthy(q, "author") && !Truthy(q, "title") && Truthy(q, "read")
  {
    PrecedenceDistinct();
    PrecedenceKeys();
    FirstTruthyPicks(q, Precedence, 3);
  }

  /** Match-all exactly when none of the four parameters is truthy. */
  lemma MatchAllIff(q: Query)
    ensures SelectFilter(q) == MatchAll
        <==> !Truthy(q, "genre") && !Truthy(q, "author") && !Truthy(q, "title") && !Truthy(q, "read")
  {
    PrecedenceKeys();
  }

  /** Setting a parameter that is not one of the fields' keys never changes the filter. */
  lemma {:induction false} OtherKeyIgnored(q: Query, fields: seq<Field>, key: string, v: string)
    requires forall i :: 0 <= i < |fields| ==> Key(fields[i]) != key
    ensures FirstTruthy(q[key := v], fields) == FirstTruthy(q, fields)
  {
    if fields != [] {
      assert Truthy(q[key := v], Key(fields[0])) == Truthy(q, Key(fields[0]));
      OtherKeyIgnored(q, fields[1..], key, v);
    }
  }

  /** An `id` or `_id` parameter (or any other unrecognised one) does not affect the filter. */
  lemma UnrecognisedParameterIgnored(q: Query, key: string, v: string)
    requires key !in {"genre", "author", "title", "read"}
    ensures SelectFilter(q[key := v]) == SelectFilter(q)
  {
    OtherKeyIgnored(q, Precedence, key, v);
  }

  /** A query carrying nothing but an identifier selects every book. */
  lemma IdOnlyMatchesAll(q: Query)
    requires q.Keys <= {"id", "_id"}
    ensures SelectFilter(q) == MatchAll
  {
    MatchAllIff(q);
  }
}
