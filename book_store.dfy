/**
  The document store the router talks to, as an abstract collaborator: a
  collection of books keyed by identifier that either answers queries or is
  failing with an error it reports to every caller.
 */
module BookStore {
  import opened Options
  import opened BookModel
  import opened QueryFilter

  /** An error reported by the store; its shape is the store's business. */
  datatype StoreError = StoreError(reason: string)

  /** A store reply: a result, or the store's error. */
  datatype Result<T> = Ok(value: T) | Err(error: StoreError)

  /** The collection (by identifier) and, when the store is failing, its error. */
  datatype Store = Store(docs: map<Id, Book>, fault: Option<StoreError>)

  /** Every document is filed under its own identifier. */
  predicate Valid(s: Store) {
    forall id :: id in s.docs ==> s.docs[id].id == id
  }

  /** A book satisfies a filter: match-all, or its field holds exactly the text value. */
  predicate Matches(b: Book, f: Filter) {
    match f
    case MatchAll => true
    case FieldEquals(field, value) => FieldOf(b, field) == Some(Str(value))
  }

  /** `m` is the least identifier of `ids`. */
  predicate IsLeast(m: Id, ids: set<Id>) {
    m in ids && forall x :: x in ids ==> m <= x
  }

  /** A non-empty set of identifiers has a least element. */
  lemma {:induction false} LeastExists(ids: set<Id>)
    requires ids != {}
    ensures exists m :: IsLeast(m, ids)
    decreases |ids|
  {
    var y :| y in ids;
    var others := ids - {y};
    if others == {} {
      assert IsLeast(y, ids) by {
        forall x | x in ids ensures y <= x {
          assert x !in others;
        }
      }
    } else {
      LeastExists(others);
      var m :| IsLeast(m, others);
      var least := if y < m then y else m;
      assert IsLeast(least, ids) by {
        forall x | x in ids ensures least <= x {
          if x != y {
            assert x in others;
          }
        }
      }
    }
  }

  /** The least identifier of a non-empty set. */
  function Least(ids: set<Id>): (m: Id)
    requires ids != {}
    ensures m in ids && forall x :: x in ids ==> m <= x
  {
    LeastExists(ids);
    var m :| IsLeast(m, ids); m
  }

  /** The identifiers of a set in ascending order, each once. */
  function Ascending(ids: set<Id>): (r: seq<Id>)
    ensures forall id :: id in r <==> id in ids
    ensures forall j, k :: 0 <= j < k < |r| ==> r[j] < r[k]
    decreases |ids|
  {
    if ids == {} then []
    else
      var m := Least(ids);
      var tail := Ascending(ids - {m});
      assert forall k :: 0 <= k < |tail| ==> m < tail[k] by {
        forall k | 0 <= k < |tail| ensures m < tail[k] {
          assert tail[k] in tail;
        }
      }
      [m] + tail
  }

  /** No identifier repeats and each is larger than the one before. */
  predicate StrictlyAscending(ids: seq<Id>) {
    forall j, k :: 0 <= j < k < |ids| ==> ids[j] < ids[k]
  }

  /** The books filed under `ids`, in that order, that satisfy `f`. */
  function Collect(docs: map<Id, Book>, ids: seq<Id>, f: Filter): (r: seq<Book>)
    requires forall k :: 0 <= k < |ids| ==> ids[k] in docs
    ensures forall b :: b in r ==> Matches(b, f) && b in docs.Values
    ensures forall k :: 0 <= k < |ids| && Matches(docs[ids[k]], f) ==> docs[ids[k]] in r
  {
    if ids == [] then []
    else
      var tail := Collect(docs, ids[1..], f);
      assert forall k :: 1 <= k < |ids| ==> ids[k] == ids[1..][k - 1];
      if Matches(docs[ids[0]], f) then [docs[ids[0]]] + tail else tail
  }

  /** Collecting over identifiers that cover the whole collection misses no matching book. */
  lemma CollectCovers(docs: map<Id, Book>, ids: seq<Id>, f: Filter)
    requires forall k :: 0 <= k < |ids| ==> ids[k] in docs
    requires forall id :: id in docs ==> id in ids
    ensures forall b :: b in docs.Values && Matches(b, f) ==> b in Collect(docs, ids, f)
  {
    forall b | b in docs.Values && Matches(b, f) ensures b in Collect(docs, ids, f) {
      var id :| id in docs && docs[id] == b;
      var k :| 0 <= k < |ids| && ids[k] == id;
    }
  }

  /** Every collected book is filed under one of the identifiers it was collected from. */
  lemma {:induction false} CollectFromIds(docs: map<Id, Book>, ids: seq<Id>, f: Filter)
    requires forall k :: 0 <= k < |ids| ==> ids[k] in docs && docs[ids[k]].id == ids[k]
    ensures forall b :: b in Collect(docs, ids, f) ==> b.id in ids
  {
    if ids != [] {
      CollectFromIds(docs, ids[1..], f);
    }
  }

  /**
    When every book is filed under its own identifier and the identifiers are
    ascending, the collected books come out in ascending identifier order.
   */
  lemma {:induction false} CollectAscending(docs: map<Id, Book>, ids: seq<Id>, f: Filter)
    requires forall k :: 0 <= k < |ids| ==> ids[k] in docs && docs[ids[k]].id == ids[k]
    requires StrictlyAscending(ids)
    ensures forall j, k :: 0 <= j < k < |Collect(docs, ids, f)| ==>
      Collect(docs, ids, f)[j].id < Collect(docs, ids, f)[k].id
  {
    if ids != [] {
      var rest := ids[1..];
      CollectAscending(docs, rest, f);
      CollectFromIds(docs, rest, f);
      var tail := Collect(docs, rest, f);
      var r := Collect(docs, ids, f);
      if Matches(docs[ids[0]], f) {
        assert r == [docs[ids[0]]] + tail;
        forall k | 0 < k < |r| ensures docs[ids[0]].id < r[k].id {
          assert r[k] == tail[k - 1] && tail[k - 1] in tail;
          var i :| 0 <= i < |rest| && rest[i] == r[k].id;
          assert ids[i + 1] == r[k].id;
        }
      }
    }
  }

  /**
    `findMany(filter)`: the store's error when failing; otherwise every book
    that satisfies the filter, each once, in ascending identifier order.
   */
  function FindMany(s: Store, f: Filter): (r: Result<seq<Book>>)
    ensures r.Err? <==> s.fault.Some?
    ensures r.Err? ==> r.error == s.fault.value
    ensures r.Ok? ==> forall b :: b in r.value <==> b in s.docs.Values && Matches(b, f)
    ensures r.Ok? && Valid(s) ==>
      forall j, k :: 0 <= j < k < |r.value| ==> r.value[j].id < r.value[k].id
  {
    match s.fault
    case Some(e) => Err(e)
    case None =>
      var ids := Ascending(s.docs.Keys);
      CollectCovers(s.docs, ids, f);
      if Valid(s) then CollectAscending(s.docs, ids, f); Ok(Collect(s.docs, ids, f))
      else Ok(Collect(s.docs, ids, f))
  }

  /**
    `findById(id)`: the store's error when failing; otherwise the book filed
    under `id`, or None when there is none.
   */
  function FindById(s: Store, id: Id): (r: Result<Option<Book>>)
    ensures r.Err? <==> s.fault.Some?
    ensures r.Err? ==> r.error == s.fault.value
    ensures r.Ok? ==> (r.value.Some? <==> id in s.docs)
    ensures r.Ok? && r.value.Some? ==> r.value.value == s.docs[id]
  {
    match s.fault
    case Some(e) => Err(e)
    case None => Ok(if id in s.docs then Some(s.docs[id]) else None)
  }

  /**
    The effect of a completed `save()`: the book is filed under its identifier,
    replacing any earlier version; every other document stays as it was.
   */
  function Save(s: Store, b: Book): (t: Store)
    ensures t.fault == s.fault
    ensures t.docs.Keys == s.docs.Keys + {b.id} && t.docs[b.id] == b
    ensures forall id :: id in s.docs && id != b.id ==> t.docs[id] == s.docs[id]
    ensures Valid(s) ==> Valid(t)
  {
    s.(docs := s.docs[b.id := b])
  }

  /** Saving a book under a fresh identifier adds exactly one document. */
  lemma SaveFreshAddsOne(s: Store, b: Book)
    requires b.id !in s.docs
    ensures |Save(s, b).docs| == |s.docs| + 1
  {
    assert Save(s, b).docs.Keys == s.docs.Keys + {b.id};
  }

  /** Match-all lists every stored book. */
  lemma MatchAllListsEverything(s: Store)
    requires s.fault.None?
    ensures forall b :: b in FindMany(s, MatchAll).value <==> b in s.docs.Values
  {
  }
}
