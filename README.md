# Book catalog router — a Dafny model

This project models the decision logic of a small book-catalog REST service:
the router that creates, lists, filters, fetches and updates book documents
held by a document database. The database is an abstract collaborator here.

- `book_model.dfy` — modules `Options` and `BookModel`. A `Book` has an
  identifier, four optional client fields (`title`, `author`, `genre`,
  `read`) and the other paths of the stored document (`rest`). `FromBody` is
  `new Book(req.body)`. `Overwrite` is the four field assignments of the update
  handler. `BookDocument` is the fetched document object those assignments
  change in place, with `id` a constant because nothing may change it.
- `query_filter.dfy` — module `QueryFilter`. This is the list handler's filter
  builder. `BuildQuery` builds the filter object step by step in the source's
  if/else chain. `FirstTruthy` is an independent reference definition: the
  first truthy parameter in the order genre, author, title, read. The lemmas
  state the precedence rule parameter by parameter, in both directions.
- `book_store.dfy` — module `BookStore`. The abstract store is a map from
  identifier to book, plus the error it reports while it is failing.
  `FindMany` answers with every matching book, each once, in ascending
  identifier order. `FindById` answers with the book or with none. `Save`
  gives the effect of a save that has completed.
- `book_router.dfy` — module `BookRouter`. The four handlers produce a
  `Response` (a status and a JSON body). `PutBook` produces a `Reply`, which
  is also `Crashed` when the handler throws before it responds.

Truthiness follows JavaScript: a query parameter counts when it is present and
is not the empty string. The filter value is the query text itself. So
`read=false` filters on the string `"false"`, not on a boolean.

Where the service's design description and the code differ, the model follows
the code:

- A PUT for an identifier with no book is not answered with an error.
  The callback assigns to the null result (line 55) and throws, so
  `PutBook` yields `Crashed`.
- No `id` or `_id` query parameter is ever used as a filter.
- Create does not wait for the save. It answers 201 with the unsaved book
  whatever the save's outcome, so no durability is claimed.

## Model

| member | source | states |
|---|---|---|
| QueryFilter.BuildQuery | routes/bookRouter.js:15-28 | the object built by the if/else chain is exactly the precedence rule's filter, so it has at most one key |
| QueryFilter.FirstTruthy | routes/bookRouter.js:18-27 | a chosen filter is on a listed field whose parameter is truthy, with that parameter's value verbatim; match-all exactly when no listed parameter is truthy |
| QueryFilter.ObjectOf | routes/bookRouter.js:15-27 | the object handed to the store has at most one key, and is empty exactly for match-all |
| QueryFilter.FirstTruthyPicks | routes/bookRouter.js:18-27 | the filter is on the i-th field exactly when that parameter is truthy and every earlier one is falsy |
| QueryFilter.GenreWins | routes/bookRouter.js:18-19 | a truthy genre gives the filter genre = its value, whatever else the query holds |
| QueryFilter.AuthorChosenIff | routes/bookRouter.js:20-21 | author is the filter exactly when genre is falsy and author is truthy, with the author text as value |
| QueryFilter.TitleChosenIff | routes/bookRouter.js:22-23 | title is the filter exactly when genre and author are falsy and title is truthy, with the title text as value |
| QueryFilter.ReadChosenIff | routes/bookRouter.js:24-25 | read is the filter exactly when the three earlier parameters are falsy and read is truthy; its value is the query text, not a boolean |
| QueryFilter.MatchAllIff | routes/bookRouter.js:26-27 | the filter is match-all exactly when none of genre, author, title, read is truthy |
| QueryFilter.OtherKeyIgnored | routes/bookRouter.js:18-27 | setting a parameter that is none of the tried keys leaves the filter unchanged |
| QueryFilter.UnrecognisedParameterIgnored | routes/bookRouter.js:18-28 | an `id`, `_id` or any other unrecognised parameter never changes the filter |
| QueryFilter.IdOnlyMatchesAll | routes/bookRouter.js:18-28 | a query that carries only `id`/`_id` gives the match-all filter |
| BookModel.FromBody | routes/bookRouter.js:8 | the new book has the given identifier, no other paths, and each client field equal to the body's value (absent when the body lacks it) |
| BookModel.Overwrite | routes/bookRouter.js:55-58 | the update keeps identifier and other paths, sets each of the four fields to the body's value even when absent, and equals what create would build from the same body with the old identifier and paths |
| BookModel.OverwriteIdempotent | routes/bookRouter.js:55-58 | applying the same update twice gives the same book as applying it once |
| BookModel.OverwriteForgetsOldFields | routes/bookRouter.js:55-58 | the updated book does not depend on the old values of the four fields |
| BookModel.BookDocument.constructor | routes/bookRouter.js:51 | the fetched document object holds exactly the stored book |
| BookModel.BookDocument.AssignFields | routes/bookRouter.js:55-58 | assigning in place turns the document into `Overwrite` of its old contents, and leaves the other paths and the identifier unchanged |
| BookStore.FindMany | routes/bookRouter.js:30 | a failing store answers with its error; otherwise with exactly the stored books that satisfy the filter, each once, in ascending identifier order |
| BookStore.FindById | routes/bookRouter.js:43 | a failing store answers with its error; otherwise with the book filed under the identifier, or none exactly when there is no such book |
| BookStore.Save | routes/bookRouter.js:59 | a completed save files the book under its identifier, changes no other document, and keeps every book filed under its own identifier |
| BookStore.SaveFreshAddsOne | routes/bookRouter.js:10 | saving a book under a fresh identifier grows the collection by exactly one |
| BookStore.MatchAllListsEverything | routes/bookRouter.js:27-30 | the empty filter lists every stored book |
| BookRouter.CreateBook | routes/bookRouter.js:7-12 | the answer has status 201 and the book built from the body under the new identifier |
| BookRouter.ListBooks | routes/bookRouter.js:13-35 | status 200; a store error is the body verbatim and no list is returned; otherwise the body lists exactly the stored books that satisfy the query's filter |
| BookRouter.GetBook | routes/bookRouter.js:43-48 | status 200; a store error is the body verbatim; otherwise the stored book, or JSON null when there is none |
| BookRouter.PutBook | routes/bookRouter.js:50-61 | a store error is sent as the body; a missing book makes the handler throw without responding; otherwise the answer is the stored book with its four fields overwritten from the body |
| BookRouter.CreatedBookIsRetrievable | routes/bookRouter.js:8-11 | once create's save lands, getting the new identifier returns the book create answered with, the collection grew by one, and earlier books read as before |
| BookRouter.UpdatedBookIsRetrievable | routes/bookRouter.js:55-60 | once update's save lands, getting the identifier returns the updated book, other books read as before, no document is added, and repeating the update changes nothing |
| BookRouter.IdQueryListsEverything | routes/bookRouter.js:18-35 | a list query with only `id`/`_id` lists every stored book |
| BookRouter.ListByRead | routes/bookRouter.js:24-34 | a list query with only a non-empty `read` lists the books whose read flag is exactly that text |
| BookRouter.ReadListsPartition | routes/bookRouter.js:24-34 | when every read flag is "true" or "false", the read=true and read=false lists are disjoint and together hold every stored book |

## Left out

- `app.js` (process bootstrap, listening port, two constant greetings) and `me_calculator.js` (floating-point arithmetic and JavaScript coercion) are not part of this model.
- Express routing, `res.status`/`res.json`/`res.send` serialisation, callback asynchrony and `console.log` (line 9) are not modelled. A handler is a function, or a method, from its inputs to the reply it sends.
- The Mongoose `Book` model and its schema are not part of this model. The model assumes the document keeps only the four client fields from a body. It does not model schema casting, so a filter matches only a stored value that is exactly the query text (a stored boolean `true` does not match `read=true`).
- Query values are plain strings. A parameter repeated into an array, or a nested query object, is not modelled.
- Identifiers are natural numbers handed to `CreateBook` by the store's id source. Generating them, and a malformed path identifier that the store rejects with a cast error, are not modelled.
- Store failures are one error per store state that every call reports. Failures that depend on the particular call are not modelled.
- Ordering of `FindMany`: the real store's order is its own business. The model fixes ascending identifier order.
- The result of `save()` (lines 10 and 59) is never awaited or checked. The handlers do not change the store. `Save` and the two `...IsRetrievable` lemmas describe only a save that has completed.
- The value `routes` returns is not modelled. Its `return bookRouter;` (line 63) sits inside the PUT callback, so `routes` itself returns `undefined`.
