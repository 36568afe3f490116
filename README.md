# In-memory author/book store behind a GraphQL playground server

This project models the only logic in `server.js`: two ordered in-memory
collections, `authors` and `books`, and the resolver bodies that read or
append to them. The Express server and the `graphql` schema objects only
route requests to these resolvers, and they are not modelled.

- `Records` holds the two record shapes, `Author(id, name)` and
  `Book(id, name, authorId)`. It also holds the store's numbering invariant
  `Dense`: the record at position `i` has id `i + 1`.
- `Resolvers` holds the read side as pure functions of the collections:
  - the root queries `book(id)`, `author(id)`, `books` and `authors`;
  - the relationship fields `book.author` and `author.books`.

  JavaScript's `find` is `FirstMatch`: it returns the position of the first
  record with an equal id, or `None`. `None` stands for `undefined`, which
  GraphQL sends as `null`. The `id` argument of `book` and `author` is a
  nullable `GraphQLInt`, so it is an `Option<int>`. An absent id matches no
  record. JavaScript's `filter` is `BooksOf`.
- `Server` holds the seed data and the class `Store`. `Store` owns the two
  collections, which the source keeps as module-level arrays. Its methods
  `AddBook` and `AddAuthor` append in place, as `push` does. A read
  resolver is called on the store's current collections, as in
  `BookById(store.books, id)`. Reads are functions, so they cannot change
  the store, and two reads with no mutation between them return the same
  result.

The model follows the code where a hardened design would do more:
- `addBook` does not check that `authorId` names an existing author.
- Neither mutation rejects an empty name.
- A book whose `authorId` names no author resolves `book.author` to
  nothing. No error is raised.

Two consequences are proved:
- An author added later takes over every earlier book that pointed one past
  the end of `authors` (`NewAuthorAdoptsDanglingBooks`).
- A new author has no books when every book's author resolves
  (`NewAuthorHasNoBooks`). Conversely, a single book whose `authorId` is one
  past the end of `authors` gives the new author a non-empty `books` list
  (`NewAuthorInheritsDanglingBook`).

`Server.DanglingReferenceScenario` is a client of the two mutations, with no
contract of its own. It is a verified usage scenario: starting from the
seed, it adds a book for author 4 and then adds author 4, and its
assertions check each step.

## Model

| member | source | states |
|---|---|---|
| `Records.DenseIdsAreUnique` | server.js:13-28 | under the numbering invariant no two records of a collection share an id |
| `Records.DenseAppend` | server.js:99-100 | appending the id "length + 1" keeps the numbering invariant, and any other id breaks it |
| `Resolvers.FirstMatch` | server.js:64 | `find` by id returns the position of the first equal id; if it returns nothing, no id equals the key; an absent key matches nothing |
| `Resolvers.FirstMatchDense` | server.js:64 | under the numbering invariant the first match of `k` is position `k - 1` when `1 <= k <= length`, and there is none otherwise |
| `Resolvers.BookById` | server.js:64 | `book(id)` returns a book of the collection whose id equals the argument, and it is the first such book; it returns nothing exactly when no book carries that id |
| `Resolvers.AuthorById` | server.js:81 | `author(id)` returns a member of `authors` carrying the id, and it is the first one; it returns nothing exactly when no author carries the id |
| `Resolvers.AllBooks` | server.js:69 | `books` returns the collection unchanged, in insertion order; under the invariant its ids read 1, 2, 3, ... |
| `Resolvers.AllAuthors` | server.js:74 | `authors` returns the collection unchanged, in insertion order; under the invariant its ids read 1, 2, 3, ... |
| `Resolvers.AuthorOf` | server.js:37-39 | `book.author` returns the first author whose id is the book's `authorId`; it returns nothing exactly when no author carries that id |
| `Resolvers.BooksOf` | server.js:51 | `author.books` returns only books of the collection that carry the author's id |
| `Resolvers.BooksOfMatches` | server.js:51 | `author.books` holds every book of the author as often as the collection does, and keeps them in collection order |
| `Resolvers.BooksOfIsUnique` | server.js:51 | any ordered selection of the collection that holds exactly the author's books, each as often as the collection does, is `author.books` |
| `Resolvers.BookByIdExact` | server.js:64 | under the numbering invariant `book(id)` is the book at position `id - 1` for `1 <= id <= length`, and nothing otherwise, including an absent id |
| `Resolvers.AuthorByIdExact` | server.js:81 | under the numbering invariant `author(id)` is the author at position `id - 1` for `1 <= id <= length`, and nothing otherwise |
| `Resolvers.AuthorOfExact` | server.js:38 | under the numbering invariant `book.author` resolves exactly when `authorId` is in `1 ..length`; an out-of-range reference resolves to nothing |
| `Resolvers.BooksOfAppend` | server.js:51 | after a book is appended, `author.books` gains that book at its end exactly when the book carries the author's id |
| `Resolvers.BooksOfSplit` | server.js:51 | filtering two consecutive stretches of books gives the two results one after the other |
| `Resolvers.BooksOfNoMatch` | server.js:51 | an author whose id no book carries has no books |
| `Resolvers.BooksOfAllMatch` | server.js:51 | when every book carries the author's id, `author.books` is the whole collection |
| `Resolvers.BooksOfPrefix` | server.js:51 | when the author's books are the first `k` records and no later one, `author.books` is that prefix |
| `Server.SeedIsDense` | server.js:13-28 | the seed data satisfies the numbering invariant, and every seeded book's author resolves |
| `Server.Store.constructor` | server.js:13-28 | the store starts with the seed collections and satisfies the invariant |
| `Server.Store.AddBook` | server.js:98-101 | `addBook` appends exactly `{id: length + 1, name, authorId}`, leaves earlier books and all authors unchanged, and returns the appended record; it keeps the invariant; afterwards `book(id)` finds the new book; its `author` field resolves only when `authorId` is in range, since nothing checks it |
| `Server.Store.AddAuthor` | server.js:110-113 | `addAuthor` appends exactly `{id: length + 1, name}`, leaves earlier authors and all books unchanged, and returns the appended record; it keeps the invariant; afterwards `author(id)` finds it |
| `Server.NewAuthorAdoptsDanglingBooks` | server.js:98-101 | because `addBook` takes any `authorId`, each book listed under a newly added author had no author before the append and resolves to the new author after it |
| `Server.NewAuthorInheritsDanglingBook` | server.js:98-101 | since `addBook` takes any `authorId`, one book pointing one past the end of `authors` gives a newly added author a non-empty `books` list |
| `Server.NewAuthorHasNoBooks` | server.js:110-113 | when every book's author resolves, a newly added author's `books` list is empty |
| `Server.SeedQueries` | server.js:13-28 | on the seed data `book(id: 1)` is "Harry Potter and the Chamber of Secrets" with author "J. K. Rowling"; `book` with no id and `author(id: 4)` return nothing |
| `Server.SeedBooksOfFirstAuthor` | server.js:19-28 | on the seed data `author(id: 1) { books }` lists the first three books, in order |

## Left out

- Express and HTTP wiring (`express()`, `app.use`, `app.listen`, GraphiQL) is left out. It is I/O in a foreign library.
- Schema construction with the `graphql` library is left out: `GraphQLObjectType`, `GraphQLSchema`, `GraphQLNonNull` checks, list coercion, execution of nested selections and error collection. These are calls into a library whose code is not part of this model. Only the resolver bodies are modelled.
- Numbers are unbounded integers. `GraphQLInt` accepts and returns only 32-bit signed values, so an id past 2147483647 would fail serialization. The model does not capture this limit.
- Aliasing is not modelled. The `books` and `authors` listings return the live arrays themselves, while the model returns the sequence values.
- Concurrency is not modelled. The source is single-threaded and has none.
- A hardened design of this store would reject a dangling `authorId` and empty names. It would also report a dangling reference as an error. The code does none of this, so the model does none of it.
