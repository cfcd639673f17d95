# Book store behind a GraphQL API, modelled in Dafny

The server exposes two in-memory record collections, `authors` and `books`,
through GraphQL. It has four query fields (`book(id)`, `books`, `author(id)`,
`authors`) and one mutation (`addBook(name, authorId)`). Two relational
fields join the collections: `Book.author` and `Author.books`. This project
models the record store and the resolver logic that reads and appends to it.

- `collections.dfy` (module `Collections`) models the two JavaScript array
  operations the resolvers use. `Find` is `Array.prototype.find`: the first
  element that matches, or nothing. `Filter` is `Array.prototype.filter`: the
  matching elements, in order. The lemmas prove first-match and
  order-preservation, and how filtering splits over a concatenation. They
  also prove that an existing first match survives an append, and that with
  no prior match the pushed element is found exactly when it matches.
- `records.dfy` (module `Records`) holds the `Author` and `Book` records and
  the seed data (3 authors, 6 books). It also defines the matchers the
  resolvers pass to `find`/`filter`, and two invariants: book ids equal
  their 1-based positions, and author ids are distinct.
- `store.dfy` (module `BookStore`) holds the class `Store`. In the server,
  the two arrays are module-level and shared by every resolver. Here one
  `Store` object owns them as `seq` fields, and the resolvers are functions
  that read those fields. `AddBook` is a method that modifies only
  `books`. The lemmas state what the queries return on the seed data and
  what the example mutation returns.

An omitted `id` argument of `book(id)` or `author(id)` is modelled as
`None`. JavaScript compares it as `undefined`, and `undefined === n` is
false for every stored id, so the query yields null.

The mutation's object literal at `index.js:123` is written
`id = books.length + 1`. That is an assignment where a field initializer
belongs, so JavaScript refuses to parse the file. The model implements the
evidently intended `{ id: books.length + 1, name, authorId }`.

Names are arbitrary strings: the code never checks them, and
`GraphQLString` admits the empty string.

## Model

| member | source | states |
|---|---|---|
| `Collections.FirstIndex` | index.js:39 | the position found is the first one whose element matches; nothing is found exactly when no element matches |
| `Collections.Find` | index.js:85 | `find` returns nothing exactly when no element matches; otherwise it returns the element at the first matching position |
| `Collections.FindFirst` | index.js:104 | if position k is the first match, `find` returns the element at k |
| `Collections.FindAppend` | index.js:125 | pushing an element does not change an existing first match; when there was none, the result is the pushed element if it matches, and nothing otherwise |
| `Collections.Filter` | index.js:54 | `filter` is no longer than its input; every element it keeps matches and comes from the input; every matching input element is kept |
| `Collections.FilterIsOrderedSelection` | index.js:54 | `filter` picks out, at strictly increasing positions, exactly the input positions that match: order is preserved and nothing else is kept |
| `Collections.FilterAppend` | index.js:54 | filtering a concatenation equals concatenating the two filtered parts |
| `Collections.FilterAllMatch` | index.js:54 | when every element matches, `filter` returns the whole sequence |
| `Collections.FilterNoneMatch` | index.js:54 | when no element matches, `filter` returns the empty list (not nothing) |
| `Records.SeedIsWellFormed` | index.js:13-25 | in the seed, every book's id is its position plus one, and the three authors' ids are distinct |
| `Records.AppendKeepsIdsPositions` | index.js:123 | appending a book with id equal to the old length plus one keeps every book's id equal to its position plus one |
| `Records.PositionIdsAreUnique` | index.js:123 | while ids equal positions, no two books share an id |
| `BookStore.Store.constructor` | index.js:13-25 | a fresh store holds exactly the seed authors and books, and satisfies both id invariants |
| `BookStore.Store.BookAuthor` | index.js:38-40 | `Book.author` is null exactly when no author has the book's `authorId`; otherwise it is the first author with that id |
| `BookStore.Store.AuthorBooks` | index.js:53-55 | `Author.books` holds only stored books with this author's id and holds every one of them; the list may be empty but always exists |
| `BookStore.Store.BookById` | index.js:82-85 | `book(id)` is null for an omitted id and null when no book has the id; otherwise it is the first book with that id |
| `BookStore.Store.AuthorById` | index.js:101-104 | `author(id)` is null for an omitted id and null when no author has the id; otherwise it is the first author with that id |
| `BookStore.Store.AllBooks` | index.js:88-92 | `books` returns every stored book in insertion order; a function cannot change the store |
| `BookStore.Store.AllAuthors` | index.js:93-97 | `authors` returns every stored author in insertion order; it cannot change the store |
| `BookStore.Store.AddBook` | index.js:121-127 | `addBook` returns the book `{id: old length + 1, name, authorId}` and appends exactly that book to `books` with no existence check on `authorId`. `authors` and every earlier book are unchanged. The id invariant is preserved. Every earlier `book(id)` hit stays the same, and each author's `books` gains the new book exactly when its id matches |
| `BookStore.Store.AuthorBooksInStoreOrder` | index.js:53-55 | `Author.books` lists the matching books at strictly increasing store positions, i.e. in store order |
| `BookStore.Store.BookByIdIsPosition` | index.js:85 | while ids equal positions, `book(id)` is the book at position id - 1 when 1 <= id <= length, and null otherwise (including for an omitted id) |
| `BookStore.Store.AuthorByIdFindsStored` | index.js:104 | with distinct author ids, `author(id)` for a stored author's id returns that author |
| `BookStore.Store.BookAuthorFindsStored` | index.js:39 | with distinct author ids, `Book.author` of any book naming a stored author's id returns that author |
| `BookStore.SeedAuthorsFoundById` | index.js:13-17 | on the seed, `author(id: A.id)` is A for every seeded author A |
| `BookStore.SeedBooksFoundById` | index.js:18-25 | on the seed, `book(id: B.id)` is B for every seeded book B, and `book(id: 999)` is null |
| `BookStore.SeedBookThreeAuthor` | index.js:38-40 | on the seed, the author of `book(id: 3)` is Melchizedek |
| `BookStore.SeedFirstAuthorBooks` | index.js:53-55 | on the seed, author 1's `books` are exactly "Urantia Book" then "Personality Survival" |
| `BookStore.RevelationExample` | index.js:173-180 | on a fresh store, `addBook(name: "Revelation", authorId: 2)` returns a book with id 7. Its `author` resolves to Melchizedek, and `books` then has 7 entries |
| `BookStore.DanglingAuthorExample` | index.js:119-126 | on a fresh store, `addBook` with author id 999 still returns a new book with id 7, and that book's `author` resolves to null |

## Left out

- HTTP binding (`index.js:137-144`): the express app, the `/graphql` route, the GraphiQL console and `listen(5000)` are I/O on a foreign library.
- GraphQL schema descriptors and the execution engine (`index.js:29-58`, `index.js:75-135`) are library code that is not part of this model. This covers argument validation before resolvers run. It also covers the 32-bit range of `GraphQLInt`: an out-of-range `authorId` argument, or a book id past 2^31 - 1 on output, is rejected by the engine. Ids and author ids are unbounded integers here, and `name` and `authorId` are required simply by the parameter types.
- The field selection and serialisation of results, and the partial-result handling when a field resolves to null.
- Aliasing: the `books` and `authors` resolvers hand out the live arrays, so a later push shows through a reference taken earlier. The model returns sequence values. Every later query reads the updated field, so what a query returns is the same.
- Concurrent requests against the shared, unsynchronised arrays: the model is sequential.
- The commented-out HelloWorld schema (`index.js:63-73`). The example query document (`index.js:148-169`) is also left out; only the example mutation is restated, as `RevelationExample`.
- The syntax defect at `index.js:123`: as written the file does not load, so there is no as-written behaviour to model. The intended field initializer is modelled instead.
