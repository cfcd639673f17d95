/** The two record types of the store, the seed data the server starts
    with, the matchers the resolvers search with, and the id invariants. */
module Records {
  import opened Collections

  datatype Author = Author(id: int, name: string)

  datatype Book = Book(id: int, name: string, authorId: int)

  /** The authors the process starts with; no operation adds or changes one. */
  const SeedAuthors: seq<Author> := [
    Author(1, "Jesus Christ"),
    Author(2, "Melchizedek"),
    Author(3, "Benitez")
  ]

  /** The books the process starts with. */
  const SeedBooks: seq<Book> := [
    Book(1, "Urantia Book", 1),
    Book(2, "Personality Survival", 1),
    Book(3, "The Return", 2),
    Book(4, "The Two Towers", 2),
    Book(5, "Caballos", 3),
    Book(6, "Jesus Micael", 3)
  ]

  /** `author => author.id === id`. An omitted query argument (`None`,
      JavaScript's `undefined`) is strictly equal to no integer id. */
  function AuthorHasId(id: Option<int>): Author -> bool
  {
    (a: Author) => id == Some(a.id)
  }

  /** `book => book.id === id`, with the same reading of an omitted argument. */
  function BookHasId(id: Option<int>): Book -> bool
  {
    (b: Book) => id == Some(b.id)
  }

  /** `book => book.authorId === authorId`. */
  function WrittenBy(authorId: int): Book -> bool
  {
    (b: Book) => b.authorId == authorId
  }

  /** Book ids are their 1-based positions in the store. */
  ghost predicate IdsArePositions(books: seq<Book>)
  {
    forall i :: 0 <= i < |books| ==> books[i].id == i + 1
  }

  /** No two authors share an id. */
  ghost predicate DistinctAuthorIds(authors: seq<Author>)
  {
    forall i, j :: 0 <= i < j < |authors| ==> authors[i].id != authors[j].id
  }

  /** The seed data satisfies both invariants. */
  lemma SeedIsWellFormed()
    ensures IdsArePositions(SeedBooks)
    ensures DistinctAuthorIds(SeedAuthors)
  {
  }

  /** Appending a book whose id is the old length plus one keeps ids
      equal to positions. */
  lemma {:induction false} AppendKeepsIdsPositions(books: seq<Book>, name: string, authorId: int)
    requires IdsArePositions(books)
    ensures IdsArePositions(books + [Book(|books| + 1, name, authorId)])
  {
    var s := books + [Book(|books| + 1, name, authorId)];
    forall i | 0 <= i < |s|
      ensures s[i].id == i + 1
    {
      if i < |books| {
        assert s[i] == books[i];
      }
    }
  }

  /** While ids are positions, no two books share an id. */
  lemma {:induction false} PositionIdsAreUnique(books: seq<Book>)
    requires IdsArePositions(books)
    ensures forall i, j :: 0 <= i < |books| && 0 <= j < |books| && i != j ==> books[i].id != books[j].id
  {
  }
}
