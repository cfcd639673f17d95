/** The in-memory record store behind the GraphQL resolvers: the two
    process-wide arrays, the field resolvers that read them, and the one
    mutation that appends to `books`. The arrays are module-level in the
    server; here one `Store` object owns them and the resolvers read its
    fields. */
module BookStore {
  import opened Collections
  import opened Records

  class Store {
    var authors: seq<Author>
    var books: seq<Book>

    /** Book ids equal their 1-based positions and author ids are distinct. */
    ghost predicate Valid()
      reads this
    {
      IdsArePositions(books) && DistinctAuthorIds(authors)
    }

    /** The store as the process starts: the seed arrays. */
    constructor ()
      ensures authors == SeedAuthors && books == SeedBooks
      ensures Valid()
    {
      authors := SeedAuthors;
      books := SeedBooks;
      SeedIsWellFormed();
    }

    /** Resolver of `Book.author`: the first author whose id is the book's
        `authorId`, or nothing when the reference dangles. */
    function BookAuthor(book: Book): (r: Option<Author>)
      reads this
      ensures r.None? <==> forall i :: 0 <= i < |authors| ==> authors[i].id != book.authorId
      ensures r.Some? ==> r.value.id == book.authorId
      ensures r.Some? ==> exists k :: IsFirst(authors, AuthorHasId(Some(book.authorId)), k) && authors[k] == r.value
    {
      Find(authors, AuthorHasId(Some(book.authorId)))
    }

    /** Resolver of `Author.books`: exactly the books that name this author,
        possibly none. Their order is the store order (AuthorBooksInStoreOrder). */
    function AuthorBooks(author: Author): (r: seq<Book>)
      reads this
      ensures forall i :: 0 <= i < |r| ==> r[i].authorId == author.id && r[i] in books
      ensures forall i :: 0 <= i < |books| && books[i].authorId == author.id ==> books[i] in r
    {
      Filter(books, WrittenBy(author.id))
    }

    /** Root query `book(id)`: the first book with that id, or nothing; an
        omitted id matches no book. */
    function BookById(id: Option<int>): (r: Option<Book>)
      reads this
      ensures id.None? ==> r.None?
      ensures r.None? <==> forall i :: 0 <= i < |books| ==> id != Some(books[i].id)
      ensures r.Some? ==> Some(r.value.id) == id
      ensures r.Some? ==> exists k :: IsFirst(books, BookHasId(id), k) && books[k] == r.value
    {
      Find(books, BookHasId(id))
    }

    /** Root query `author(id)`: the first author with that id, or nothing;
        an omitted id matches no author. */
    function AuthorById(id: Option<int>): (r: Option<Author>)
      reads this
      ensures id.None? ==> r.None?
      ensures r.None? <==> forall i :: 0 <= i < |authors| ==> id != Some(authors[i].id)
      ensures r.Some? ==> Some(r.value.id) == id
      ensures r.Some? ==> exists k :: IsFirst(authors, AuthorHasId(id), k) && authors[k] == r.value
    {
      Find(authors, AuthorHasId(id))
    }

    /** Root query `books`: the stored sequence itself, every entry in
        insertion order. Being a function it cannot change the store. */
    function AllBooks(): (r: seq<Book>)
      reads this
      ensures |r| == |books| && forall i :: 0 <= i < |r| ==> r[i] == books[i]
    {
      books
    }

    /** Root query `authors`: the stored sequence itself, in insertion order. */
    function AllAuthors(): (r: seq<Author>)
      reads this
      ensures |r| == |authors| && forall i :: 0 <= i < |r| ==> r[i] == authors[i]
    {
      authors
    }

    /** Mutation `addBook(name, authorId)`: build a book whose id is the
        current number of books plus one, push it onto `books` and return
        it. Whether `authorId` names an existing author is not checked. */
    method AddBook(name: string, authorId: int) returns (book: Book)
      modifies this`books
      ensures book == Book(old(|books|) + 1, name, authorId)
      ensures books == old(books) + [book]
      ensures authors == old(authors)
      ensures old(Valid()) ==> Valid()
      ensures forall n: int :: old(BookById(Some(n))).Some? ==> BookById(Some(n)) == old(BookById(Some(n)))
      ensures forall a :: AuthorBooks(a) == old(AuthorBooks(a)) + if a.id == authorId then [book] else []
    {
      // The source writes `id = books.length + 1` inside the object
      // literal, which JavaScript rejects as a syntax error; the field
      // initializer `id: books.length + 1` is what is meant and modelled.
      book := Book(|books| + 1, name, authorId);
      ghost var before := books;
      books := books + [book];
      if IdsArePositions(before) {
        AppendKeepsIdsPositions(before, name, authorId);
      }
      forall n: int | Find(before, BookHasId(Some(n))).Some?
        ensures Find(books, BookHasId(Some(n))) == Find(before, BookHasId(Some(n)))
      {
        FindAppend(before, book, BookHasId(Some(n)));
      }
      forall a: Author
        ensures Filter(books, WrittenBy(a.id)) == Filter(before, WrittenBy(a.id)) + if a.id == authorId then [book] else []
      {
        FilterLast(books, WrittenBy(a.id));
        assert books[..|books| - 1] == before;
      }
    }

    /** `Author.books` lists matching books in the order they were stored. */
    lemma AuthorBooksInStoreOrder(author: Author) returns (idx: seq<int>)
      ensures IsOrderedSelection(books, WrittenBy(author.id), AuthorBooks(author), idx)
    {
      idx := FilterIsOrderedSelection(books, WrittenBy(author.id));
    }

    /** While ids are positions, `book(id)` is the book at position id - 1. */
    lemma BookByIdIsPosition(id: Option<int>)
      requires Valid()
      ensures BookById(id) == if id.Some? && 1 <= id.value <= |books| then Some(books[id.value - 1]) else None
    {
      if id.Some? && 1 <= id.value <= |books| {
        var k := id.value - 1;
        assert IsFirst(books, BookHasId(id), k);
        FindFirst(books, BookHasId(id), k);
      }
    }

    /** With distinct author ids, `author(id)` for a stored author's id
        finds that author. */
    lemma AuthorByIdFindsStored(k: int)
      requires Valid()
      requires 0 <= k < |authors|
      ensures AuthorById(Some(authors[k].id)) == Some(authors[k])
    {
      assert IsFirst(authors, AuthorHasId(Some(authors[k].id)), k);
      FindFirst(authors, AuthorHasId(Some(authors[k].id)), k);
    }

    /** With distinct author ids, `Book.author` of a book naming a stored
        author's id is that author. */
    lemma BookAuthorFindsStored(k: int, book: Book)
      requires Valid()
      requires 0 <= k < |authors|
      requires book.authorId == authors[k].id
      ensures BookAuthor(book) == Some(authors[k])
    {
      assert IsFirst(authors, AuthorHasId(Some(book.authorId)), k);
      FindFirst(authors, AuthorHasId(Some(book.authorId)), k);
    }
  }

  /** On the seed data every seeded author is found by its id. */
  lemma SeedAuthorsFoundById(st: Store)
    requires st.authors == SeedAuthors && st.books == SeedBooks
    ensures forall k :: 0 <= k < |SeedAuthors| ==> st.AuthorById(Some(SeedAuthors[k].id)) == Some(SeedAuthors[k])
  {
    SeedIsWellFormed();
    forall k | 0 <= k < |SeedAuthors|
      ensures st.AuthorById(Some(SeedAuthors[k].id)) == Some(SeedAuthors[k])
    {
      st.AuthorByIdFindsStored(k);
    }
  }

  /** On the seed data every seeded book is found by its id, and
      `book(id: 999)` is null. */
  lemma SeedBooksFoundById(st: Store)
    requires st.authors == SeedAuthors && st.books == SeedBooks
    ensures forall k :: 0 <= k < |SeedBooks| ==> st.BookById(Some(SeedBooks[k].id)) == Some(SeedBooks[k])
    ensures st.BookById(Some(999)) == None
  {
    SeedIsWellFormed();
    forall k | 0 <= k < |SeedBooks|
      ensures st.BookById(Some(SeedBooks[k].id)) == Some(SeedBooks[k])
    {
      st.BookByIdIsPosition(Some(SeedBooks[k].id));
    }
    st.BookByIdIsPosition(Some(999));
  }

  /** On the seed data `book(id: 3)` is written by Melchizedek. */
  lemma SeedBookThreeAuthor(st: Store)
    requires st.authors == SeedAuthors && st.books == SeedBooks
    ensures st.BookById(Some(3)).Some? && st.BookAuthor(st.BookById(Some(3)).value) == Some(Author(2, "Melchizedek"))
  {
    SeedIsWellFormed();
    st.BookByIdIsPosition(Some(3));
    st.BookAuthorFindsStored(1, SeedBooks[2]);
  }

  /** On the seed data author 1 has exactly "Urantia Book" and then
      "Personality Survival". */
  lemma SeedFirstAuthorBooks(st: Store)
    requires st.authors == SeedAuthors && st.books == SeedBooks
    ensures st.AuthorBooks(Author(1, "Jesus Christ")) == [SeedBooks[0], SeedBooks[1]]
  {
    var s, p := SeedBooks, WrittenBy(1);
    assert s == s[..2] + s[2..];
    FilterAppend(s[..2], s[2..], p);
    FilterAllMatch(s[..2], p);
    FilterNoneMatch(s[2..], p);
  }

  /** The example mutation `addBook(name: "Revelation", authorId: 2)` on a
      freshly started store: the new book gets id 7, resolves to author
      Melchizedek, and `books` then has seven entries ending with it. */
  method RevelationExample() returns (book: Book, author: Option<Author>, count: nat)
    ensures book == Book(7, "Revelation", 2)
    ensures author == Some(Author(2, "Melchizedek"))
    ensures count == 7
  {
    var st := new Store();
    book := st.AddBook("Revelation", 2);
    author := st.BookAuthor(book);
    st.BookAuthorFindsStored(1, book);
    count := |st.AllBooks()|;
  }

  /** `addBook` with an author id no author has still appends the book;
      its `author` field then resolves to nothing. */
  method DanglingAuthorExample() returns (book: Book, author: Option<Author>)
    ensures book == Book(7, "Orphan", 999)
    ensures author == None
  {
    var st := new Store();
    book := st.AddBook("Orphan", 999);
    author := st.BookAuthor(book);
  }
}
