/** The store behind the query and mutation resolvers: the two seeded
    collections, owned by one `Store` object, and the two mutations that
    append to them in place. */
module Server {
  import opened Wrappers
  import opened Records
  import opened Resolvers

  /** The authors the store starts with. */
  const SeedAuthors: seq<Author> := [
    Author(1, "J. K. Rowling"),
    Author(2, "J. R. R. Tolkien"),
    Author(3, "Brent Weeks")
  ]

  /** The books the store starts with. */
  const SeedBooks: seq<Book> := [
    Book(1, "Harry Potter and the Chamber of Secrets", 1),
    Book(2, "Harry Potter and the Prisoner of Azkaban", 1),
    Book(3, "Harry Potter and the Goblet of Fire", 1),
    Book(4, "The Fellowship of the Ring", 2),
    Book(5, "The Two Towers", 2),
    Book(6, "The Return of the King", 2),
    Book(7, "The Way of Shadows", 3),
    Book(8, "Beyond the Shadows", 3)
  ]

  /** The seed data is numbered 1, 2, 3, ... in both collections, and every
      seeded book's author resolves. */
  lemma SeedIsDense()
    ensures Dense(AuthorIds(SeedAuthors)) && Dense(BookIds(SeedBooks))
    ensures forall b :: b in SeedBooks ==> AuthorOf(SeedAuthors, b).Some?
  {
    forall b | b in SeedBooks
      ensures AuthorOf(SeedAuthors, b).Some?
    {
      AuthorOfExact(SeedAuthors, b);
    }
  }

  /** The two mutable collections. */
  class Store {
    var authors: seq<Author>
    var books: seq<Book>

    /** The numbering invariant on both collections. */
    ghost predicate Valid()
      reads this
    {
      Dense(AuthorIds(authors)) && Dense(BookIds(books))
    }

    /** The store as the module is loaded: the seed data. */
    constructor ()
      ensures authors == SeedAuthors && books == SeedBooks
      ensures Valid()
    {
      authors := SeedAuthors;
      books := SeedBooks;
      SeedIsDense();
    }

    /** Mutation `addBook(name, authorId)`: appends a book numbered one past
        the current length and returns it. Neither the name nor the
        `authorId` is checked. */
    method AddBook(name: string, authorId: int) returns (book: Book)
      modifies this`books
      ensures book == Book(|old(books)| + 1, name, authorId)
      ensures books == old(books) + [book]
      ensures authors == old(authors)
      ensures old(Valid()) ==> Valid()
      ensures old(Valid()) ==> BookById(books, Some(book.id)) == Some(book)
      ensures old(Valid()) ==> AuthorOf(authors, book)
                               == if 1 <= authorId <= |authors| then Some(authors[authorId - 1]) else None
    {
      book := Book(|books| + 1, name, authorId);
      BookIdsAppend(books, book);
      if Valid() {
        DenseAppend(BookIds(books), book.id);
        AuthorOfExact(authors, book);
      }
      books := books + [book];
      if Valid() {
        BookByIdExact(books, Some(book.id));
      }
    }

    /** Mutation `addAuthor(name)`: appends an author numbered one past the
        current length and returns it. The name is not checked. */
    method AddAuthor(name: string) returns (author: Author)
      modifies this`authors
      ensures author == Author(|old(authors)| + 1, name)
      ensures authors == old(authors) + [author]
      ensures books == old(books)
      ensures old(Valid()) ==> Valid()
      ensures old(Valid()) ==> AuthorById(authors, Some(author.id)) == Some(author)
    {
      author := Author(|authors| + 1, name);
      AuthorIdsAppend(authors, author);
      if Valid() {
        DenseAppend(AuthorIds(authors), author.id);
      }
      authors := authors + [author];
      if Valid() {
        AuthorByIdExact(authors, Some(author.id));
      }
    }
  }

  /** Since `addBook` accepts any `authorId`, an author added later picks up
      every earlier book that pointed one past the end of `authors`: each such
      book had no author before the append and has the new one after it. */
  lemma NewAuthorAdoptsDanglingBooks(authors: seq<Author>, books: seq<Book>, name: string)
    requires Dense(AuthorIds(authors))
    ensures var author := Author(|authors| + 1, name);
            forall b :: b in BooksOf(books, author) ==>
              AuthorOf(authors, b).None? && AuthorOf(authors + [author], b) == Some(author)
  {
    var author := Author(|authors| + 1, name);
    AuthorIdsAppend(authors, author);
    DenseAppend(AuthorIds(authors), author.id);
    forall b | b in BooksOf(books, author)
      ensures AuthorOf(authors, b).None? && AuthorOf(authors + [author], b) == Some(author)
    {
      AuthorOfExact(authors, b);
      AuthorOfExact(authors + [author], b);
    }
  }

  /** When every book's author resolves, a newly added author has no books. */
  lemma NewAuthorHasNoBooks(authors: seq<Author>, books: seq<Book>, name: string)
    requires Dense(AuthorIds(authors))
    requires forall b :: b in books ==> AuthorOf(authors, b).Some?
    ensures BooksOf(books, Author(|authors| + 1, name)) == []
  {
    var r := BooksOf(books, Author(|authors| + 1, name));
    if r != [] {
      assert r[0] in r;
      AuthorOfExact(authors, r[0]);
      assert false;
    }
  }

  /** Conversely, one book pointing one past the end of `authors` is enough
      for a newly added author to start with a non-empty `books` list. */
  lemma NewAuthorInheritsDanglingBook(authors: seq<Author>, books: seq<Book>, name: string, b: Book)
    requires b in books && b.authorId == |authors| + 1
    ensures BooksOf(books, Author(|authors| + 1, name)) != []
  {
    BooksOfMatches(books, Author(|authors| + 1, name));
    assert multiset(books)[b] > 0;
  }

  /** The seeded store answers `book(id: 1) { name author { name } }` and
      `author(id: 1) { books { name } }` from the first records. */
  lemma SeedQueries()
    ensures BookById(SeedBooks, Some(1)) == Some(SeedBooks[0])
    ensures SeedBooks[0].name == "Harry Potter and the Chamber of Secrets"
    ensures AuthorOf(SeedAuthors, SeedBooks[0]) == Some(Author(1, "J. K. Rowling"))
    ensures AuthorById(SeedAuthors, Some(1)).Some?
    ensures BookById(SeedBooks, None) == None && AuthorById(SeedAuthors, Some(4)) == None
  {
    SeedIsDense();
    BookByIdExact(SeedBooks, Some(1));
    AuthorOfExact(SeedAuthors, SeedBooks[0]);
    AuthorByIdExact(SeedAuthors, Some(4));
  }

  /** `author(id: 1) { books }` on the seeded store lists the three books of
      the first author, in insertion order. */
  lemma SeedBooksOfFirstAuthor()
    ensures BooksOf(SeedBooks, SeedAuthors[0]) == SeedBooks[..3]
  {
    BooksOfPrefix(SeedBooks, SeedAuthors[0], 3);
  }

  /** A client of the store: a book added with an unknown `authorId` has no
      author until an author with that id is added, and then belongs to it. */
  method DanglingReferenceScenario()
  {
    var store := new Store();
    var book := store.AddBook("Unclaimed", 4);
    assert book.id == 9;
    assert AuthorOf(store.authors, book) == None;
    var author := store.AddAuthor("Newcomer");
    assert author.id == 4;
    assert AuthorOf(store.authors, book) == Some(author);
    SeedIsDense();
    NewAuthorHasNoBooks(SeedAuthors, SeedBooks, "Newcomer");
    BooksOfAppend(SeedBooks, book, author);
    assert BooksOf(store.books, author) == [book];
  }
}
