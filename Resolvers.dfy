/** The read side of the store: the root queries `book`, `books`, `author`,
    `authors` and the relationship fields `book.author` and `author.books`.
    Each is a pure function of the collections it reads, so no read changes
    the store and two reads with no mutation between them agree. */
module Resolvers {
  import opened Wrappers
  import opened Records

  /** `find` by id: the position of the first id equal to `key`, or `None`.
      An absent key (`None`) equals no id, as `undefined === n` is false. */
  function FirstMatch(ids: seq<int>, key: Option<int>): (r: Option<nat>)
    ensures r.Some? ==> r.value < |ids| && key == Some(ids[r.value])
    ensures r.Some? ==> forall j :: 0 <= j < r.value ==> key != Some(ids[j])
    ensures r.None? <==> forall j :: 0 <= j < |ids| ==> key != Some(ids[j])
  {
    if ids == [] then None
    else if key == Some(ids[0]) then Some(0)
    else match FirstMatch(ids[1..], key)
      case None => None
      case Some(k) => Some(k + 1)
  }

  /** Under the numbering invariant the first match of `k` is position `k - 1`,
      and there is none outside `1 ..|ids|`. */
  lemma {:induction false} FirstMatchDense(ids: seq<int>, key: Option<int>)
    requires Dense(ids)
    ensures FirstMatch(ids, key)
            == if key.Some? && 1 <= key.value <= |ids| then Some(key.value - 1) else None
  {
    var r := FirstMatch(ids, key);
    if r.Some? {
      assert ids[r.value] == r.value + 1;
    }
    if key.Some? && 1 <= key.value <= |ids| {
      assert ids[key.value - 1] == key.value;
    }
  }

  /** Root query `book(id)`: the first book whose id equals the argument. */
  function BookById(books: seq<Book>, id: Option<int>): (r: Option<Book>)
    ensures r.Some? ==> r.value in books && id == Some(r.value.id)
    ensures r.Some? ==> exists i :: 0 <= i < |books| && books[i] == r.value
                                 && forall j :: 0 <= j < i ==> books[j].id != books[i].id
    ensures r.None? <==> forall b :: b in books ==> id != Some(b.id)
  {
    match FirstMatch(BookIds(books), id)
    case None => None
    case Some(i) => Some(books[i])
  }

  /** Root query `author(id)`: the first author whose id equals the argument. */
  function AuthorById(authors: seq<Author>, id: Option<int>): (r: Option<Author>)
    ensures r.Some? ==> r.value in authors && id == Some(r.value.id)
    ensures r.Some? ==> exists i :: 0 <= i < |authors| && authors[i] == r.value
                                 && forall j :: 0 <= j < i ==> authors[j].id != authors[i].id
    ensures r.None? <==> forall a :: a in authors ==> id != Some(a.id)
  {
    match FirstMatch(AuthorIds(authors), id)
    case None => None
    case Some(i) => Some(authors[i])
  }

  /** Root query `books`: the collection itself, in insertion order. */
  function AllBooks(books: seq<Book>): (r: seq<Book>)
    ensures r == books
    ensures Dense(BookIds(books)) ==> forall i :: 0 <= i < |r| ==> r[i].id == i + 1
  {
    books
  }

  /** Root query `authors`: the collection itself, in insertion order. */
  function AllAuthors(authors: seq<Author>): (r: seq<Author>)
    ensures r == authors
    ensures Dense(AuthorIds(authors)) ==> forall i :: 0 <= i < |r| ==> r[i].id == i + 1
  {
    authors
  }

  /** Field `book.author`: the first author whose id is the book's `authorId`;
      `None` when the reference dangles. */
  function AuthorOf(authors: seq<Author>, book: Book): (r: Option<Author>)
    ensures r.Some? ==> r.value in authors && r.value.id == book.authorId
    ensures r.Some? ==> exists i :: 0 <= i < |authors| && authors[i] == r.value
                                 && forall j :: 0 <= j < i ==> authors[j].id != book.authorId
    ensures r.None? <==> forall a :: a in authors ==> a.id != book.authorId
  {
    AuthorById(authors, Some(book.authorId))
  }

  /** `r` keeps some of the elements of `s`, in the order `s` has them. */
  ghost predicate IsSubsequence<T>(r: seq<T>, s: seq<T>)
    decreases |s|
  {
    if r == [] then true
    else if s == [] then false
    else (r[0] == s[0] && IsSubsequence(r[1..], s[1..])) || IsSubsequence(r, s[1..])
  }

  /** Field `author.books`: the books whose `authorId` is the author's id,
      in collection order (see `BooksOfMatches` for the full statement). */
  function BooksOf(books: seq<Book>, author: Author): (r: seq<Book>)
    ensures forall b :: b in r ==> b in books && b.authorId == author.id
    ensures |r| <= |books|
  {
    if books == [] then []
    else if books[0].authorId == author.id then [books[0]] + BooksOf(books[1..], author)
    else BooksOf(books[1..], author)
  }

  /** `author.books` keeps every book of the author, as often as `books`
      holds it, and keeps them in collection order. */
  lemma {:induction false} BooksOfMatches(books: seq<Book>, author: Author)
    ensures forall b: Book :: b.authorId == author.id
              ==> multiset(BooksOf(books, author))[b] == multiset(books)[b]
    ensures IsSubsequence(BooksOf(books, author), books)
  {
    if books != [] {
      var rest := BooksOf(books[1..], author);
      BooksOfMatches(books[1..], author);
      assert books == [books[0]] + books[1..];
      if books[0].authorId == author.id {
        assert ([books[0]] + rest)[1..] == rest;
      }
    }
  }

  /** A subsequence never holds an element more often than the whole. */
  lemma {:induction false} SubsequenceMultiset<T>(r: seq<T>, s: seq<T>)
    requires IsSubsequence(r, s)
    ensures multiset(r) <= multiset(s)
    decreases |s|
  {
    if r == [] {
    } else {
      assert s == [s[0]] + s[1..];
      if r[0] == s[0] && IsSubsequence(r[1..], s[1..]) {
        SubsequenceMultiset(r[1..], s[1..]);
        assert r == [r[0]] + r[1..];
      } else {
        SubsequenceMultiset(r, s[1..]);
      }
    }
  }

  /** The three properties in the contract of `BooksOf` pin its result down:
      any subsequence of `books` made only of the author's books and holding
      each of them as often as `books` does is exactly `BooksOf`. */
  lemma {:induction false} BooksOfIsUnique(books: seq<Book>, author: Author, r: seq<Book>)
    requires forall b :: b in r ==> b.authorId == author.id
    requires forall b: Book :: b.authorId == author.id ==> multiset(r)[b] == multiset(books)[b]
    requires IsSubsequence(r, books)
    ensures r == BooksOf(books, author)
    decreases |books|
  {
    if books == [] {
      return;
    }
    var a, t := books[0], books[1..];
    assert books == [a] + t;
    if a.authorId == author.id {
      assert multiset(r)[a] == multiset(t)[a] + 1;
      assert r != [];
      if !(r[0] == a && IsSubsequence(r[1..], t)) {
        SubsequenceMultiset(r, t);
        assert false;
      }
      var rest := r[1..];
      assert r == [a] + rest;
      forall b: Book | b.authorId == author.id
        ensures multiset(rest)[b] == multiset(t)[b]
      {
        assert multiset(r)[b] == multiset([a])[b] + multiset(rest)[b];
      }
      BooksOfIsUnique(t, author, rest);
    } else {
      if r != [] {
        assert r[0] in r;
        assert r[0] != a;
      }
      assert IsSubsequence(r, t);
      BooksOfIsUnique(t, author, r);
    }
  }

  /** Under the numbering invariant `book(id)` is exact: it returns the book
      at position `id - 1`, and nothing for any id outside `1 ..|books|`. */
  lemma BookByIdExact(books: seq<Book>, id: Option<int>)
    requires Dense(BookIds(books))
    ensures BookById(books, id)
            == if id.Some? && 1 <= id.value <= |books| then Some(books[id.value - 1]) else None
  {
    FirstMatchDense(BookIds(books), id);
  }

  /** Under the numbering invariant `author(id)` is exact in the same way. */
  lemma AuthorByIdExact(authors: seq<Author>, id: Option<int>)
    requires Dense(AuthorIds(authors))
    ensures AuthorById(authors, id)
            == if id.Some? && 1 <= id.value <= |authors| then Some(authors[id.value - 1]) else None
  {
    FirstMatchDense(AuthorIds(authors), id);
  }

  /** Under the numbering invariant `book.author` resolves exactly when the
      book's `authorId` lies in `1 ..|authors|`; otherwise the reference
      dangles and the field is `None`. */
  lemma AuthorOfExact(authors: seq<Author>, book: Book)
    requires Dense(AuthorIds(authors))
    ensures AuthorOf(authors, book)
            == if 1 <= book.authorId <= |authors| then Some(authors[book.authorId - 1]) else None
  {
    AuthorByIdExact(authors, Some(book.authorId));
  }

  /** Appending a book extends each author's `books` field by that book
      exactly when its `authorId` is the author's id. */
  lemma BooksOfAppend(books: seq<Book>, b: Book, author: Author)
    ensures BooksOf(books + [b], author)
            == BooksOf(books, author) + (if b.authorId == author.id then [b] else [])
  {
    BooksOfSplit(books, [b], author);
  }

  /** `author.books` over two consecutive stretches of books is the
      concatenation of the two results. */
  lemma {:induction false} BooksOfSplit(s1: seq<Book>, s2: seq<Book>, author: Author)
    ensures BooksOf(s1 + s2, author) == BooksOf(s1, author) + BooksOf(s2, author)
  {
    if s1 == [] {
      assert s1 + s2 == s2;
    } else {
      assert (s1 + s2)[1..] == s1[1..] + s2;
      BooksOfSplit(s1[1..], s2, author);
    }
  }

  /** An author whose id no book carries has no books. */
  lemma BooksOfNoMatch(books: seq<Book>, author: Author)
    requires forall b :: b in books ==> b.authorId != author.id
    ensures BooksOf(books, author) == []
  {
  }

  /** When every book carries the author's id, `author.books` is the whole
      collection. */
  lemma {:induction false} BooksOfAllMatch(books: seq<Book>, author: Author)
    requires forall b :: b in books ==> b.authorId == author.id
    ensures BooksOf(books, author) == books
  {
    if books != [] {
      assert books[0] in books;
      assert forall b :: b in books[1..] ==> b in books;
      BooksOfAllMatch(books[1..], author);
      assert books == [books[0]] + books[1..];
    }
  }

  /** When the author's books form the first `k` records and no later record
      is theirs, `author.books` is exactly that prefix. */
  lemma BooksOfPrefix(books: seq<Book>, author: Author, k: nat)
    requires k <= |books|
    requires forall i :: 0 <= i < k ==> books[i].authorId == author.id
    requires forall i :: k <= i < |books| ==> books[i].authorId != author.id
    ensures BooksOf(books, author) == books[..k]
  {
    var mine, others := books[..k], books[k..];
    BooksOfAllMatch(mine, author);
    BooksOfNoMatch(others, author);
    assert books == mine + others;
    BooksOfSplit(mine, others, author);
  }
}
