/** The two record shapes of the store and the numbering invariant on them. */
module Records {

  /** An entry of the `authors` collection. */
  datatype Author = Author(id: int, name: string)

  /** An entry of the `books` collection; `authorId` is a plain number that
      nothing checks against the `authors` collection. */
  datatype Book = Book(id: int, name: string, authorId: int)

  /** The ids of a collection, position by position. */
  function AuthorIds(authors: seq<Author>): (ids: seq<int>)
    ensures |ids| == |authors|
    ensures forall i :: 0 <= i < |authors| ==> ids[i] == authors[i].id
  {
    seq(|authors|, i requires 0 <= i < |authors| => authors[i].id)
  }

  /** The same projection for books: the two record shapes are distinct
      datatypes, so each collection needs its own. */
  function BookIds(books: seq<Book>): (ids: seq<int>)
    ensures |ids| == |books|
    ensures forall i :: 0 <= i < |books| ==> ids[i] == books[i].id
  {
    seq(|books|, i requires 0 <= i < |books| => books[i].id)
  }

  /** The store's invariant: the record at position `i` has id `i + 1`. */
  ghost predicate Dense(ids: seq<int>)
  {
    forall i :: 0 <= i < |ids| ==> ids[i] == i + 1
  }

  /** Under the invariant, no two records of one collection share an id. */
  lemma DenseIdsAreUnique(ids: seq<int>)
    requires Dense(ids)
    ensures forall i, j :: 0 <= i < |ids| && 0 <= j < |ids| && ids[i] == ids[j] ==> i == j
  {
  }

  /** Appending a record whose id is the old length plus one, as both
      mutations do, keeps the invariant; any other id breaks it. */
  lemma DenseAppend(ids: seq<int>, id: int)
    requires Dense(ids)
    ensures Dense(ids + [id]) <==> id == |ids| + 1
  {
    if id == |ids| + 1 {
      forall i | 0 <= i < |ids| + 1
        ensures (ids + [id])[i] == i + 1
      {
        if i < |ids| { assert (ids + [id])[i] == ids[i]; }
      }
    } else {
      assert (ids + [id])[|ids|] == id;
    }
  }

  lemma AuthorIdsAppend(authors: seq<Author>, a: Author)
    ensures AuthorIds(authors + [a]) == AuthorIds(authors) + [a.id]
  {
  }

  lemma BookIdsAppend(books: seq<Book>, b: Book)
    ensures BookIds(books + [b]) == BookIds(books) + [b.id]
  {
  }
}
