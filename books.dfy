/** The book record and form draft shared by the page, the cards and the form,
    and the `Array.prototype.find` lookups the page performs on its cached list. */
module Books {

  datatype Option<+T> = None | Some(value: T)

  type BookId = string
  type UserId = string

  /** A row of the books table as the page loads it (`select("*")`).
      `createdAt` is the creation time in milliseconds since the epoch. */
  datatype Book = Book(
    id: BookId,
    title: string,
    author: string,
    genre: string,
    rating: int,
    description: string,
    likes: int,
    createdAt: int,
    owner: UserId)

  /** What the submission form hands to the page: a book without id, likes and time. */
  datatype BookDraft = BookDraft(
    title: string,
    author: string,
    genre: string,
    rating: int,
    description: string)

  /** `books.find(p)`: the first element satisfying `p`, if any. */
  function Find(books: seq<Book>, p: Book -> bool): (r: Option<Book>)
    ensures r.None? <==> forall b | b in books :: !p(b)
    ensures r.Some? ==> exists i :: 0 <= i < |books| && books[i] == r.value && p(r.value) &&
                                    forall j :: 0 <= j < i ==> !p(books[j])
  {
    if |books| == 0 then None
    else if p(books[0]) then Some(books[0])
    else
      var r := Find(books[1..], p);
      assert forall b | b in books :: b == books[0] || b in books[1..];
      if r.Some? then
        ghost var i :| 0 <= i < |books[1..]| && books[1..][i] == r.value && p(r.value) &&
                 forall j :: 0 <= j < i ==> !p(books[1..][j]);
        assert books[i + 1] == r.value && forall j :: 0 <= j < i + 1 ==> !p(books[j]);
        r
      else r
  }

  /** `books.find(b => b.id === id)` */
  function FindById(books: seq<Book>, id: BookId): Option<Book>
  {
    Find(books, (b: Book) => b.id == id)
  }

  /** `books.find(b => b.title === title)` */
  function FindByTitle(books: seq<Book>, title: string): Option<Book>
  {
    Find(books, (b: Book) => b.title == title)
  }

  /** No two rows share an id (the id is the table's primary key). */
  predicate UniqueIds(books: seq<Book>)
  {
    forall i, j :: 0 <= i < |books| && 0 <= j < |books| && books[i].id == books[j].id ==> i == j
  }

  /** With unique ids, the book an id lookup finds is the only element with that id. */
  lemma FindByIdUnique(books: seq<Book>, b: Book)
    requires UniqueIds(books) && b in books
    ensures FindById(books, b.id) == Some(b)
  {
    var k :| 0 <= k < |books| && books[k] == b;
    var r := FindById(books, b.id);
    assert r.Some?;
    var i :| 0 <= i < |books| && books[i] == r.value && r.value.id == b.id;
    assert i == k;
  }
}
