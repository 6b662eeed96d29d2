/** The main page's state-changing handlers over the remote store: the like
    toggle, the guarded book submission, the list refresh and the like
    dispatch from the cards. The remote tables are an in-memory `BookStore`. */
module IndexPage {
  import opened Books
  import opened ViewPipeline
  import BookCard

  /** A row of the likes table: one user has liked one book. */
  datatype LikePair = LikePair(bookId: BookId, userId: UserId)

  /** The two remote tables as values. */
  datatype StoreState = StoreState(rows: seq<Book>, pairs: set<LikePair>)

  /** `update({ likes: v }).eq("id", id)` on the books table. */
  function SetLikes(rows: seq<Book>, id: BookId, v: int): seq<Book>
  {
    seq(|rows|, i requires 0 <= i < |rows| => if rows[i].id == id then rows[i].(likes := v) else rows[i])
  }

  /** `select("*").order("created_at", { ascending: false })`: newest first, ties in table order. */
  function Fetch(rows: seq<Book>): seq<Book>
  {
    SortCopy(rows, "latest")
  }

  /** The count the toggle writes, computed from the cached count. */
  function NewLikeCount(cached: int, wasLiked: bool): int
  {
    if wasLiked then BookCard.Max(0, cached - 1) else cached + 1
  }

  /** The store after `handleLike(bookId)` with the page's cached list `cache`. */
  function LikeStep(st: StoreState, cache: seq<Book>, user: Option<UserId>, bookId: BookId): (r: StoreState)
    ensures user.None? ==> r == st
    ensures |r.rows| == |st.rows|
  {
    match user
    case None => st
    case Some(u) =>
      var pair := LikePair(bookId, u);
      var liked := pair in st.pairs;
      var pairs := if liked then st.pairs - {pair} else st.pairs + {pair};
      match FindById(cache, bookId)
      case None => StoreState(st.rows, pairs)
      case Some(b) => StoreState(SetLikes(st.rows, bookId, NewLikeCount(b.likes, liked)), pairs)
  }

  // ---------------------------------------------------------------------------
  // Properties of one toggle

  /** The pair flips and no other pair changes. */
  lemma TogglePairs(st: StoreState, cache: seq<Book>, u: UserId, bookId: BookId, q: LikePair)
    ensures var after := LikeStep(st, cache, Some(u), bookId);
            (q in after.pairs <==> q in st.pairs) <==> q != LikePair(bookId, u)
  {
  }

  /** An existing like is removed and the book's count becomes `max(0, cached - 1)`;
      a missing like is added and the count becomes `cached + 1`. */
  lemma ToggleCount(st: StoreState, cache: seq<Book>, u: UserId, bookId: BookId, i: int)
    requires 0 <= i < |st.rows| && st.rows[i].id == bookId && FindById(cache, bookId).Some?
    ensures var after := LikeStep(st, cache, Some(u), bookId);
            var cached := FindById(cache, bookId).value.likes;
            |after.rows| == |st.rows| &&
            after.rows[i] == st.rows[i].(likes := after.rows[i].likes) &&
            (LikePair(bookId, u) in st.pairs ==> after.rows[i].likes == if cached >= 1 then cached - 1 else 0) &&
            (LikePair(bookId, u) !in st.pairs ==> after.rows[i].likes == cached + 1)
  {
  }

  /** Rows of other books do not change. */
  lemma ToggleOthersUntouched(st: StoreState, cache: seq<Book>, u: UserId, bookId: BookId, i: int)
    requires 0 <= i < |st.rows| && st.rows[i].id != bookId
    ensures var after := LikeStep(st, cache, Some(u), bookId);
            |after.rows| == |st.rows| && after.rows[i] == st.rows[i]
  {
  }

  /** A book missing from the cached list: the pair still toggles but no count changes. */
  lemma ToggleUncachedBook(st: StoreState, cache: seq<Book>, u: UserId, bookId: BookId)
    requires forall b | b in cache :: b.id != bookId
    ensures LikeStep(st, cache, Some(u), bookId).rows == st.rows
  {
  }

  /** Counts never go negative when they start non-negative. */
  lemma ToggleKeepsCountsNonNegative(st: StoreState, cache: seq<Book>, user: Option<UserId>, bookId: BookId)
    requires forall b | b in st.rows :: b.likes >= 0
    requires forall b | b in cache :: b.likes >= 0
    ensures forall b | b in LikeStep(st, cache, user, bookId).rows :: b.likes >= 0
  {
    var after := LikeStep(st, cache, user, bookId);
    forall b | b in after.rows ensures b.likes >= 0 {
      var i :| 0 <= i < |after.rows| && after.rows[i] == b;
      assert st.rows[i] in st.rows;
    }
  }

  /** Updating counts changes no id, so the key stays unique. */
  lemma SetLikesKeepsIds(rows: seq<Book>, id: BookId, v: int)
    requires UniqueIds(rows)
    ensures |SetLikes(rows, id, v)| == |rows|
    ensures forall i :: 0 <= i < |rows| ==> SetLikes(rows, id, v)[i].id == rows[i].id
    ensures UniqueIds(SetLikes(rows, id, v))
  {
  }

  /** A freshly fetched list finds the same row by id as the table itself. */
  lemma FetchedLookup(rows: seq<Book>, id: BookId)
    requires UniqueIds(rows)
    ensures FindById(Fetch(rows), id) == FindById(rows, id)
  {
    var fetched := Fetch(rows);
    assert multiset(fetched) == multiset(rows);
    assert forall b :: b in fetched <==> b in rows by {
      forall b ensures b in fetched <==> b in rows {
        assert b in fetched <==> multiset(fetched)[b] > 0;
        assert b in rows <==> multiset(rows)[b] > 0;
      }
    }
    match FindById(rows, id)
    case None =>
    case Some(r) =>
      var f := FindById(fetched, id);
      assert r in fetched;
      assert f.Some?;
      assert f.value in rows;
      var i :| 0 <= i < |rows| && rows[i] == f.value;
      var j :| 0 <= j < |rows| && rows[j] == r;
      assert i == j;
  }

  // ---------------------------------------------------------------------------
  // The toggle against a freshly fetched list

  /** Number of users who like book `id`. */
  function Likers(pairs: set<LikePair>, id: BookId): set<LikePair>
  {
    set p | p in pairs && p.bookId == id
  }

  /** Every book's count equals the number of its likes. */
  predicate CountsMatchLikes(st: StoreState)
  {
    forall i :: 0 <= i < |st.rows| ==> st.rows[i].likes == |Likers(st.pairs, st.rows[i].id)|
  }

  /** With the list refreshed before the toggle, the counts keep matching the likes table. */
  lemma ToggleKeepsCountsMatching(st: StoreState, u: UserId, bookId: BookId)
    requires UniqueIds(st.rows) && CountsMatchLikes(st)
    ensures CountsMatchLikes(LikeStep(st, Fetch(st.rows), Some(u), bookId))
  {
    FetchedLookup(st.rows, bookId);
    var cache := Fetch(st.rows);
    var after := LikeStep(st, cache, Some(u), bookId);
    forall i | 0 <= i < |after.rows| ensures after.rows[i].likes == |Likers(after.pairs, after.rows[i].id)| {
      RowKeepsMatching(st, cache, u, bookId, i);
    }
  }

  lemma RowKeepsMatching(st: StoreState, cache: seq<Book>, u: UserId, bookId: BookId, i: int)
    requires UniqueIds(st.rows) && CountsMatchLikes(st) && 0 <= i < |st.rows|
    requires FindById(cache, bookId) == FindById(st.rows, bookId)
    ensures var after := LikeStep(st, cache, Some(u), bookId);
            |after.rows| == |st.rows| && after.rows[i].likes == |Likers(after.pairs, after.rows[i].id)|
  {
    var after := LikeStep(st, cache, Some(u), bookId);
    assert after.rows[i].id == st.rows[i].id;
    if st.rows[i].id == bookId {
      assert st.rows[i] in st.rows;
      FindByIdUnique(st.rows, st.rows[i]);
      StepOnCachedRow(st, cache, u, bookId, st.rows[i]);
      LikersAfterToggle(st.pairs, LikePair(bookId, u));
    } else {
      assert Likers(after.pairs, st.rows[i].id) == Likers(st.pairs, st.rows[i].id);
    }
  }

  /** Flipping one pair moves its book's number of likers by one, and that number
      before an unlike is at least one. */
  lemma LikersAfterToggle(pairs: set<LikePair>, pair: LikePair)
    ensures pair in pairs ==>
              pair in Likers(pairs, pair.bookId) &&
              |Likers(pairs - {pair}, pair.bookId)| == |Likers(pairs, pair.bookId)| - 1
    ensures pair !in pairs ==> |Likers(pairs + {pair}, pair.bookId)| == |Likers(pairs, pair.bookId)| + 1
  {
    var before := Likers(pairs, pair.bookId);
    if pair in pairs {
      assert Likers(pairs - {pair}, pair.bookId) == before - {pair};
    } else {
      assert Likers(pairs + {pair}, pair.bookId) == before + {pair};
    }
  }

  /** Liking and then unliking, with the list refreshed each time as the page does,
      restores every count and removes the pair again. */
  lemma ToggleTwiceRestores(st: StoreState, u: UserId, bookId: BookId)
    requires UniqueIds(st.rows)
    requires LikePair(bookId, u) !in st.pairs
    requires forall b | b in st.rows :: b.likes >= 0
    ensures var once := LikeStep(st, Fetch(st.rows), Some(u), bookId);
            LikeStep(once, Fetch(once.rows), Some(u), bookId) == st
  {
    FetchedLookup(st.rows, bookId);
    match FindById(st.rows, bookId)
    case None =>
      TwiceUncached(st, u, bookId);
    case Some(r) =>
      var k :| 0 <= k < |st.rows| && st.rows[k] == r;
      assert r.likes >= 0 by { assert st.rows[k] in st.rows; }
      TwiceCached(st, u, bookId, k);
  }

  /** The book is not in the table: only the pair moves, in and out again. */
  lemma TwiceUncached(st: StoreState, u: UserId, bookId: BookId)
    requires UniqueIds(st.rows) && LikePair(bookId, u) !in st.pairs
    requires FindById(Fetch(st.rows), bookId).None?
    ensures var once := LikeStep(st, Fetch(st.rows), Some(u), bookId);
            LikeStep(once, Fetch(once.rows), Some(u), bookId) == st
  {
    var once := LikeStep(st, Fetch(st.rows), Some(u), bookId);
    assert once == StoreState(st.rows, st.pairs + {LikePair(bookId, u)});
    assert st.pairs + {LikePair(bookId, u)} - {LikePair(bookId, u)} == st.pairs;
  }

  /** The book is row `k`: its count goes up by one and back down. */
  lemma TwiceCached(st: StoreState, u: UserId, bookId: BookId, k: int)
    requires UniqueIds(st.rows) && LikePair(bookId, u) !in st.pairs
    requires 0 <= k < |st.rows| && st.rows[k].id == bookId && st.rows[k].likes >= 0
    requires FindById(Fetch(st.rows), bookId) == Some(st.rows[k])
    ensures var once := LikeStep(st, Fetch(st.rows), Some(u), bookId);
            LikeStep(once, Fetch(once.rows), Some(u), bookId) == st
  {
    var pair := LikePair(bookId, u);
    var r := st.rows[k];
    var rows1 := SetLikes(st.rows, bookId, r.likes + 1);
    StepOnCachedRow(st, Fetch(st.rows), u, bookId, r);
    var once := StoreState(rows1, st.pairs + {pair});
    assert FindById(Fetch(rows1), bookId) == Some(rows1[k]) by {
      SetLikesKeepsIds(st.rows, bookId, r.likes + 1);
      FetchedLookup(rows1, bookId);
      FindByIdUnique(rows1, rows1[k]);
    }
    StepOnCachedRow(once, Fetch(rows1), u, bookId, rows1[k]);
    assert st.pairs + {pair} - {pair} == st.pairs;
    SetLikesTwice(st.rows, bookId, r.likes + 1, k);
  }

  /** One toggle whose cached list holds the book as `b`. */
  lemma StepOnCachedRow(st: StoreState, cache: seq<Book>, u: UserId, bookId: BookId, b: Book)
    requires FindById(cache, bookId) == Some(b)
    ensures var pair := LikePair(bookId, u);
            LikeStep(st, cache, Some(u), bookId) ==
            StoreState(SetLikes(st.rows, bookId, NewLikeCount(b.likes, pair in st.pairs)),
                       if pair in st.pairs then st.pairs - {pair} else st.pairs + {pair})
  {
  }

  /** Writing a row's own count back after another write restores the table. */
  lemma SetLikesTwice(rows: seq<Book>, id: BookId, v: int, k: int)
    requires UniqueIds(rows) && 0 <= k < |rows| && rows[k].id == id
    ensures SetLikes(SetLikes(rows, id, v), id, rows[k].likes) == rows
  {
    var twice := SetLikes(SetLikes(rows, id, v), id, rows[k].likes);
    forall i | 0 <= i < |rows| ensures twice[i] == rows[i] {
      if rows[i].id == id {
        assert i == k;
      }
    }
  }

  // ---------------------------------------------------------------------------
  // Dispatch from a card's like button

  /** The page's `onLike(title)`: the id of the first cached book with that title. */
  function LikeTarget(cache: seq<Book>, passed: string): (r: Option<BookId>)
    ensures r.Some? <==> exists b | b in cache :: b.title == passed
    ensures r.Some? ==> exists i :: 0 <= i < |cache| && cache[i].title == passed && cache[i].id == r.value &&
                                    forall j :: 0 <= j < i ==> cache[j].title != passed
  {
    match FindByTitle(cache, passed)
    case None => None
    case Some(b) => Some(b.id)
  }

  /** The lookup the card's argument calls for: by id. */
  function LikeTargetById(cache: seq<Book>, passed: string): (r: Option<BookId>)
    ensures r.Some? <==> exists b | b in cache :: b.id == passed
    ensures r.Some? ==> r.value == passed
  {
    match FindById(cache, passed)
    case None => None
    case Some(b) => Some(b.id)
  }

  /** As written, a card's like reaches the toggle only when some cached title equals the card's id. */
  lemma LikeReachesToggleOnlyOnTitleClash(cache: seq<Book>, b: Book)
    requires b in cache
    ensures LikeTarget(cache, BookCard.LikeButtonArgument(b)).Some? <==> exists c | c in cache :: c.title == b.id
  {
  }

  /** A concrete list where pressing like does nothing. */
  lemma LikeIgnoredExample()
    ensures LikeTarget([Dune], BookCard.LikeButtonArgument(Dune)) == None
  {
    assert Dune.title != Dune.id;
  }

  /** Looking up by id, every card's like reaches the toggle for that very book. */
  lemma LikeByIdReachesToggle(cache: seq<Book>, b: Book)
    requires b in cache
    ensures LikeTargetById(cache, BookCard.LikeButtonArgument(b)) == Some(b.id)
  {
  }

  // ---------------------------------------------------------------------------
  // A worked example: like then unlike

  lemma ExampleLikeThenUnlike()
    ensures var st := StoreState([Dune], {});
            var once := LikeStep(st, Fetch(st.rows), Some("userA"), "1");
            once == StoreState([Dune.(likes := 3)], {LikePair("1", "userA")}) &&
            LikeStep(once, Fetch(once.rows), Some("userA"), "1") == st
  {
    SingleRowLikeThenUnlike(Dune, "userA");
  }

  /** A table of one unliked row: a like adds one and the pair, a second toggle undoes both. */
  lemma SingleRowLikeThenUnlike(b: Book, u: UserId)
    requires b.likes >= 0
    ensures var st := StoreState([b], {});
            var once := LikeStep(st, Fetch(st.rows), Some(u), b.id);
            once == StoreState([b.(likes := b.likes + 1)], {LikePair(b.id, u)}) &&
            LikeStep(once, Fetch(once.rows), Some(u), b.id) == st
  {
    var st := StoreState([b], {});
    var once := LikeStep(st, Fetch(st.rows), Some(u), b.id);
    assert once == StoreState([b.(likes := b.likes + 1)], {LikePair(b.id, u)}) by {
      FetchedLookup(st.rows, b.id);
      FindByIdUnique([b], b);
      StepOnCachedRow(st, Fetch(st.rows), u, b.id, b);
      assert SetLikes([b], b.id, b.likes + 1) == [b.(likes := b.likes + 1)];
    }
    assert LikeStep(once, Fetch(once.rows), Some(u), b.id) == st by {
      assert forall r | r in st.rows :: r.likes >= 0;
      ToggleTwiceRestores(st, u, b.id);
    }
  }

  // ---------------------------------------------------------------------------
  // The classes

  /** The remote books and likes tables behind the narrow interface the page uses. */
  class BookStore {
    var rows: seq<Book>
    var pairs: set<LikePair>

    function State(): StoreState
      reads this
    {
      StoreState(rows, pairs)
    }

    ghost predicate Valid()
      reads this
    {
      UniqueIds(rows)
    }

    constructor (rows0: seq<Book>, pairs0: set<LikePair>)
      requires UniqueIds(rows0)
      ensures Valid() && State() == StoreState(rows0, pairs0)
    {
      rows, pairs := rows0, pairs0;
    }

    /** `from("book_likes").select("*").eq(...).eq(...).maybeSingle()` */
    method FindLike(pair: LikePair) returns (found: bool)
      ensures found <==> pair in pairs
    {
      found := pair in pairs;
    }

    /** `from("book_likes").insert([...])` */
    method InsertLike(pair: LikePair)
      modifies this
      ensures State() == StoreState(old(rows), old(pairs) + {pair})
    {
      pairs := pairs + {pair};
    }

    /** `from("book_likes").delete().eq(...).eq(...)` */
    method DeleteLike(pair: LikePair)
      modifies this
      ensures State() == StoreState(old(rows), old(pairs) - {pair})
    {
      pairs := pairs - {pair};
    }

    /** `from("books").update({ likes: v }).eq("id", id)` */
    method UpdateLikes(id: BookId, v: int)
      requires Valid()
      modifies this
      ensures Valid()
      ensures State() == StoreState(SetLikes(old(rows), id, v), old(pairs))
    {
      SetLikesKeepsIds(rows, id, v);
      rows := SetLikes(rows, id, v);
    }

    /** `from("books").insert([...])`: refused when the id is already taken. */
    method InsertBook(b: Book) returns (ok: bool)
      requires Valid()
      modifies this
      ensures Valid()
      ensures ok <==> forall r | r in old(rows) :: r.id != b.id
      ensures State() == StoreState(if ok then old(rows) + [b] else old(rows), old(pairs))
    {
      ok := FindById(rows, b.id).None?;
      if ok {
        var grown := rows + [b];
        forall i, j | 0 <= i < |grown| && 0 <= j < |grown| && grown[i].id == grown[j].id ensures i == j {
          if i < |rows| { assert rows[i] in rows; }
          if j < |rows| { assert rows[j] in rows; }
        }
        rows := grown;
      }
    }

    /** `from("books").select("*").order("created_at", { ascending: false })` */
    method ListBooks() returns (r: seq<Book>)
      ensures r == Fetch(rows)
    {
      r := Fetch(rows);
    }
  }

  datatype LikeOutcome = LikeSignInRequired | Toggled(nowLiked: bool)

  datatype AddOutcome = AddSignInRequired | InsertFailed | Added

  /** The new row the books table holds after an insert: id and time from the
      database, likes starting at 0, owner the signed-in user. */
  function NewRow(d: BookDraft, id: BookId, now: int, owner: UserId): Book
  {
    Book(id, d.title, d.author, d.genre, d.rating, d.description, 0, now, owner)
  }

  class Page {
    var user: Option<UserId>
    var books: seq<Book>
    const store: BookStore

    ghost predicate Valid()
      reads this, store
    {
      store.Valid()
    }

    constructor (s: BookStore, u: Option<UserId>)
      requires s.Valid()
      ensures Valid() && store == s && user == u && books == []
    {
      store, user, books := s, u, [];
    }

    /** `fetchBooks`: replaces the cached list with the table, newest first. */
    method FetchBooks()
      requires Valid()
      modifies this`books
      ensures Valid() && books == Fetch(store.rows)
    {
      books := store.ListBooks();
    }

    /** `handleLike(bookId)`: look up the like, delete or insert it, write the
        cached count minus or plus one, and refresh the list. */
    method HandleLike(bookId: BookId) returns (outcome: LikeOutcome)
      requires Valid()
      modifies this`books, store
      ensures Valid()
      ensures store.State() == LikeStep(old(store.State()), old(books), user, bookId)
      ensures user.None? ==> outcome == LikeSignInRequired && books == old(books)
      ensures user.Some? ==> outcome == Toggled(LikePair(bookId, user.value) !in old(store.pairs))
      ensures user.Some? ==> books == Fetch(store.rows)
    {
      if user.None? {
        outcome := LikeSignInRequired;
        return;
      }
      var pair := LikePair(bookId, user.value);
      var existing := store.FindLike(pair);
      if existing {
        store.DeleteLike(pair);
        var book := FindById(books, bookId);
        if book.Some? {
          store.UpdateLikes(bookId, BookCard.Max(0, book.value.likes - 1));
        }
      } else {
        store.InsertLike(pair);
        var book := FindById(books, bookId);
        if book.Some? {
          store.UpdateLikes(bookId, book.value.likes + 1);
        }
      }
      FetchBooks();
      outcome := Toggled(!existing);
    }

    /** `handleAddBook(newBook)`: signed out, nothing is inserted; otherwise the
        row is inserted and, on success, the list refreshed. */
    method HandleAddBook(d: BookDraft, newId: BookId, now: int) returns (outcome: AddOutcome)
      requires Valid()
      modifies this`books, store
      ensures Valid()
      ensures user.None? ==> outcome == AddSignInRequired && store.State() == old(store.State()) && books == old(books)
      ensures user.Some? ==>
                var isNew := forall r | r in old(store.rows) :: r.id != newId;
                outcome == (if isNew then Added else InsertFailed) &&
                store.State() == StoreState(if isNew then old(store.rows) + [NewRow(d, newId, now, user.value)]
                                            else old(store.rows), old(store.pairs)) &&
                books == (if isNew then Fetch(store.rows) else old(books))
    {
      if user.None? {
        outcome := AddSignInRequired;
        return;
      }
      var ok := store.InsertBook(NewRow(d, newId, now, user.value));
      if ok {
        FetchBooks();
        outcome := Added;
      } else {
        outcome := InsertFailed;
      }
    }

    /** The `onLike` callback handed to the list, as written: resolves by title. */
    method OnLike(passed: string) returns (outcome: Option<LikeOutcome>)
      requires Valid()
      modifies this`books, store
      ensures Valid()
      ensures LikeTarget(old(books), passed).None? ==>
                outcome == None && store.State() == old(store.State()) && books == old(books)
      ensures LikeTarget(old(books), passed).Some? ==>
                store.State() == LikeStep(old(store.State()), old(books), user, LikeTarget(old(books), passed).value) &&
                (user.None? ==> outcome == Some(LikeSignInRequired) && books == old(books)) &&
                (user.Some? ==>
                   books == Fetch(store.rows) &&
                   outcome == Some(Toggled(LikePair(LikeTarget(old(books), passed).value, user.value) !in old(store.pairs))))
    {
      match LikeTarget(books, passed)
      case None =>
        outcome := None;
      case Some(id) =>
        var o := HandleLike(id);
        outcome := Some(o);
    }

    /** The callback resolving the card's argument by id, as the card intends. */
    method OnLikeById(passed: string) returns (outcome: Option<LikeOutcome>)
      requires Valid()
      modifies this`books, store
      ensures Valid()
      ensures LikeTargetById(old(books), passed).None? ==>
                outcome == None && store.State() == old(store.State()) && books == old(books)
      ensures LikeTargetById(old(books), passed).Some? ==>
                store.State() == LikeStep(old(store.State()), old(books), user, passed) &&
                (user.None? ==> outcome == Some(LikeSignInRequired) && books == old(books)) &&
                (user.Some? ==>
                   books == Fetch(store.rows) &&
                   outcome == Some(Toggled(LikePair(passed, user.value) !in old(store.pairs))))
    {
      match LikeTargetById(books, passed)
      case None =>
        outcome := None;
      case Some(id) =>
        var o := HandleLike(id);
        outcome := Some(o);
    }
  }
}
