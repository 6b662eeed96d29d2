/** The page's derived list `filteredAndSortedBooks`: a title/author search,
    a genre filter and a sort on a fresh copy of the loaded books. */
module ViewPipeline {
  import opened Books
  import opened Text
  import opened ArrayOps

  /** The genre selection that switches the genre filter off. */
  const AllGenres: string := "All"

  /** Title or author contains the query, all three lower-cased. */
  predicate MatchesQuery(b: Book, query: string)
  {
    Includes(Lower(b.title), Lower(query)) || Includes(Lower(b.author), Lower(query))
  }

  /** A book survives the search step: the query is empty or it matches. */
  predicate PassesSearch(b: Book, query: string)
  {
    query == "" || MatchesQuery(b, query)
  }

  /** A book survives the genre step: the selection is "All" or its genre is the selection. */
  predicate PassesGenre(b: Book, genre: string)
  {
    genre == AllGenres || b.genre == genre
  }

  function SearchMatches(books: seq<Book>, query: string): seq<Book>
  {
    Filter(books, (b: Book) => MatchesQuery(b, query))
  }

  /** The search step, taken only when the query is truthy (non-empty). */
  function SearchFilter(books: seq<Book>, query: string): (r: seq<Book>)
    ensures |r| <= |books|
    ensures forall b | b in r :: b in books && PassesSearch(b, query)
  {
    if query != "" then SearchMatches(books, query) else books
  }

  function GenreMatches(books: seq<Book>, genre: string): seq<Book>
  {
    Filter(books, (b: Book) => b.genre == genre)
  }

  /** The genre step, skipped when the selection is "All". */
  function GenreFilter(books: seq<Book>, genre: string): (r: seq<Book>)
    ensures |r| <= |books|
    ensures forall b | b in r :: b in books && PassesGenre(b, genre)
  {
    if genre != AllGenres then GenreMatches(books, genre) else books
  }

  /** The recognised sort keys. */
  predicate KnownSortKey(sortBy: string)
  {
    sortBy == "latest" || sortBy == "oldest" || sortBy == "most-liked"
  }

  /** Comparator `b - a` on creation time: ascending order of the negated time. */
  function LatestRank(b: Book): int { -b.createdAt }

  /** Comparator `a - b` on creation time. */
  function OldestRank(b: Book): int { b.createdAt }

  /** Comparator `b.likes - a.likes`. */
  function MostLikedRank(b: Book): int { -b.likes }

  /** The integer key whose ascending order the comparator of `sortBy` describes. */
  function RankOf(sortBy: string): Book -> int
    requires KnownSortKey(sortBy)
  {
    if sortBy == "latest" then LatestRank
    else if sortBy == "oldest" then OldestRank
    else MostLikedRank
  }

  /** `[...filtered]` sorted by the switch on `sortBy`; an unknown key leaves the copy as is. */
  function SortCopy(books: seq<Book>, sortBy: string): (r: seq<Book>)
    ensures multiset(r) == multiset(books) && |r| == |books|
    ensures forall b :: b in r <==> b in books
    ensures KnownSortKey(sortBy) ==> Ascending(r, RankOf(sortBy))
  {
    if KnownSortKey(sortBy) then
      var sorted := SortBy(books, RankOf(sortBy));
      assert |sorted| == |multiset(sorted)| == |multiset(books)| == |books|;
      assert forall b :: b in sorted <==> b in multiset(sorted);
      sorted
    else books
  }

  /** The list the page renders. */
  function FilteredAndSortedBooks(books: seq<Book>, query: string, genre: string, sortBy: string): (r: seq<Book>)
    ensures |r| <= |books|
    ensures forall b | b in r :: b in books && PassesSearch(b, query) && PassesGenre(b, genre)
  {
    SortCopy(GenreFilter(SearchFilter(books, query), genre), sortBy)
  }

  /** Independent reference: one pass keeping the books that pass both steps. */
  function VisibleBooks(books: seq<Book>, query: string, genre: string): seq<Book>
  {
    Filter(books, (b: Book) => PassesSearch(b, query) && PassesGenre(b, genre))
  }

  // ---------------------------------------------------------------------------
  // Properties of the filters

  /** The `if (searchQuery)` guard only saves work: every title contains "". */
  lemma SearchGuardRedundant(books: seq<Book>, query: string)
    ensures SearchFilter(books, query) == SearchMatches(books, query)
  {
    if query == "" {
      forall b | b in books ensures MatchesQuery(b, query) {
        IncludesEmpty(Lower(b.title));
      }
      FilterAll(books, (b: Book) => MatchesQuery(b, query));
    }
  }

  lemma SearchFilterIsFilter(books: seq<Book>, query: string)
    ensures SearchFilter(books, query) == Filter(books, (b: Book) => PassesSearch(b, query))
  {
    if query == "" {
      FilterAll(books, (b: Book) => PassesSearch(b, query));
    } else {
      FilterSame(books, (b: Book) => MatchesQuery(b, query), (b: Book) => PassesSearch(b, query));
    }
  }

  lemma GenreFilterIsFilter(books: seq<Book>, genre: string)
    ensures GenreFilter(books, genre) == Filter(books, (b: Book) => PassesGenre(b, genre))
  {
    if genre == AllGenres {
      FilterAll(books, (b: Book) => PassesGenre(b, genre));
    } else {
      FilterSame(books, (b: Book) => b.genre == genre, (b: Book) => PassesGenre(b, genre));
    }
  }

  /** The two steps are one conjunctive filter over the loaded books. */
  lemma FiltersConjunctive(books: seq<Book>, query: string, genre: string)
    ensures GenreFilter(SearchFilter(books, query), genre) == VisibleBooks(books, query, genre)
  {
    SearchFilterIsFilter(books, query);
    GenreFilterIsFilter(SearchFilter(books, query), genre);
    FilterFuse(books, (b: Book) => PassesSearch(b, query), (b: Book) => PassesGenre(b, genre),
               (b: Book) => PassesSearch(b, query) && PassesGenre(b, genre));
  }

  /** Running the genre step first gives the same list. */
  lemma FiltersCommute(books: seq<Book>, query: string, genre: string)
    ensures GenreFilter(SearchFilter(books, query), genre) == SearchFilter(GenreFilter(books, genre), query)
  {
    SearchFilterIsFilter(books, query);
    GenreFilterIsFilter(SearchFilter(books, query), genre);
    GenreFilterIsFilter(books, genre);
    SearchFilterIsFilter(GenreFilter(books, genre), query);
    FilterCommutes(books, (b: Book) => PassesSearch(b, query), (b: Book) => PassesGenre(b, genre));
  }

  // ---------------------------------------------------------------------------
  // Properties of the whole pipeline

  /** Each book appears in the output exactly as often as in the input when it
      passes both steps, and not at all otherwise. */
  lemma PipelineCounts(books: seq<Book>, query: string, genre: string, sortBy: string)
    ensures forall b :: multiset(FilteredAndSortedBooks(books, query, genre, sortBy))[b] ==
                        if PassesSearch(b, query) && PassesGenre(b, genre) then multiset(books)[b] else 0
  {
    FiltersConjunctive(books, query, genre);
  }

  /** A book is shown if and only if it is loaded and passes both steps. */
  lemma PipelineMembers(books: seq<Book>, query: string, genre: string, sortBy: string, b: Book)
    ensures b in FilteredAndSortedBooks(books, query, genre, sortBy) <==>
            b in books && PassesSearch(b, query) && PassesGenre(b, genre)
  {
    PipelineCounts(books, query, genre, sortBy);
    var out := FilteredAndSortedBooks(books, query, genre, sortBy);
    assert b in out <==> multiset(out)[b] > 0;
    assert b in books <==> multiset(books)[b] > 0;
  }

  /** With no query and "All", nothing is dropped or added: a permutation of the input. */
  lemma NoFilterIsPermutation(books: seq<Book>, sortBy: string)
    ensures multiset(FilteredAndSortedBooks(books, "", AllGenres, sortBy)) == multiset(books)
  {
    PipelineCounts(books, "", AllGenres, sortBy);
  }

  /** A non-empty query: every shown book matches it case-insensitively, and every
      loaded book that matches it and the genre is shown. */
  lemma SearchSoundAndComplete(books: seq<Book>, query: string, genre: string, sortBy: string)
    requires query != ""
    ensures forall b | b in FilteredAndSortedBooks(books, query, genre, sortBy) ::
              Includes(Lower(b.title), Lower(query)) || Includes(Lower(b.author), Lower(query))
    ensures forall b | b in books && MatchesQuery(b, query) && PassesGenre(b, genre) ::
              b in FilteredAndSortedBooks(books, query, genre, sortBy)
  {
    forall b ensures b in FilteredAndSortedBooks(books, query, genre, sortBy) <==>
                     b in books && PassesSearch(b, query) && PassesGenre(b, genre) {
      PipelineMembers(books, query, genre, sortBy, b);
    }
  }

  /** A genre other than "All": every shown book has exactly that genre. */
  lemma GenreExact(books: seq<Book>, query: string, genre: string, sortBy: string)
    requires genre != AllGenres
    ensures forall b | b in FilteredAndSortedBooks(books, query, genre, sortBy) :: b.genre == genre
  {
    forall b | b in FilteredAndSortedBooks(books, query, genre, sortBy) ensures b.genre == genre {
      PipelineMembers(books, query, genre, sortBy, b);
    }
  }

  /** "latest": creation times never increase along the output. */
  lemma LatestOrder(books: seq<Book>, query: string, genre: string)
    ensures var out := FilteredAndSortedBooks(books, query, genre, "latest");
            forall i, j :: 0 <= i < j < |out| ==> out[i].createdAt >= out[j].createdAt
  {
    KeyRanks();
    SortedOutput(books, query, genre, "latest");
    LatestRankMeans(FilteredAndSortedBooks(books, query, genre, "latest"));
  }

  /** "oldest": creation times never decrease along the output. */
  lemma OldestOrder(books: seq<Book>, query: string, genre: string)
    ensures var out := FilteredAndSortedBooks(books, query, genre, "oldest");
            forall i, j :: 0 <= i < j < |out| ==> out[i].createdAt <= out[j].createdAt
  {
    KeyRanks();
    SortedOutput(books, query, genre, "oldest");
    OldestRankMeans(FilteredAndSortedBooks(books, query, genre, "oldest"));
  }

  /** "most-liked": like counts never increase along the output. */
  lemma MostLikedOrder(books: seq<Book>, query: string, genre: string)
    ensures var out := FilteredAndSortedBooks(books, query, genre, "most-liked");
            forall i, j :: 0 <= i < j < |out| ==> out[i].likes >= out[j].likes
  {
    KeyRanks();
    SortedOutput(books, query, genre, "most-liked");
    MostLikedRankMeans(FilteredAndSortedBooks(books, query, genre, "most-liked"));
  }

  /** The three recognised keys and the rank each one sorts by. */
  lemma KeyRanks()
    ensures KnownSortKey("latest") && RankOf("latest") == LatestRank
    ensures KnownSortKey("oldest") && RankOf("oldest") == OldestRank
    ensures KnownSortKey("most-liked") && RankOf("most-liked") == MostLikedRank
  {
  }

  /** Under a recognised key the output ascends by that key's rank. */
  lemma SortedOutput(books: seq<Book>, query: string, genre: string, sortBy: string)
    requires KnownSortKey(sortBy)
    ensures Ascending(FilteredAndSortedBooks(books, query, genre, sortBy), RankOf(sortBy))
  {
  }

  /** Ascending by a rank, spelled out on the book fields. */
  lemma LatestRankMeans(out: seq<Book>)
    requires Ascending(out, LatestRank)
    ensures forall i, j :: 0 <= i < j < |out| ==> out[i].createdAt >= out[j].createdAt
  {
    forall i, j | 0 <= i < j < |out| ensures out[i].createdAt >= out[j].createdAt {
      assert LatestRank(out[i]) <= LatestRank(out[j]);
    }
  }

  lemma OldestRankMeans(out: seq<Book>)
    requires Ascending(out, OldestRank)
    ensures forall i, j :: 0 <= i < j < |out| ==> out[i].createdAt <= out[j].createdAt
  {
    forall i, j | 0 <= i < j < |out| ensures out[i].createdAt <= out[j].createdAt {
      assert OldestRank(out[i]) <= OldestRank(out[j]);
    }
  }

  lemma MostLikedRankMeans(out: seq<Book>)
    requires Ascending(out, MostLikedRank)
    ensures forall i, j :: 0 <= i < j < |out| ==> out[i].likes >= out[j].likes
  {
    forall i, j | 0 <= i < j < |out| ensures out[i].likes >= out[j].likes {
      assert MostLikedRank(out[i]) <= MostLikedRank(out[j]);
    }
  }

  /** Any other key shows the one-pass filtered list in the loaded order. */
  lemma UnknownKeyKeepsOrder(books: seq<Book>, query: string, genre: string, sortBy: string)
    requires !KnownSortKey(sortBy)
    ensures FilteredAndSortedBooks(books, query, genre, sortBy) == VisibleBooks(books, query, genre)
  {
    FiltersConjunctive(books, query, genre);
  }

  /** Ties under a known key keep the loaded order (the sort is stable). */
  lemma TiesKeepLoadedOrder(books: seq<Book>, query: string, genre: string, sortBy: string, k: int)
    requires KnownSortKey(sortBy)
    ensures WithKey(FilteredAndSortedBooks(books, query, genre, sortBy), RankOf(sortBy), k) ==
            WithKey(VisibleBooks(books, query, genre), RankOf(sortBy), k)
  {
    FiltersConjunctive(books, query, genre);
    SortByStable(VisibleBooks(books, query, genre), RankOf(sortBy), k);
  }

  // ---------------------------------------------------------------------------
  // Two worked examples

  const Dune := Book("1", "Dune", "Herbert", "Fiction", 5, "", 2, 1, "u")
  const Foundation := Book("2", "Foundation", "Asimov", "Sci-Fi", 5, "", 5, 2, "u")

  /** Sorting the two books by likes puts Foundation (5) before Dune (2). */
  lemma ExampleMostLiked()
    ensures FilteredAndSortedBooks([Dune, Foundation], "", AllGenres, "most-liked") == [Foundation, Dune]
  {
    MoreLikedFirst(Dune, Foundation);
  }

  /** Of two books with no filter on, the more liked one is shown first. */
  lemma MoreLikedFirst(a: Book, b: Book)
    requires a.likes < b.likes
    ensures FilteredAndSortedBooks([a, b], "", AllGenres, "most-liked") == [b, a]
  {
    NoFilterOnlySorts([a, b], "most-liked");
    assert SortCopy([a, b], "most-liked") == SortBy([a, b], MostLikedRank);
    SortTwoByLikes(a, b);
  }

  lemma NoFilterOnlySorts(books: seq<Book>, sortBy: string)
    ensures FilteredAndSortedBooks(books, "", AllGenres, sortBy) == SortCopy(books, sortBy)
  {
  }

  lemma SortTwoByLikes(a: Book, b: Book)
    requires a.likes < b.likes
    ensures SortBy([a, b], MostLikedRank) == [b, a]
  {
    var one := SortBy([b], MostLikedRank);
    assert [a, b][1..] == [b];
    assert one == Insert(b, [], MostLikedRank) == [b];
    assert Insert(a, one, MostLikedRank) == [b] + Insert(a, [], MostLikedRank);
  }

  /** The query "dune" keeps Dune and drops Foundation. */
  lemma ExampleSearchDune()
    ensures FilteredAndSortedBooks([Dune, Foundation], "dune", AllGenres, "latest") == [Dune]
  {
    DuneMatches();
    FoundationMisses();
    OnlyFirstMatches(Dune, Foundation, "dune", "latest");
  }

  lemma OnlyFirstMatches(a: Book, b: Book, query: string, sortBy: string)
    requires query != "" && MatchesQuery(a, query) && !MatchesQuery(b, query)
    ensures FilteredAndSortedBooks([a, b], query, AllGenres, sortBy) == [a]
  {
    SearchMatchesPair(a, b, query);
    if KnownSortKey(sortBy) {
      assert SortBy([a], RankOf(sortBy)) == Insert(a, [], RankOf(sortBy)) == [a];
    }
  }

  lemma SearchMatchesPair(a: Book, b: Book, query: string)
    requires MatchesQuery(a, query) && !MatchesQuery(b, query)
    ensures SearchMatches([a, b], query) == [a]
  {
    FilterPair(a, b, (x: Book) => MatchesQuery(x, query));
  }

  lemma DuneMatches()
    ensures MatchesQuery(Dune, "dune")
  {
    LowerIs("Dune", "dune");
    LowerIs("dune", "dune");
    IncludesSelf("dune");
  }

  lemma FoundationMisses()
    ensures !MatchesQuery(Foundation, "dune")
  {
    TitleMisses();
    AuthorMisses();
  }

  lemma TitleMisses()
    ensures !Includes(Lower("Foundation"), Lower("dune"))
  {
    LowerIs("dune", "dune");
    LowerIs("Foundation", "foundation");
    FoundationLacksDune();
  }

  lemma AuthorMisses()
    ensures !Includes(Lower("Asimov"), Lower("dune"))
  {
    LowerIs("dune", "dune");
    LowerIs("Asimov", "asimov");
    AsimovLacksDune();
  }

  lemma FoundationLacksDune()
    ensures !Includes("foundation", "dune")
  {
    var s := "foundation";
    forall i: nat ensures !OccursAt(s, "dune", i) {
      if i + 4 <= |s| {
        assert i == 0 || i == 1 || i == 2 || i == 3 || i == 4 || i == 5 || i == 6;
        MismatchAt(s, "dune", i, if i == 4 then 1 else 0);
      }
    }
  }

  lemma AsimovLacksDune()
    ensures !Includes("asimov", "dune")
  {
    var s := "asimov";
    forall i: nat ensures !OccursAt(s, "dune", i) {
      if i + 4 <= |s| {
        assert i == 0 || i == 1 || i == 2;
        MismatchAt(s, "dune", i, 0);
      }
    }
  }
}
