# BookMate view pipeline, like toggle and form helpers in Dafny

BookMate is a small book-recommendation web page. Signed-in users submit
books, search and filter a shared list, sort it and like books. This project
models the logic behind it and proves properties of that model:

- **View pipeline** (`ViewPipeline`, on `ArrayOps` and `Text`). The list the
  page renders. It keeps the books whose lower-cased title or author contains
  the lower-cased query, when the query is non-empty. It keeps the books of
  the selected genre, unless the selection is "All". It then sorts a copy
  stably by creation time (newest or oldest first) or by likes (most first).
  An unrecognised key leaves the filtered order as it is.
- **Like toggle and page handlers** (`IndexPage`). `BookStore` is a class
  standing for the two remote tables: book rows and (book, user) like pairs.
  `Page` is a class with the signed-in user, the cached list and the store.
  `Page.HandleLike` does the source's read-then-write steps: look up the
  pair, delete or insert it, write the cached count minus one (never below
  zero) or plus one, then reload the list. `LikeStep` is the pure transition
  that specifies the method; the lemmas about the toggle are stated on it.
  `Page.HandleAddBook` is the signed-in guard on submission. `Page.OnLike`
  is the lookup by title that the page applies to a card's like.
- **Card and form helpers** (`BookCard`, `AddBookForm`). Description
  truncation, the "New" badge rule and the star fill rule. The form is a
  class with its five fields: the select and the star buttons set them, and
  submission is guarded and then resets them.

Timestamps are integers in milliseconds. Lower-casing covers ASCII letters
only. `Array.prototype.sort` is modelled as a stable insertion sort over an
integer key: the comparator `(a, b) => f(b) - f(a)` orders like an ascending
sort by `-f`. The clock (`now`), new ids and creation times are parameters.

## Model

| member | source | states |
|---|---|---|
| `Books.Find` | src/pages/Index.tsx:146 | `find` returns the first element satisfying the predicate, or nothing when no element does |
| `Text.Lower` | src/pages/Index.tsx:189-190 | lower-casing keeps the length, lowers every ASCII capital and leaves no capital behind |
| `Text.Includes` | src/pages/Index.tsx:189-190 | `includes` holds exactly when some position starts an occurrence of the substring |
| `ArrayOps.Filter` | src/pages/Index.tsx:187-196 | `filter` keeps only passing elements, each as often as in the input, and drops nothing that passes |
| `ArrayOps.FilterAppend` | src/pages/Index.tsx:187-196 | `filter` keeps input order: filtering a concatenation is the concatenation of the filtered parts |
| `ArrayOps.FilterCommutes` | src/pages/Index.tsx:183-197 | two filters applied in either order give the same sequence |
| `ArrayOps.FilterFuse` | src/pages/Index.tsx:183-197 | filtering twice equals one filter by the conjunction |
| `ArrayOps.SortBy` | src/pages/Index.tsx:200-211 | the sorted copy is a permutation of its input with non-decreasing keys |
| `ArrayOps.SortByStable` | src/pages/Index.tsx:200-211 | elements with equal keys keep their input order |
| `ViewPipeline.FilteredAndSortedBooks` | src/pages/Index.tsx:182-214 | the rendered list is no longer than the loaded one, and every shown book is loaded and passes both the search and the genre step |
| `ViewPipeline.SearchFilter` | src/pages/Index.tsx:186-192 | the search step never lengthens the list, and keeps only loaded books that pass the search |
| `ViewPipeline.GenreFilter` | src/pages/Index.tsx:195-197 | the genre step never lengthens the list, and keeps only loaded books that pass the genre test |
| `ViewPipeline.SortCopy` | src/pages/Index.tsx:200-211 | the sorted copy has the same books with the same counts and length, and under a recognised key it ascends by that key's rank |
| `ViewPipeline.SearchGuardRedundant` | src/pages/Index.tsx:186-192 | skipping the search step for an empty query gives the same list as running it |
| `ViewPipeline.FiltersConjunctive` | src/pages/Index.tsx:183-197 | search and genre steps together are one filter by "passes search and passes genre" |
| `ViewPipeline.FiltersCommute` | src/pages/Index.tsx:183-197 | running the genre step before the search step gives the same list |
| `ViewPipeline.PipelineCounts` | src/pages/Index.tsx:182-214 | each book is shown as often as it is loaded if it passes both steps, otherwise never |
| `ViewPipeline.PipelineMembers` | src/pages/Index.tsx:182-214 | a book is shown if and only if it is loaded and passes both steps |
| `ViewPipeline.NoFilterIsPermutation` | src/pages/Index.tsx:183-200 | with an empty query and "All", the output is a permutation of the loaded books |
| `ViewPipeline.SearchSoundAndComplete` | src/pages/Index.tsx:186-192 | for a non-empty query, every shown book's lower-cased title or author contains the lower-cased query, and every matching book of the right genre is shown |
| `ViewPipeline.GenreExact` | src/pages/Index.tsx:195-197 | for a genre other than "All", every shown book has exactly that genre |
| `ViewPipeline.LatestOrder` | src/pages/Index.tsx:202-204 | "latest" gives non-increasing creation times |
| `ViewPipeline.OldestOrder` | src/pages/Index.tsx:205-207 | "oldest" gives non-decreasing creation times |
| `ViewPipeline.MostLikedOrder` | src/pages/Index.tsx:208-210 | "most-liked" gives non-increasing like counts |
| `ViewPipeline.UnknownKeyKeepsOrder` | src/pages/Index.tsx:200-213 | any other key shows the filtered books in loaded order |
| `ViewPipeline.TiesKeepLoadedOrder` | src/pages/Index.tsx:200-211 | under a known key, books with equal keys keep their loaded order |
| `ViewPipeline.ExampleMostLiked` | src/pages/Index.tsx:208-210 | Dune (2 likes) and Foundation (5 likes) sorted by likes: Foundation first |
| `ViewPipeline.MoreLikedFirst` | src/pages/Index.tsx:208-210 | of any two books with no filter on, "most-liked" shows the one with more likes first |
| `ViewPipeline.ExampleSearchDune` | src/pages/Index.tsx:186-192 | the query "dune" keeps Dune and drops Foundation |
| `BookCard.TruncateText` | src/components/BookCard.tsx:21-24 | text of at most `m` characters is unchanged; longer text becomes its first `m` characters plus "...", exactly `m + 3` long; never longer than `m + 3` |
| `BookCard.ShownDescription` | src/components/BookCard.tsx:69 | a card shows at most 153 characters of description, all of a short one, and for a long one its first 150 characters followed by "..." |
| `BookCard.LikeButtonArgument` | src/components/BookCard.tsx:75 | definition: the argument the like button hands to `onLike`, its book's id; `IndexPage.LikeReachesToggleOnlyOnTitleClash` and `IndexPage.LikeByIdReachesToggle` state what that argument does at the page |
| `BookCard.IsRecent` | src/components/BookCard.tsx:26-32 | recent exactly when fewer than four whole days (4 × 86400000 ms) have passed; a creation time at or after `now` is recent |
| `BookCard.StarRow` | src/components/BookCard.tsx:55-63 | star `i` is filled exactly when `i < rating` |
| `BookCard.FilledStars` | src/components/BookCard.tsx:55-63 | of the five stars exactly `clamp(rating, 0, 5)` are filled, and the filled ones come first |
| `AddBookForm.GenresDistinct` | src/components/AddBookForm.tsx:16 | the select offers six distinct genres, none of them the list filter's "All" |
| `AddBookForm.ReadyToSubmit` | src/components/AddBookForm.tsx:37 | the submit guard: title, author, genre and description non-empty and rating non-zero |
| `AddBookForm.SubmittedDraftInRange` | src/components/AddBookForm.tsx:83-99 | a submitted draft has one of the six listed genres and a rating from 1 to 5 |
| `AddBookForm.ResetBlocksResubmit` | src/components/AddBookForm.tsx:38-43 | the reset state does not pass the submit guard |
| `AddBookForm.Form.constructor` | src/components/AddBookForm.tsx:29-33 | the form starts with empty strings and rating 0 |
| `AddBookForm.Form.SetTitle` | src/components/AddBookForm.tsx:57 | typing sets the title and nothing else |
| `AddBookForm.Form.SetAuthor` | src/components/AddBookForm.tsx:68 | typing sets the author and nothing else |
| `AddBookForm.Form.SetDescription` | src/components/AddBookForm.tsx:120 | typing sets the description and nothing else |
| `AddBookForm.Form.SelectGenre` | src/components/AddBookForm.tsx:78-87 | choosing one of the six genres sets the genre and nothing else |
| `AddBookForm.Form.ClickStar` | src/components/AddBookForm.tsx:95-99 | a star button sets the rating to its value in 1..5 and nothing else |
| `AddBookForm.Form.HandleSubmit` | src/components/AddBookForm.tsx:35-45 | with all five fields truthy the callback gets exactly the current values and every field resets; otherwise no callback and no change |
| `AddBookForm.SubmitTwice` | src/components/AddBookForm.tsx:35-45 | a second immediate submit never calls back |
| `IndexPage.LikeStep` | src/pages/Index.tsx:118-173 | the store after one toggle: signed out it is unchanged, otherwise it keeps its number of rows; `TogglePairs`, `ToggleCount` and `ToggleOthersUntouched` give the rest |
| `IndexPage.TogglePairs` | src/pages/Index.tsx:137-169 | the (book, user) pair flips and no other pair changes |
| `IndexPage.ToggleCount` | src/pages/Index.tsx:145-169 | unliking writes `max(0, cached - 1)`, liking writes `cached + 1`, to the book's row and no other field |
| `IndexPage.ToggleOthersUntouched` | src/pages/Index.tsx:148-151 | rows of other books do not change |
| `IndexPage.ToggleUncachedBook` | src/pages/Index.tsx:146-147 | a book missing from the cached list keeps its count while the pair still toggles |
| `IndexPage.ToggleKeepsCountsNonNegative` | src/pages/Index.tsx:150 | non-negative counts stay non-negative |
| `IndexPage.ToggleKeepsCountsMatching` | src/pages/Index.tsx:118-173 | with a freshly loaded list, every book's count keeps equalling its number of likes |
| `IndexPage.ToggleTwiceRestores` | src/pages/Index.tsx:118-173 | like then unlike, reloading in between, restores every count and removes the pair |
| `IndexPage.ExampleLikeThenUnlike` | src/pages/Index.tsx:118-173 | Dune with 2 likes: a like gives 3 and the pair, a second toggle gives 2 and no pair |
| `IndexPage.SingleRowLikeThenUnlike` | src/pages/Index.tsx:118-173 | for any one-row table with a non-negative count and no likes, a like adds one to the count and adds the pair, and a second toggle undoes both |
| `IndexPage.LikeTarget` | src/pages/Index.tsx:274-277 | the page's `onLike` finds a book exactly when some cached title equals its argument, and yields the id of the first cached book with that title |
| `IndexPage.LikeTargetById` | src/pages/Index.tsx:274-277 | a lookup by id finds a book exactly when some cached id equals the argument |
| `IndexPage.LikeReachesToggleOnlyOnTitleClash` | src/components/BookCard.tsx:75 | a card's like reaches the toggle only when some cached title equals that card's id |
| `IndexPage.LikeIgnoredExample` | src/pages/Index.tsx:274-277 | for a list holding only Dune (id "1"), pressing its like does nothing |
| `IndexPage.LikeByIdReachesToggle` | src/pages/Index.tsx:274-277 | resolving by id, every card's like reaches the toggle for that book |
| `IndexPage.BookStore.FindLike` | src/pages/Index.tsx:130-135 | the lookup reports whether the pair exists |
| `IndexPage.BookStore.InsertLike` | src/pages/Index.tsx:155-160 | adds the pair and changes nothing else |
| `IndexPage.BookStore.DeleteLike` | src/pages/Index.tsx:139-143 | removes the pair and changes nothing else |
| `IndexPage.BookStore.UpdateLikes` | src/pages/Index.tsx:148-151 | writes the count on the rows with that id only, keeping ids unique |
| `IndexPage.BookStore.InsertBook` | src/pages/Index.tsx:92-101 | appends the row when its id is free and otherwise fails without change |
| `IndexPage.BookStore.ListBooks` | src/pages/Index.tsx:61-64 | returns the rows newest first |
| `IndexPage.Page.constructor` | src/pages/Index.tsx:24-26 | the page starts with the given user and store and an empty list |
| `IndexPage.Page.FetchBooks` | src/pages/Index.tsx:59-79 | replaces the cached list with the rows, newest first |
| `IndexPage.Page.HandleLike` | src/pages/Index.tsx:118-173 | signed out: nothing changes; signed in: the store moves by `LikeStep` from the cached list and the list reloads |
| `IndexPage.Page.HandleAddBook` | src/pages/Index.tsx:81-116 | signed out: nothing is inserted; signed in: the new row is inserted, or the insert fails, and a success reloads the list |
| `IndexPage.Page.OnLike` | src/pages/Index.tsx:274-277 | the toggle runs, for the first title match's id, exactly when a cached title equals the argument; then, as for `HandleLike`, the outcome and the reloaded list are given for both user cases |
| `IndexPage.Page.OnLikeById` | src/pages/Index.tsx:274-277 | the toggle runs for the argument exactly when a cached id equals it; then, as for `HandleLike`, the outcome and the reloaded list are given for both user cases |

## Findings

| source | as written | input that shows it | evidently intended | confidence | as-written member | corrected member |
|---|---|---|---|---|---|---|
| src/pages/Index.tsx:274-277 | the like callback looks the argument up by title, but the card passes `book.id` (src/components/BookCard.tsx:75) | cached list `[Dune]` with id "1" and title "Dune"; press Dune's like | look the book up by id, so every card's like toggles that book | high, not executed | `IndexPage.LikeIgnoredExample`, `IndexPage.LikeReachesToggleOnlyOnTitleClash`, `IndexPage.Page.OnLike` | `IndexPage.LikeByIdReachesToggle`, `IndexPage.Page.OnLikeById` |

## Left out

- Remote calls are modelled by the in-memory `BookStore` class. Network failures and failed reads are left out. The only failure modelled is an insert whose id is already taken.
- Toasts, `navigate("/auth")`, the session subscription, `useEffect`, `useMemo` and the loading flag are framework plumbing and are left out. A signed-out call returns a sign-in-required outcome instead of redirecting.
- Concurrent toggles, and fetches that complete out of order: the model is sequential. `handleLike` and `handleAddBook` do not await their final `fetchBooks()` (src/pages/Index.tsx:114, 172); the model makes that reload the last step of `Page.HandleLike` and `Page.HandleAddBook`.
- The random pick (src/pages/Index.tsx:75, 175-180) depends on `Math.random` floats and is left out, with the `randomBook` state.
- `new Date(...)` parsing, NaN for invalid dates and `Date.now()`: timestamps are integers and `now` is a parameter.
- BookCard.IsRecent: floating-point rounding of the quotient is ignored, because exact integer floor division differs from it only for spans far beyond any real date.
- Text.Lower: only ASCII letters are lowered; full Unicode case mapping is left out. String lengths count characters, not UTF-16 code units.
- BookCard.TruncateText: lengths and cut positions count characters, while JavaScript's `length` and `slice` count UTF-16 code units and can split a surrogate pair; `BookCard.ShownDescription` inherits this.
- The pipeline never changes its input and gives the same output for the same arguments. Both hold by construction, since sequences are values; there is no separate lemma.
- IndexPage.BookStore.ListBooks: the table's ordering of equal creation times is unspecified; the model takes it stable in table order.
- IndexPage.NewRow: the database fills in the id, `likes = 0` and `created_at`; these are parameters or assumed defaults. Rows carry the `user_id` column as `owner`, which the page's `Book` interface omits.
- `e.preventDefault()` and the JSX, CSS and SVG markup are left out.
- src/pages/Profile.tsx and the components BookList, SearchFilterBar, RandomBookCard and Header are rendering or direct remote calls and are left out. Only the "All" entry of SearchFilterBar's genre list is used, as `ViewPipeline.AllGenres`.
