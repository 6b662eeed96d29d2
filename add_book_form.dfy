/** The submission form: five state fields, the genre select, the star
    buttons and the submit handler that calls back and resets. */
module AddBookForm {
  import opened Books

  /** The options of the genre select. */
  const Genres: seq<string> := ["Fiction", "Non-fiction", "Sci-Fi", "Romance", "Thriller", "Mystery"]

  /** The select offers six distinct genres, none of them the list filter's "All",
      so a submitted book is never hidden by the "All" selection's special meaning. */
  lemma GenresDistinct()
    ensures |Genres| == 6
    ensures forall i, j | 0 <= i < j < |Genres| :: Genres[i] != Genres[j]
    ensures "All" !in Genres
  {
  }

  /** The values of the five star buttons. */
  const StarValues: seq<int> := [1, 2, 3, 4, 5]

  /** The form's state record. */
  datatype Fields = Fields(title: string, author: string, genre: string, rating: int, description: string)

  /** Empty strings and rating 0, as the form starts and after each submission. */
  const Initial: Fields := Fields("", "", "", 0, "")

  /** All five values are truthy: strings non-empty and the rating non-zero. */
  predicate ReadyToSubmit(f: Fields)
  {
    f.title != "" && f.author != "" && f.genre != "" && f.rating != 0 && f.description != ""
  }

  /** The object `onAddBook` receives. */
  function Draft(f: Fields): BookDraft
  {
    BookDraft(f.title, f.author, f.genre, f.rating, f.description)
  }

  /** What the widgets can put in the genre and rating fields. */
  predicate Reachable(f: Fields)
  {
    (f.genre == "" || f.genre in Genres) && (f.rating == 0 || f.rating in StarValues)
  }

  /** A submitted draft always has a listed genre and a rating from 1 to 5. */
  lemma SubmittedDraftInRange(f: Fields)
    requires Reachable(f) && ReadyToSubmit(f)
    ensures Draft(f).genre in Genres
    ensures 1 <= Draft(f).rating <= 5
  {
  }

  /** Right after a reset nothing more is submitted. */
  lemma ResetBlocksResubmit()
    ensures !ReadyToSubmit(Initial)
  {
  }

  class Form {
    var title: string
    var author: string
    var genre: string
    var rating: int
    var description: string

    function State(): Fields
      reads this
    {
      Fields(title, author, genre, rating, description)
    }

    ghost predicate Valid()
      reads this
    {
      Reachable(State())
    }

    constructor ()
      ensures State() == Initial && Valid()
    {
      title, author, genre, rating, description := "", "", "", 0, "";
    }

    /** The title input's `onChange`. */
    method SetTitle(v: string)
      requires Valid()
      modifies this
      ensures Valid() && State() == old(State()).(title := v)
    {
      title := v;
    }

    /** The author input's `onChange`. */
    method SetAuthor(v: string)
      requires Valid()
      modifies this
      ensures Valid() && State() == old(State()).(author := v)
    {
      author := v;
    }

    /** The description textarea's `onChange`. */
    method SetDescription(v: string)
      requires Valid()
      modifies this
      ensures Valid() && State() == old(State()).(description := v)
    {
      description := v;
    }

    /** The select's `onValueChange`; its items are exactly the listed genres. */
    method SelectGenre(g: string)
      requires Valid() && g in Genres
      modifies this
      ensures Valid() && State() == old(State()).(genre := g)
    {
      genre := g;
    }

    /** The click handler of star button `star`. */
    method ClickStar(star: int)
      requires Valid() && star in StarValues
      modifies this
      ensures Valid() && State() == old(State()).(rating := star)
      ensures 1 <= rating <= 5
    {
      rating := star;
    }

    /** `handleSubmit`: with all five fields truthy, hands the current values to
        the callback (the result) and resets every field; otherwise does nothing. */
    method HandleSubmit() returns (submitted: Option<BookDraft>)
      requires Valid()
      modifies this
      ensures Valid()
      ensures ReadyToSubmit(old(State())) ==> submitted == Some(Draft(old(State()))) && State() == Initial
      ensures !ReadyToSubmit(old(State())) ==> submitted == None && State() == old(State())
      ensures submitted.Some? ==> submitted.value.genre in Genres && 1 <= submitted.value.rating <= 5
    {
      if title != "" && author != "" && genre != "" && rating != 0 && description != "" {
        submitted := Some(BookDraft(title, author, genre, rating, description));
        title := "";
        author := "";
        genre := "";
        rating := 0;
        description := "";
      } else {
        submitted := None;
      }
    }
  }

  /** Two submissions in a row: the second never calls back. */
  method SubmitTwice(form: Form) returns (first: Option<BookDraft>, second: Option<BookDraft>)
    requires form.Valid()
    modifies form
    ensures second == None
    ensures first == (if ReadyToSubmit(old(form.State())) then Some(Draft(old(form.State()))) else None)
  {
    first := form.HandleSubmit();
    second := form.HandleSubmit();
    if first.Some? {
      ResetBlocksResubmit();
    }
  }
}
