/** The display rules of one book card: the truncated description, the "New"
    badge and the five rating stars, and the argument of the like button. */
module BookCard {
  import opened Books

  const Ellipsis: string := "..."

  /** Descriptions are cut at this many characters. */
  const DescriptionLimit: int := 150

  /** `1000 * 60 * 60 * 24` */
  const MsPerDay: int := 86_400_000

  /** A book stays "New" while whole days since its creation are at most this. */
  const RecentDays: int := 3

  /** Number of stars rendered per card. */
  const StarCount: nat := 5

  function Max(a: int, b: int): int { if a < b then b else a }

  function Clamp(x: int, lo: int, hi: int): int
    requires lo <= hi
  {
    if x < lo then lo else if x > hi then hi else x
  }

  /** End position `text.slice(0, end)` uses: a negative `end` counts from the back. */
  function SliceEnd(len: nat, end: int): (r: nat)
    ensures r <= len
    ensures 0 <= end ==> r == if end < len then end else len
  {
    if end < 0 then Max(0, len + end) else if end < len then end else len
  }

  /** `truncateText`: short text unchanged, longer text cut and marked with "...". */
  function TruncateText(text: string, maxLength: int): (r: string)
    ensures |text| <= maxLength ==> r == text
    ensures 0 <= maxLength < |text| ==>
              |r| == maxLength + 3 && r[..maxLength] == text[..maxLength] && r[maxLength..] == Ellipsis
    ensures 0 <= maxLength ==> |r| <= maxLength + 3
  {
    if |text| <= maxLength then text else text[..SliceEnd(|text|, maxLength)] + Ellipsis
  }

  /** The description as a card shows it. */
  function ShownDescription(b: Book): (r: string)
    ensures |r| <= DescriptionLimit + 3
    ensures |b.description| <= DescriptionLimit ==> r == b.description
    ensures |b.description| > DescriptionLimit ==>
              |r| == DescriptionLimit + 3 && r[..DescriptionLimit] == b.description[..DescriptionLimit] &&
              r[DescriptionLimit..] == Ellipsis
  {
    TruncateText(b.description, DescriptionLimit)
  }

  /** `isRecent`, with the clock reading `now` and the creation time in milliseconds:
      `Math.floor((now - addedAt) / MsPerDay) <= 3`. For a positive divisor Dafny's
      integer division is the floor of the exact quotient. */
  function IsRecent(addedAt: int, now: int): (r: bool)
    ensures r <==> now - addedAt < (RecentDays + 1) * MsPerDay
    ensures addedAt >= now ==> r
  {
    (now - addedAt) / MsPerDay <= RecentDays
  }

  /** The fill rule of star `i` (0-based): `i < book.rating`. */
  predicate StarFilled(i: int, rating: int)
  {
    i < rating
  }

  /** The fill state of the first `n` stars. */
  function StarRow(n: nat, rating: int): (r: seq<bool>)
    ensures |r| == n
    ensures forall i :: 0 <= i < n ==> (r[i] <==> StarFilled(i, rating))
  {
    if n == 0 then [] else StarRow(n - 1, rating) + [StarFilled(n - 1, rating)]
  }

  /** The five stars of a card. */
  function Stars(rating: int): seq<bool>
  {
    StarRow(StarCount, rating)
  }

  function CountFilled(s: seq<bool>): nat
  {
    if s == [] then 0 else CountFilled(s[..|s| - 1]) + (if s[|s| - 1] then 1 else 0)
  }

  lemma {:induction false} StarRowCount(n: nat, rating: int)
    ensures CountFilled(StarRow(n, rating)) == Clamp(rating, 0, n)
  {
    if n > 0 {
      StarRowCount(n - 1, rating);
      assert StarRow(n, rating)[..n - 1] == StarRow(n - 1, rating);
    }
  }

  /** Exactly `clamp(rating, 0, 5)` stars are filled, and the filled ones come first. */
  lemma FilledStars(rating: int)
    ensures CountFilled(Stars(rating)) == Clamp(rating, 0, StarCount)
    ensures forall i, j :: 0 <= i < j < StarCount && Stars(rating)[j] ==> Stars(rating)[i]
  {
    StarRowCount(StarCount, rating);
  }

  /** The like button calls `onLike(book.id)`. */
  function LikeButtonArgument(b: Book): string
  {
    b.id
  }
}
