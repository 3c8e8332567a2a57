/** The product image carousel (`components/DetalleProducto/ImageCarousel.tsx`, with an
    identical copy inside `components/DetalleProducto/Detalle.tsx`): an index into the
    image list that the arrows move round the list, and thumbnails that jump to their
    own position.
 */
module Carousel {
  import opened Results

  /** JavaScript's `%`: the remainder takes the sign of the dividend. */
  function JsRem(a: int, n: int): (r: int)
    requires n > 0
    ensures a >= 0 ==> 0 <= r < n && r == a % n
    ensures a < 0 ==> -n < r <= 0 && r == -((-a) % n)
  {
    if a >= 0 then a % n else -((-a) % n)
  }

  /** `nextImage`. The arrows are drawn only for a non-empty list. */
  function Next(i: int, n: int): (r: int)
    requires n > 0
    ensures 0 <= i ==> 0 <= r < n
    ensures 0 <= i < n - 1 ==> r == i + 1
    ensures i == n - 1 ==> r == 0
  {
    if 0 <= i < n then ModShift(i + 1, n); JsRem(i + 1, n)
    else JsRem(i + 1, n)
  }

  /** `prevImage`. */
  function Prev(i: int, n: int): (r: int)
    requires n > 0
    ensures 0 <= i ==> 0 <= r < n
    ensures 1 <= i <= n ==> r == i - 1
    ensures i == 0 ==> r == n - 1
  {
    if 0 <= i <= n then ModShift(i - 1 + n, n); JsRem(i - 1 + n, n)
    else JsRem(i - 1 + n, n)
  }

  /** A remainder below twice the divisor takes off the divisor at most once. */
  lemma ModShift(a: int, n: int)
    requires n > 0 && 0 <= a < 2 * n
    ensures a % n == if a < n then a else a - n
  {
    MulCases(a / n, n);
  }

  lemma MulCases(q: int, n: int)
    requires n > 0
    ensures q >= 2 ==> q * n >= 2 * n
    ensures q <= -1 ==> q * n <= -n
    ensures q == 0 ==> q * n == 0
    ensures q == 1 ==> q * n == n
  {
  }

  /** On a valid index the arrows undo each other. */
  lemma NextPrevInverse(i: int, n: int)
    requires n > 0 && 0 <= i < n
    ensures Prev(Next(i, n), n) == i
    ensures Next(Prev(i, n), n) == i
  {
  }

  /** `k` presses of the right arrow. */
  function NextTimes(i: int, n: int, k: nat): (r: int)
    requires n > 0
    ensures 0 <= i ==> k > 0 ==> 0 <= r < n
  {
    if k == 0 then i else Next(NextTimes(i, n, k - 1), n)
  }

  /** Pressing the right arrow `k` times, for `k` up to the list's length, advances a
      valid index by `k` and wraps once past the end. */
  lemma {:induction false} NextTimesAdvances(i: int, n: int, k: nat)
    requires n > 0 && 0 <= i < n && k <= n
    ensures NextTimes(i, n, k) == if i + k < n then i + k else i + k - n
  {
    if k > 0 {
      NextTimesAdvances(i, n, k - 1);
    }
  }

  /** Going right once per image comes back to the start. */
  lemma FullTurn(i: int, n: int)
    requires n > 0 && 0 <= i < n
    ensures NextTimes(i, n, n as nat) == i
  {
    NextTimesAdvances(i, n, n as nat);
  }

  /** What the main area shows: the placeholder for an empty list, otherwise the image
      at the index (JavaScript gives `undefined` past the end). */
  datatype Main = Placeholder | Picture(url: Option<string>)

  function Shown(images: seq<string>, current: int): (m: Main)
    ensures m.Placeholder? <==> |images| == 0
    ensures |images| > 0 && 0 <= current < |images| ==> m == Picture(Some(images[current]))
  {
    if |images| == 0 then Placeholder
    else if 0 <= current < |images| then Picture(Some(images[current]))
    else Picture(None)
  }

  /** One thumbnail per image: its image and whether it carries the ring. */
  datatype Thumb = Thumb(url: string, ringed: bool)

  function Thumbnails(images: seq<string>, current: int): (r: seq<Thumb>)
    ensures |r| == |images|
    ensures forall k :: 0 <= k < |images| ==> r[k].url == images[k]
    ensures forall k :: 0 <= k < |images| ==> (r[k].ringed <==> k == current)
  {
    seq(|images|, k requires 0 <= k < |images| => Thumb(images[k], k == current))
  }

  /** Clicking thumbnail `k` moves the index to `k`. */
  function SelectThumb(images: seq<string>, k: nat): (r: int)
    requires k < |images|
    ensures 0 <= r < |images|
    ensures Shown(images, r) == Picture(Some(images[k]))
  {
    k
  }

  /** After a thumbnail click exactly that thumbnail is ringed, and the arrows then move
      away from it and back. */
  lemma SelectThenRing(images: seq<string>, k: nat)
    requires k < |images|
    ensures var t := Thumbnails(images, SelectThumb(images, k));
      t[k].ringed && forall j :: 0 <= j < |t| && j != k ==> !t[j].ringed
    ensures Prev(Next(SelectThumb(images, k), |images|), |images|) == k
  {
    NextPrevInverse(k, |images|);
  }
}
