/** The display image of src/proton/proton-image.c: an RGB byte buffer that
    only ever grows. `proton_image_realloc` keeps the buffer when the new
    picture fits and otherwise replaces it by one half as large again as
    needed. The policy is stated on values (`Stored`, `ReallocOutcome`) and the
    class `ImageSlot` changes its image exactly as `ReallocOutcome` says.

    Sizes are unbounded integers: the 64-bit products of the source are
    assumed not to overflow. */
module ProtonImage {
  import opened Wrappers

  /** Bytes needed for a `width` x `height` picture, three per pixel
      (proton-image.c:29). */
  function Needed(width: int, height: int): int
  {
    3 * width * height
  }

  /** The size the source allocates when the buffer must grow
      (proton-image.c:33): `(3 * N) / 2` with C's truncating division. */
  function GrownWidth(n: int): (w: int)
    ensures n > 0 ==> w >= n
    ensures n >= 0 ==> w >= 0
  {
    if n >= 0 then (3 * n) / 2 else -((-3 * n) / 2)
  }

  /** What an image holds apart from its pixels. */
  datatype Stored = Stored(width: int, height: int, bufwidth: nat)

  /** The status returned and the image left behind. */
  datatype Outcome = Outcome(failed: bool, img: Option<Stored>)

  /** `proton_image_realloc` as written (proton-image.c:27-40). `None`
      stands for the write through a NULL image at proton-image.c:38, which
      happens when there is no image yet and nothing needs allocating.
      `allocOk` is whether malloc succeeds. */
  function ReallocAsWritten(img: Option<Stored>, width: int, height: int, allocOk: bool): (r: Option<Outcome>)
    ensures r == None <==> img == None && Needed(width, height) <= 0
  {
    var n := Needed(width, height);
    var nOld := if img.Some? then img.value.bufwidth else 0;
    if n > nOld then
      if allocOk then Some(Outcome(false, Some(Stored(width, height, GrownWidth(n)))))
      else Some(Outcome(true, None))
    else if img == None then None
    else Some(Outcome(false, Some(img.value.(width := width, height := height))))
  }

  /** The first call of the dose window (dose-window.cpp:202, with the image
      pointer still null from dose-window.cpp:239) may pass a zero height
      for a very wide window; the source then writes through NULL. */
  lemma ReallocAsWrittenZeroHeight()
    ensures ReallocAsWritten(None, 640, 0, true) == None
  {
  }

  /** `proton_image_realloc` as intended: an image is allocated whenever
      there is none, and otherwise only when the picture does not fit.
      A negative size is allocated as an empty buffer. */
  function ReallocOutcome(img: Option<Stored>, width: int, height: int, allocOk: bool): (r: Outcome)
    // the call fails only when it had to allocate and could not
    ensures r.failed <==> !allocOk && (img == None || Needed(width, height) > img.value.bufwidth)
    // a failure frees the old image
    ensures r.failed ==> r.img == None
    // a success sets the dimensions and leaves room for the picture
    ensures !r.failed ==> r.img.Some? && r.img.value.width == width && r.img.value.height == height
    ensures !r.failed ==> r.img.value.bufwidth >= Needed(width, height)
    // a picture that fits keeps the buffer
    ensures img.Some? && Needed(width, height) <= img.value.bufwidth ==>
      r == Outcome(false, Some(Stored(width, height, img.value.bufwidth)))
    // the buffer never shrinks
    ensures img.Some? && !r.failed ==> r.img.value.bufwidth >= img.value.bufwidth
  {
    var n := Needed(width, height);
    if img == None || n > img.value.bufwidth then
      if allocOk then Outcome(false, Some(Stored(width, height, if n > 0 then GrownWidth(n) else 0)))
      else Outcome(true, None)
    else Outcome(false, Some(img.value.(width := width, height := height)))
  }

  /** Wherever the source does not write through NULL, the intended
      behaviour is the one it has. */
  lemma ReallocAgrees(img: Option<Stored>, width: int, height: int, allocOk: bool)
    requires ReallocAsWritten(img, width, height, allocOk) != None
    ensures ReallocAsWritten(img, width, height, allocOk) == Some(ReallocOutcome(img, width, height, allocOk))
  {
  }

  /** A sequence of successful calls only ever grows the buffer, and the
      last picture always fits. */
  lemma {:induction false} ReallocSequenceGrows(img: Stored, sizes: seq<(int, int)>)
    ensures ReallocAll(Some(img), sizes).Some?
    ensures ReallocAll(Some(img), sizes).value.bufwidth >= img.bufwidth
    ensures |sizes| > 0 ==> ReallocAll(Some(img), sizes).value.bufwidth >= Needed(sizes[|sizes| - 1].0, sizes[|sizes| - 1].1)
    decreases |sizes|
  {
    if |sizes| > 0 {
      var r := ReallocOutcome(Some(img), sizes[0].0, sizes[0].1, true);
      ReallocSequenceGrows(r.img.value, sizes[1..]);
      if |sizes| > 1 {
        assert sizes[1..][|sizes[1..]| - 1] == sizes[|sizes| - 1];
      }
    }
  }

  /** The image after successful calls with the given sizes. */
  function ReallocAll(img: Option<Stored>, sizes: seq<(int, int)>): Option<Stored>
    decreases |sizes|
  {
    if sizes == [] then img
    else ReallocAll(ReallocOutcome(img, sizes[0].0, sizes[0].1, true).img, sizes[1..])
  }

  /** `struct _proton_image` (proton-image.c:5-9). */
  class Image {
    /** `dim[0]` and `dim[1]`. */
    var width: int
    var height: int
    /** The capacity of `buf` in bytes. */
    const bufwidth: nat
    const buf: array<bv8>

    predicate Valid()
      reads this
    {
      buf.Length == bufwidth
    }

    /** What the image holds apart from its pixels. */
    function Contents(): Stored
      reads this
    {
      Stored(width, height, bufwidth)
    }

    /** `proton_image_flexible_alloc(N)` (proton-image.c:11-19) when malloc
        succeeds; the dimensions are set by the caller afterwards. */
    constructor (n: nat)
      ensures Valid() && bufwidth == n && fresh(buf)
    {
      bufwidth := n;
      buf := new bv8[n](_ => 0);
      width, height := 0, 0;
    }

    /** `proton_image_dimension(img, dim)` (proton-image.c:47-50). */
    function Dimension(dim: nat): int
      requires dim < 2
      reads this
    {
      if dim == 0 then width else height
    }

    /** `proton_image_empty` (proton-image.c:57-60): the image has no
        pixels. */
    predicate Empty()
      reads this
      ensures Empty() <==> Dimension(0) * Dimension(1) == 0
    {
      width == 0 || height == 0
    }
  }

  /** The `ProtonImage *` that callers hand to `proton_image_realloc` by
      address. */
  class ImageSlot {
    var img: Image?

    predicate Valid()
      reads this, img
    {
      img != null ==> img.Valid()
    }

    function Observe(): Option<Stored>
      reads this, img
    {
      if img == null then None else Some(img.Contents())
    }

    constructor ()
      ensures Valid() && img == null
    {
      img := null;
    }

    /** `proton_image_realloc(&img, width, height)` (proton-image.c:27-40),
        with the missing allocation for a first call fixed (see `ReallocOutcome`).
        `allocOk` is whether malloc succeeds. A picture that fits is drawn
        into the same image and buffer. */
    method Realloc(width: int, height: int, allocOk: bool) returns (failed: bool)
      requires Valid()
      modifies this, img
      ensures Valid()
      ensures Outcome(failed, Observe()) == ReallocOutcome(old(Observe()), width, height, allocOk)
      ensures old(img) != null && img == old(img) ==> img.buf == old(img.buf)
      ensures img != null && img != old(img) ==> fresh(img)
    {
      var n := Needed(width, height);
      if img == null || n > img.bufwidth {
        if allocOk {
          img := new Image(if n > 0 then GrownWidth(n) else 0);
        } else {
          img := null;
          return true;
        }
      }
      img.width, img.height := width, height;
      return false;
    }
  }
}
