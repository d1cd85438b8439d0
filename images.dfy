/**
 * Shared vocabulary of the stereogram codec: 8-bit samples, colour pixels,
 * row-major pixel grids (the OpenCV `Mat`s the controllers read and write),
 * the stereogram record, and the integer division of the JVM.
 */
module Images {

  datatype Option<T> = None | Some(value: T)

  /** An unsigned 8-bit sample, as read with `toInt() and 0xFF`. */
  type Byte = b: int | 0 <= b < 256

  /** One pixel of a three-channel `CV_8UC3` image, in OpenCV's BGR order. */
  datatype Pixel = Pixel(blue: Byte, green: Byte, red: Byte)

  /** A `height` x `width` image; `rows[y][x]` is the pixel at column `x` of scanline `y`. */
  datatype Grid<T> = Grid(width: nat, height: nat, rows: seq<seq<T>>)
  {
    predicate Valid() {
      |rows| == height && forall y :: 0 <= y < height ==> |rows[y]| == width
    }

    /** `Mat.empty()`: an image without any pixel. */
    predicate IsEmpty() {
      width == 0 || height == 0
    }
  }

  /**
   * What a stereogram level carries into the encoders: its name, an optional
   * depth map (255 = nearest), the eye separation and focal length in pixels,
   * and an optional pattern texture (absent = random dots).
   */
  datatype Stereogram = Stereogram(
    name: string,
    depthMap: Option<Grid<Byte>>,
    eyeSep: int,
    focalLen: int,
    texture: Option<Grid<Pixel>>)

  /**
   * Kotlin's `Int` division: the quotient is truncated toward zero, unlike
   * Dafny's Euclidean `/`.
   */
  function Quot(a: int, b: int): (q: int)
    requires b != 0
    ensures a >= 0 && b > 0 ==> q == a / b
    ensures a < 0 && b > 0 ==> q == -((-a) / b)
  {
    if (a >= 0) == (b > 0) then Abs(a) / Abs(b) else -(Abs(a) / Abs(b))
  }

  function Abs(a: int): nat {
    if a < 0 then -a else a
  }

  /** Multiplying by a non-negative factor keeps an inequality. */
  lemma MulLeq(a: int, b: int, c: nat)
    requires a <= b
    ensures a * c <= b * c
  {
  }

  /** The unsigned value of the low eight bits kept by `Int.toByte()`. */
  function ToByte(v: int): (b: Byte)
    ensures 0 <= v < 256 ==> b == v
    ensures (v - b) % 256 == 0
  {
    v % 256
  }
}
