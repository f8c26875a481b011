/** Pixels and the images the viewer hands to the imaging library.

    The imaging library itself is foreign code: its operations (`Image.new`,
    `Image.fromarray`, `convert`, `alpha_composite`) are kept as uninterpreted
    constructors of `Image`, so a composited frame is the term that names how
    it was built, not a pixel buffer. */
module Raster {

  /** An RGBA quadruple; every component is 0..255 in a well-formed colour. */
  datatype Color = Color(r: int, g: int, b: int, a: int)

  predicate IsByte(x: int) {
    0 <= x <= 255
  }

  predicate WellFormed(c: Color) {
    IsByte(c.r) && IsByte(c.g) && IsByte(c.b) && IsByte(c.a)
  }

  const Transparent := Color(0, 0, 0, 0)
  const OpaqueBlack := Color(0, 0, 0, 255)

  datatype Mode = L | RGB | RGBA

  datatype Image =
    /** `Image.new(mode, (width, height), fill)`; for an RGB image the fill's
        alpha is not used. */
    | Filled(mode: Mode, width: nat, height: nat, fill: Color)
    /** `Image.fromarray(a)` of a 2-D uint8 array (mode L) */
    | FromGray(gray: seq<seq<int>>)
    /** `Image.fromarray(a, 'RGBA')` of an H x W x 4 uint8 array */
    | FromRgba(pixels: seq<seq<Color>>)
    /** `source.convert(mode)` */
    | Converted(mode: Mode, source: Image)
    /** `Image.alpha_composite(dst, src)`: src drawn over dst */
    | AlphaComposited(dst: Image, src: Image)
}
