/** Pens: colours, attributes and what a given terminal can show of them (surface.h, blit.cpp). */
module Styles {
  import opened Wrappers

  datatype Color = Default | Indexed(index: Byte) | Rgb(r: Byte, g: Byte, b: Byte)

  /** The attribute bit-set, one field per bit. */
  datatype Attrs = Attrs(bold: bool, dim: bool, italic: bool, underline: bool,
                         undercurl: bool, strikethrough: bool, reverse: bool)
  {
    function Minus(other: Attrs): Attrs {
      Attrs(bold && !other.bold, dim && !other.dim, italic && !other.italic,
            underline && !other.underline, undercurl && !other.undercurl,
            strikethrough && !other.strikethrough, reverse && !other.reverse)
    }
  }

  const NO_ATTRS := Attrs(false, false, false, false, false, false, false)

  datatype Style = Style(fg: Color, bg: Color, attrs: Attrs) {
    /** Underline and undercurl are one attribute at the terminal; a pen holding both is unsayable. */
    predicate TwoUnderlines() {
      attrs.underline && attrs.undercurl
    }
  }

  const DEFAULT_STYLE := Style(Default, Default, NO_ATTRS)

  datatype ColorDepth = Monochrome | Indexed256 | Truecolor

  datatype Capabilities = Capabilities(colors: ColorDepth, undercurl: bool)

  /** The level of the xterm cube nearest to a channel, as its index; the lower one on a tie. */
  function NearestLevel(v: Byte): (i: nat)
    ensures i < 6
  {
    if v <= 47 then 0 else if v <= 115 then 1 else if v <= 155 then 2
    else if v <= 195 then 3 else if v <= 235 then 4 else 5
  }

  function Level(i: nat): nat
    requires i < 6
  {
    if i == 0 then 0 else 55 + 40 * i
  }

  function Squared(a: int, b: int, c: int): int {
    a * a + b * b + c * c
  }

  /** The 256-colour downmap: the cube or the grey ramp, whichever is nearer. */
  function QuantizeTo256(r: Byte, g: Byte, b: Byte): Byte {
    var ri, gi, bi := NearestLevel(r), NearestLevel(g), NearestLevel(b);
    var cube := Squared(r - Level(ri), g - Level(gi), b - Level(bi));
    var average := (r + g + b) / 3;
    var raw := if average < 8 then 0 else (average - 8 + 5) / 10;
    var step := if raw > 23 then 23 else raw;
    var grey := 8 + 10 * step;
    if Squared(r - grey, g - grey, b - grey) < cube then 232 + step else 16 + 36 * ri + 6 * gi + bi
  }

  function Quantized(caps: Capabilities, c: Color): Color {
    if c.Rgb? && !caps.colors.Truecolor? then Indexed(QuantizeTo256(c.r, c.g, c.b)) else c
  }

  /** A pen as the terminal holds it once the emitter has sent it. */
  function Sent(caps: Capabilities, s: Style): Style {
    Style(Quantized(caps, s.fg), Quantized(caps, s.bg), s.attrs)
  }

  /** What the emitter means by a pen on this terminal. */
  function Resolved(caps: Capabilities, raw: Style): Style {
    var s := if caps.colors.Monochrome? then Style(Default, Default, raw.attrs) else raw;
    if !caps.undercurl && s.attrs.undercurl
    then s.(attrs := s.attrs.(undercurl := false, underline := true))
    else s
  }

  /** What the terminal shows for a pen the surface stores. */
  function Shown(caps: Capabilities, raw: Style): Style {
    Sent(caps, Resolved(caps, raw))
  }
}
