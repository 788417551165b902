/**
 * `XamlColor`: an 8-bit-per-channel ARGB colour and its packing in a 32-bit
 * hex value 0xAARRGGBB. Shifts and masks on the `u32` are written as
 * division and remainder by powers of two, which is what they compute on an
 * unsigned value.
 */
module Xaml {
  import opened Ints

  datatype XamlColor = XamlColor(a: U8, r: U8, g: U8, b: U8)

  /** `argb`. */
  function Argb(a: U8, r: U8, g: U8, b: U8): (c: XamlColor)
    ensures c.a == a && c.r == r && c.g == g && c.b == b
  {
    XamlColor(a, r, g, b)
  }

  /** `rgb`: fully opaque. */
  function Rgb(r: U8, g: U8, b: U8): (c: XamlColor)
    ensures c == Argb(255, r, g, b)
  {
    XamlColor(255, r, g, b)
  }

  /** The hex value 0xAARRGGBB of a colour. */
  function Packed(c: XamlColor): (h: U32)
  {
    c.a * 0x100_0000 + c.r * 0x1_0000 + c.g * 0x100 + c.b
  }

  /** `(hex >> shift) & 0xFF`. */
  function ByteAt(hex: U32, shift: nat): U8
    requires shift in {0, 8, 16, 24}
  {
    var d := if shift == 0 then 1 else if shift == 8 then 0x100 else if shift == 16 then 0x1_0000 else 0x100_0000;
    (hex / d) % 0x100
  }

  /** `from_argb_hex`: the four bytes of `hex`, alpha in the top byte. */
  function FromArgbHex(hex: U32): (c: XamlColor)
    ensures Packed(c) == hex
  {
    var c := XamlColor(ByteAt(hex, 24), ByteAt(hex, 16), ByteAt(hex, 8), ByteAt(hex, 0));
    assert Packed(c) == hex by { PackedBytes(hex); }
    c
  }

  lemma PackedBytes(hex: U32)
    ensures ByteAt(hex, 24) * 0x100_0000 + ByteAt(hex, 16) * 0x1_0000 + ByteAt(hex, 8) * 0x100
      + ByteAt(hex, 0) == hex
  {
    var x0 := hex / 0x100;
    var x1 := x0 / 0x100;
    var x2 := x1 / 0x100;
    assert hex == x0 * 0x100 + hex % 0x100;
    assert x0 == x1 * 0x100 + x0 % 0x100;
    assert x1 == x2 * 0x100 + x1 % 0x100;
    assert hex / 0x1_0000 == x1;
    assert hex / 0x100_0000 == x2;
    assert x2 < 0x100;
  }

  /** Packing a colour and reading it back gives the same colour. */
  lemma FromArgbHexPacked(c: XamlColor)
    ensures FromArgbHex(Packed(c)) == c
  {
    var h := Packed(c);
    var h1 := c.a * 0x1_0000 + c.r * 0x100 + c.g;
    var h2 := c.a * 0x100 + c.r;
    DivUnique(h, 0x100, h1, c.b);
    DivUnique(h1, 0x100, h2, c.g);
    DivUnique(h, 0x1_0000, h2, c.g * 0x100 + c.b);
    DivUnique(h2, 0x100, c.a, c.r);
    DivUnique(h, 0x100_0000, c.a, c.r * 0x1_0000 + c.g * 0x100 + c.b);
    DivUnique(c.a, 0x100, 0, c.a);
  }

  /** `from_rgb_hex`: red, green and blue from the low three bytes; the top
      byte is ignored and alpha is 255. */
  function FromRgbHex(hex: U32): (c: XamlColor)
    ensures c == FromArgbHex(hex).(a := 255)
  {
    XamlColor(255, ByteAt(hex, 16), ByteAt(hex, 8), ByteAt(hex, 0))
  }

  /** For a value that fits in 24 bits, `from_rgb_hex(h)` is
      `from_argb_hex(0xFF000000 | h)` (the OR is a sum on disjoint bits). */
  lemma RgbHexIsOpaqueArgbHex(h: U32)
    requires h < 0x100_0000
    ensures FromArgbHex(0xFF00_0000 + h) == FromRgbHex(h)
  {
    var c := FromRgbHex(h);
    assert c == XamlColor(255, ByteAt(h, 16), ByteAt(h, 8), ByteAt(h, 0));
    PackedBytes(h);
    assert ByteAt(h, 24) == 0;
    assert Packed(c) == 0xFF00_0000 + h;
    FromArgbHexPacked(c);
  }

  /** `from_rgb_hex(0xFF8040)` is `rgb(255, 128, 64)`. */
  lemma RgbHexExample()
    ensures FromRgbHex(0xFF8040) == Rgb(255, 128, 64)
  {
  }
}
