/** Pixel formats of the RFB protocol (section 7.4 of RFC 6143) and how a
    colour is encoded in one. */
module PixelFormats {
  import opened Common
  import opened Bits
  import opened Endian

  /** One colour component: its largest value and where it starts in the pixel. */
  datatype Channel = Channel(max: Word16, shift: Byte)

  datatype PixelFormat = PixelFormat(
    bitsPerPixel: Byte, depth: Byte, bigEndian: bool, trueColour: bool,
    red: Channel, green: Channel, blue: Channel)

  const DEFAULT := PixelFormat(32, 24, false, true, Channel(255, 16), Channel(255, 8), Channel(255, 0))

  function Supported(f: PixelFormat): bool {
    f.trueColour && (f.bitsPerPixel == 8 || f.bitsPerPixel == 16 || f.bitsPerPixel == 32)
  }

  function BytesPerPixel(f: PixelFormat): nat { f.bitsPerPixel / 8 }

  // ----- on the wire

  function Be16(v: Word16): seq<Byte> { [v / 256, v % 256] }

  function FromBe16(hi: Byte, lo: Byte): Word16 { hi * 256 + lo }

  function ToBytes(f: PixelFormat): (b: seq<Byte>)
    ensures |b| == 16
  {
    [f.bitsPerPixel, f.depth, if f.bigEndian then 1 else 0, if f.trueColour then 1 else 0]
    + Be16(f.red.max) + Be16(f.green.max) + Be16(f.blue.max)
    + [f.red.shift, f.green.shift, f.blue.shift, 0, 0, 0]
  }

  function FromBytes(b: seq<Byte>): PixelFormat
    requires |b| == 16
  {
    PixelFormat(b[0], b[1], b[2] != 0, b[3] != 0,
                Channel(FromBe16(b[4], b[5]), b[10]), Channel(FromBe16(b[6], b[7]), b[11]),
                Channel(FromBe16(b[8], b[9]), b[12]))
  }

  lemma FormatSurvivesTheWire(f: PixelFormat)
    ensures FromBytes(ToBytes(f)) == f
  {
  }

  // ----- encoding

  function Component(rgb: Word32, place: nat): nat
    requires place < 3
  {
    if place == 0 then rgb / 0x10000 % 256 else if place == 1 then rgb / 0x100 % 256 else rgb % 256
  }

  function Scaled(component: nat, max: nat): nat { component * max / 255 }

  /** A component at its place in a 32-bit word; bits shifted out are lost. */
  function Shifted(v: nat, c: Channel): nat { v * Pow2(c.shift) % Pow2(32) }

  function PixelValue(f: PixelFormat, rgb: Word32): nat {
    BitOr(BitOr(BitOr(0, Shifted(Scaled(Component(rgb, 0), f.red.max), f.red)),
                Shifted(Scaled(Component(rgb, 1), f.green.max), f.green)),
          Shifted(Scaled(Component(rgb, 2), f.blue.max), f.blue))
  }

  function Reverse(b: seq<Byte>): (r: seq<Byte>)
    ensures |r| == |b|
  {
    if b == [] then [] else Reverse(b[1..]) + [b[0]]
  }

  function Encode(f: PixelFormat, rgb: Word32): (b: seq<Byte>)
    ensures |b| == BytesPerPixel(f)
  {
    var bytes := LeBytes(PixelValue(f, rgb), BytesPerPixel(f));
    if f.bigEndian then Reverse(bytes) else bytes
  }

  // ----- what a client makes of it

  function Received(f: PixelFormat, b: seq<Byte>): nat {
    FromLe(if f.bigEndian then Reverse(b) else b)
  }

  lemma {:induction false} ReverseAppend(b: seq<Byte>, x: Byte)
    ensures Reverse(b + [x]) == [x] + Reverse(b)
    decreases |b|
  {
    if b == [] {
    } else {
      assert (b + [x])[1..] == b[1..] + [x];
      ReverseAppend(b[1..], x);
    }
  }

  lemma {:induction false} ReverseTwice(b: seq<Byte>)
    ensures Reverse(Reverse(b)) == b
    decreases |b|
  {
    if b == [] {
    } else {
      ReverseTwice(b[1..]);
      ReverseAppend(Reverse(b[1..]), b[0]);
    }
  }

  /** A channel of `width` bits that holds all its values and fits in the pixel. */
  predicate Fits(c: Channel, width: nat, bits: nat) {
    c.max == Pow2(width) - 1 && c.shift + width <= bits
  }

  predicate Apart(c: Channel, w: nat, d: Channel, v: nat) {
    c.shift + w <= d.shift || d.shift + v <= c.shift
  }

  /** A format whose channels have whole bits of their own, as every true-colour format in use. */
  predicate Proper(f: PixelFormat, w: (nat, nat, nat)) {
    && Supported(f)
    && Fits(f.red, w.0, f.bitsPerPixel) && Fits(f.green, w.1, f.bitsPerPixel) && Fits(f.blue, w.2, f.bitsPerPixel)
    && Apart(f.red, w.0, f.green, w.1) && Apart(f.red, w.0, f.blue, w.2) && Apart(f.green, w.1, f.blue, w.2)
  }

  lemma ScaledFits(component: nat, max: nat)
    requires component < 256
    ensures Scaled(component, max) <= max
  {
    assert (255 - component) * max >= 0;
    assert component * max <= 255 * max;
  }

  /** A channel's value is where it belongs and contributes nothing elsewhere. */
  lemma ChannelField(v: nat, c: Channel, width: nat, s: nat, w: nat)
    requires v < Pow2(width) && c.shift + width <= 32 && s + w <= 32
    ensures s == c.shift && w == width ==> Field(Shifted(v, c), s, w) == v
    ensures (c.shift >= s + w || c.shift + width <= s) ==> Field(Shifted(v, c), s, w) == 0
  {
    hide Pow2, Field;
    FieldOfTruncated(v * Pow2(c.shift), 32, s, w);
    assert Shifted(v, c) == Mod(v * Pow2(c.shift), Pow2(32));
    if s == c.shift && w == width {
      FieldOfShifted(v, s, w);
    }
    if c.shift >= s + w || c.shift + width <= s {
      FieldElsewhere(v, c.shift, width, s, w);
    }
  }

  lemma ValueField(f: PixelFormat, w: (nat, nat, nat), rgb: Word32, s: nat, width: nat)
    requires Proper(f, w) && s + width <= f.bitsPerPixel
    ensures Field(Mod(PixelValue(f, rgb), Pow2(f.bitsPerPixel)), s, width)
         == BitOr(BitOr(Field(Shifted(Scaled(Component(rgb, 0), f.red.max), f.red), s, width),
                        Field(Shifted(Scaled(Component(rgb, 1), f.green.max), f.green), s, width)),
                  Field(Shifted(Scaled(Component(rgb, 2), f.blue.max), f.blue), s, width))
  {
    hide Pow2, Field, BitOr;
    var r := Shifted(Scaled(Component(rgb, 0), f.red.max), f.red);
    var g := Shifted(Scaled(Component(rgb, 1), f.green.max), f.green);
    var b := Shifted(Scaled(Component(rgb, 2), f.blue.max), f.blue);
    OrZero(r);
    FieldOfTruncated(PixelValue(f, rgb), f.bitsPerPixel, s, width);
    OrField(BitOr(r, g), b, s, width);
    OrField(r, g, s, width);
  }

  function Chan(f: PixelFormat, i: nat): Channel
    requires i < 3
  {
    if i == 0 then f.red else if i == 1 then f.green else f.blue
  }

  function WidthOf(w: (nat, nat, nat), i: nat): nat
    requires i < 3
  {
    if i == 0 then w.0 else if i == 1 then w.1 else w.2
  }

  /** What channel `j` contributes to the bits of channel `i`. */
  lemma Contribution(f: PixelFormat, w: (nat, nat, nat), rgb: Word32, j: nat, i: nat)
    requires Proper(f, w) && i < 3 && j < 3
    ensures Field(Shifted(Scaled(Component(rgb, j), Chan(f, j).max), Chan(f, j)), Chan(f, i).shift, WidthOf(w, i))
         == if i == j then Scaled(Component(rgb, j), Chan(f, j).max) else 0
  {
    hide Pow2, Field, Shifted, Scaled;
    assert Component(rgb, j) < 256 && Fits(Chan(f, j), WidthOf(w, j), f.bitsPerPixel)
      && Fits(Chan(f, i), WidthOf(w, i), f.bitsPerPixel);
    ScaledFits(Component(rgb, j), Chan(f, j).max);
    ChannelField(Scaled(Component(rgb, j), Chan(f, j).max), Chan(f, j), WidthOf(w, j), Chan(f, i).shift, WidthOf(w, i));
  }

  lemma ReceivedValue(f: PixelFormat, rgb: Word32)
    requires Supported(f)
    ensures Received(f, Encode(f, rgb)) == Mod(PixelValue(f, rgb), Pow2(f.bitsPerPixel))
  {
    hide Pow2, PixelValue, FromLe, LeBytes, Mod;
    var n := BytesPerPixel(f);
    ReverseTwice(LeBytes(PixelValue(f, rgb), n));
    FromLeBytes(PixelValue(f, rgb), n);
    assert 8 * n == f.bitsPerPixel;
  }

  /** What a client extracts from a pixel is each component scaled to its
      channel, for every proper format, either byte order and any pixel size. */
  lemma ClientGetsComponent(f: PixelFormat, w: (nat, nat, nat), rgb: Word32, i: nat)
    requires Proper(f, w) && i < 3
    ensures Field(Received(f, Encode(f, rgb)), Chan(f, i).shift, WidthOf(w, i))
         == Scaled(Component(rgb, i), Chan(f, i).max)
  {
    hide Pow2, Field, BitOr, Scaled, Shifted, Mod, Component, Received, Encode, PixelValue;
    assert Fits(Chan(f, i), WidthOf(w, i), f.bitsPerPixel);
    ReceivedValue(f, rgb);
    ValueField(f, w, rgb, Chan(f, i).shift, WidthOf(w, i));
    Contribution(f, w, rgb, 0, i);
    Contribution(f, w, rgb, 1, i);
    Contribution(f, w, rgb, 2, i);
    OrZero(Scaled(Component(rgb, i), Chan(f, i).max));
    OrZero(0);
  }

  lemma ScaledToBytes(component: nat)
    ensures Scaled(component, 255) == component
  {
  }

  lemma DefaultIsProper()
    ensures Proper(DEFAULT, (8, 8, 8))
  {
    assert Pow2(4) == 16;
    assert Pow2(8) == 256;
  }

  /** In the format the server offers a colour comes through unchanged. */
  lemma DefaultIsExact(rgb: Word32)
    requires rgb < 0x100_0000
    ensures var v := Received(DEFAULT, Encode(DEFAULT, rgb));
            rgb == Field(v, 16, 8) * 0x10000 + Field(v, 8, 8) * 0x100 + Field(v, 0, 8)
  {
    hide Pow2, Field, Scaled, Received, Encode, Proper;
    DefaultIsProper();
    ClientGetsComponent(DEFAULT, (8, 8, 8), rgb, 0);
    ClientGetsComponent(DEFAULT, (8, 8, 8), rgb, 1);
    ClientGetsComponent(DEFAULT, (8, 8, 8), rgb, 2);
    ScaledToBytes(Component(rgb, 0));
    ScaledToBytes(Component(rgb, 1));
    ScaledToBytes(Component(rgb, 2));
  }
}
