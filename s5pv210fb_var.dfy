/** The screen-parameter logic of the s5pv210 framebuffer driver: the bit-field table of
    check_var, the colour packing of chan_to_field and setcolreg, the visual and line length of
    set_par, and the cpufreq notifier's test. */
module S5pv210FbVar {
  import opened Fb
  import opened Wrappers

  // ---------------------------------------------------------------------------
  // check_var: the screen parameters and the RGB bit-field table
  // ---------------------------------------------------------------------------

  /** The red, green and blue fields of a var. */
  datatype Channels = Channels(red: Bitfield, green: Bitfield, blue: Bitfield)

  function ChannelsOf(v: VarScreenInfo): Channels { Channels(v.red, v.green, v.blue) }

  /** The depths check_var gives one shared channel (palette indices). */
  predicate PaletteDepth(bpp: u32) { bpp == 1 || bpp == 2 || bpp == 4 }

  /** The depths check_var gives three side-by-side channels. */
  predicate PackedDepth(bpp: u32) { bpp == 8 || bpp == 12 || bpp == 16 || bpp == 24 || bpp == 32 }

  /** The colour bits of a pixel: all of them, except the dummy top byte of a 32-bit pixel. */
  function ColourBits(bpp: u32): bv32
    requires PackedDepth(bpp)
  {
    if bpp == 8 then 8 else if bpp == 12 then 12 else if bpp == 16 then 16 else 24
  }

  /** Blue at bit 0, green just above blue, red just above green, 2 to 8 bits each, filling
      the pixel's colour bits. Together these make the three channels disjoint. */
  predicate Packed(c: Channels, bits: bv32)
  {
    2 <= c.red.length <= 8 && 2 <= c.green.length <= 8 && 2 <= c.blue.length <= 8 &&
    c.blue.offset == 0 && c.green.offset == c.blue.length &&
    c.red.offset == c.green.offset + c.green.length &&
    c.red.offset + c.red.length == bits
  }

  /** RGB 332, 444, 565 and 888. */
  const Rgb332 := Channels(Bitfield(5, 3), Bitfield(2, 3), Bitfield(0, 2))
  const Rgb444 := Channels(Bitfield(8, 4), Bitfield(4, 4), Bitfield(0, 4))
  const Rgb565 := Channels(Bitfield(11, 5), Bitfield(5, 6), Bitfield(0, 5))
  const Rgb888 := Channels(Bitfield(16, 8), Bitfield(8, 8), Bitfield(0, 8))

  /** The switch of check_var: the channels it sets for a depth, or None for the depths it
      leaves alone. */
  function ChannelTable(bpp: u32): (t: Option<Channels>)
    ensures t.Some? <==> PaletteDepth(bpp) || PackedDepth(bpp)
  {
    if bpp == 1 || bpp == 2 || bpp == 4 then
      var f := Bitfield(0, if bpp == 1 then 1 else if bpp == 2 then 2 else 4);
      Some(Channels(f, f, f))
    else if bpp == 8 then Some(Rgb332)
    else if bpp == 12 then Some(Rgb444)
    else if bpp == 16 then Some(Rgb565)
    else if bpp == 24 || bpp == 32 then Some(Rgb888)
    else None
  }

  /** For 1, 2 and 4 bpp the three channels are one and the same field, the whole pixel. */
  lemma PaletteDepthShared(bpp: u32)
    requires PaletteDepth(bpp)
    ensures ChannelTable(bpp).Some?
    ensures var c := ChannelTable(bpp).value;
            c.red.offset == 0 && c.red.length as int == bpp && c.green == c.red && c.blue == c.red
  {
  }

  /** The four layouts are packed. */
  lemma LayoutsPacked()
    ensures Packed(Rgb332, 8) && Packed(Rgb444, 12) && Packed(Rgb565, 16) && Packed(Rgb888, 24)
  {
  }

  /** For the packed depths the table gives 332, 444, 565 and 888, each packed. */
  lemma PackedDepthFormats(bpp: u32)
    requires PackedDepth(bpp)
    ensures ChannelTable(bpp).Some?
    ensures var c := ChannelTable(bpp).value;
            (bpp == 8 ==> c == Rgb332) && (bpp == 12 ==> c == Rgb444) &&
            (bpp == 16 ==> c == Rgb565) && (bpp == 24 || bpp == 32 ==> c == Rgb888)
    ensures Packed(ChannelTable(bpp).value, ColourBits(bpp))
  {
    LayoutsPacked();
  }

  /** The timings of var are those of the panel. */
  predicate TimingFrom(v: VarScreenInfo, t: VideoTiming)
  {
    v.pixclock == t.pixclock &&
    v.leftMargin == t.leftMargin && v.rightMargin == t.rightMargin &&
    v.upperMargin == t.upperMargin && v.lowerMargin == t.lowerMargin &&
    v.vsyncLen == t.vsyncLen && v.hsyncLen == t.hsyncLen
  }

  /** check_var: the virtual size is the window's, size and timings are the panel's, there is no
      transparency channel, and the colour channels are the table's for the depth, or unchanged
      for a depth the table lacks; it never rejects a var. */
  function CheckVar(v: VarScreenInfo, p: LcdPlatData): (r: VarScreenInfo)
    ensures r.xres == v.xres && r.yres == v.yres && r.bitsPerPixel == v.bitsPerPixel
    ensures r.xresVirtual == p.win0.xres && r.yresVirtual == p.win0.yres
    ensures r.height == p.vtiming.yres && r.width == p.vtiming.xres
    ensures TimingFrom(r, p.vtiming)
    ensures r.transp == Bitfield(0, 0)
    ensures ChannelTable(v.bitsPerPixel).Some? ==> ChannelsOf(r) == ChannelTable(v.bitsPerPixel).value
    ensures ChannelTable(v.bitsPerPixel).None? ==> ChannelsOf(r) == ChannelsOf(v)
  {
    var t := p.vtiming;
    var base := v.(xresVirtual := p.win0.xres, yresVirtual := p.win0.yres,
                   height := t.yres, width := t.xres,
                   pixclock := t.pixclock, leftMargin := t.leftMargin, rightMargin := t.rightMargin,
                   upperMargin := t.upperMargin, lowerMargin := t.lowerMargin,
                   vsyncLen := t.vsyncLen, hsyncLen := t.hsyncLen,
                   transp := Bitfield(0, 0));
    match ChannelTable(v.bitsPerPixel)
    case None => base
    case Some(c) => base.(red := c.red, green := c.green, blue := c.blue)
  }

  /** Checking an already checked var changes nothing. */
  lemma CheckVarIdempotent(v: VarScreenInfo, p: LcdPlatData)
    ensures CheckVar(CheckVar(v, p), p) == CheckVar(v, p)
  {
  }

  // ---------------------------------------------------------------------------
  // chan_to_field and the pseudo palette
  // ---------------------------------------------------------------------------

  /** The fields chan_to_field can shift without undefined behaviour: `16 - length` and
      `offset` must be valid shift amounts. */
  predicate ValidField(bf: Bitfield) { bf.length <= 16 && bf.offset < 32 }

  predicate ValidChannels(c: Channels) { ValidField(c.red) && ValidField(c.green) && ValidField(c.blue) }

  /** The low n bits. */
  function LowMask(n: bv32): bv32
    requires n <= 16
  {
    (1 << n) - 1
  }

  /** The channel value read back out of a pixel. */
  function FieldOf(pixel: bv32, bf: Bitfield): bv32
    requires ValidField(bf)
  {
    (pixel >> bf.offset) & LowMask(bf.length)
  }

  /** The top n bits of a 16-bit intensity. */
  function Top(chan: bv32, n: bv32): bv32
    requires n <= 16
  {
    (chan & 0xffff) >> (16 - n)
  }

  /** chan_to_field: the intensity's top `length` bits placed at the channel's offset. */
  function ChanToField(chan: bv32, bf: Bitfield): bv32
    requires ValidField(bf)
  {
    ((chan & 0xffff) >> (16 - bf.length)) << bf.offset
  }

  /** The colour setcolreg stores: the three channels packed into one pixel value. */
  function Pack(red: bv32, green: bv32, blue: bv32, c: Channels): bv32
    requires ValidChannels(c)
  {
    ChanToField(red, c.red) | ChanToField(green, c.green) | ChanToField(blue, c.blue)
  }

  /** A packed colour gives back each intensity's top bits from its channel, and sets no bit at
      or above the pixel's colour bits. */
  predicate ReadsBack(red: bv32, green: bv32, blue: bv32, c: Channels, bits: bv32)
    requires ValidChannels(c) && bits <= 32
  {
    var px := Pack(red, green, blue, c);
    FieldOf(px, c.red) == Top(red, c.red.length) &&
    FieldOf(px, c.green) == Top(green, c.green.length) &&
    FieldOf(px, c.blue) == Top(blue, c.blue.length) &&
    px >> bits == 0
  }

  lemma Rgb332ReadsBack(red: bv32, green: bv32, blue: bv32)
    ensures ValidChannels(Rgb332) && ReadsBack(red, green, blue, Rgb332, 8)
  {
  }

  lemma Rgb444ReadsBack(red: bv32, green: bv32, blue: bv32)
    ensures ValidChannels(Rgb444) && ReadsBack(red, green, blue, Rgb444, 12)
  {
  }

  lemma Rgb565ReadsBack(red: bv32, green: bv32, blue: bv32)
    ensures ValidChannels(Rgb565) && ReadsBack(red, green, blue, Rgb565, 16)
  {
  }

  lemma Rgb888ReadsBack(red: bv32, green: bv32, blue: bv32)
    ensures ValidChannels(Rgb888) && ReadsBack(red, green, blue, Rgb888, 24)
  {
  }

  /** After check_var for a packed depth, each intensity's top bits can be read back from the
      colour setcolreg packs, and the colour uses no bit above the pixel's colour bits. */
  lemma PackRoundTrip(v: VarScreenInfo, p: LcdPlatData, red: bv32, green: bv32, blue: bv32)
    requires PackedDepth(v.bitsPerPixel)
    ensures var c := ChannelsOf(CheckVar(v, p));
            ValidChannels(c) && ReadsBack(red, green, blue, c, ColourBits(v.bitsPerPixel))
  {
    var bpp := v.bitsPerPixel;
    PackedDepthFormats(bpp);
    if bpp == 8 {
      Rgb332ReadsBack(red, green, blue);
    } else if bpp == 12 {
      Rgb444ReadsBack(red, green, blue);
    } else if bpp == 16 {
      Rgb565ReadsBack(red, green, blue);
    } else {
      Rgb888ReadsBack(red, green, blue);
    }
  }

  /** The 16 entries of pseudo_palette. */
  const PaletteSize: nat := 16

  /** The slot setcolreg writes, under the guard as written (`regno > 16` rejects): regno 16 is
      let through although the array has slots 0..15 only. */
  function SlotAsWritten(regno: u32): (slot: Option<nat>)
    ensures slot.Some? <==> regno <= 16
    ensures slot.Some? ==> slot.value == regno
  {
    if regno > 16 then None else Some(regno)
  }

  /** The as-written check admits an index one past the end of the palette. */
  lemma SlotAsWrittenOverruns()
    ensures SlotAsWritten(16).Some? && SlotAsWritten(16).value >= PaletteSize
  {
  }

  /** The slot setcolreg writes under the evidently intended check `regno >= 16`: always a
      slot of the palette. */
  function PaletteSlot(regno: u32): (slot: Option<nat>)
    ensures slot.Some? <==> regno < PaletteSize
    ensures slot.Some? ==> slot.value == regno && slot.value < PaletteSize
  {
    if regno >= 16 then None else Some(regno)
  }

  /** The corrected check differs from the written one at regno 16 only. */
  lemma PaletteSlotDiffersOnlyAt16(regno: u32)
    ensures PaletteSlot(regno) != SlotAsWritten(regno) <==> regno == 16
  {
  }

  // ---------------------------------------------------------------------------
  // set_par: visual and line length
  // ---------------------------------------------------------------------------

  /** The visual set_par chooses: true colour for 12, 16 and 32 bpp, monochrome for 1 bpp,
      pseudo colour for every other depth. */
  function VisualFor(bpp: u32): (vis: Visual)
    ensures vis == TrueColor <==> bpp == 12 || bpp == 16 || bpp == 32
    ensures vis == Mono01 <==> bpp == 1
    ensures vis == PseudoColor <==> bpp != 1 && bpp != 12 && bpp != 16 && bpp != 32
  {
    if bpp == 32 || bpp == 16 || bpp == 12 then TrueColor
    else if bpp == 1 then Mono01
    else PseudoColor
  }

  /** set_par and check_var disagree about 24 and 8 bpp: check_var lays them out as packed
      888 and 332, while set_par reports a pseudo-colour visual for them. */
  lemma PackedButPseudoColor(bpp: u32)
    requires bpp == 24 || bpp == 8
    ensures ChannelTable(bpp).Some? && Packed(ChannelTable(bpp).value, ColourBits(bpp))
    ensures VisualFor(bpp) == PseudoColor
  {
    PackedDepthFormats(bpp);
  }

  /** `(xres_virtual * bits_per_pixel) / 8` in 32-bit unsigned arithmetic. */
  function LineLength(xresVirtual: u32, bpp: u32): u32
  {
    Wrap(xresVirtual * bpp) / 8
  }

  /** The line length is the byte count of a virtual line's bits when those fit 32 bits; a line
      whose bits do not fit wraps, and its line length falls short of the true byte count. */
  lemma LineLengthBytes(xresVirtual: u32, bpp: u32)
    ensures xresVirtual * bpp < Two32 ==> LineLength(xresVirtual, bpp) == (xresVirtual * bpp) / 8
    ensures xresVirtual * bpp >= Two32 ==> LineLength(xresVirtual, bpp) < (xresVirtual * bpp) / 8
  {
    var bits := xresVirtual * bpp;
    if bits >= Two32 {
      assert Wrap(bits) / 8 < Two32 / 8 <= bits / 8;
    }
  }

  /** An 800-pixel line at 16 bpp is 1600 bytes; 24 bpp, 2400. */
  lemma LineLengthExamples()
    ensures LineLength(800, 16) == 1600 && LineLength(800, 24) == 2400
  {
  }

  // ---------------------------------------------------------------------------
  // The cpufreq notifier's decision
  // ---------------------------------------------------------------------------

  /** A 32-bit pattern read as a long. */
  function Signed(x: u32): int
  {
    if x < 0x8000_0000 then x else x - Two32
  }

  /** delta_f = clk_rate - clk_get_rate(clk): an unsigned long difference stored in a long. */
  function RateDelta(oldRate: u32, newRate: u32): int
  {
    Signed(Wrap(oldRate - newRate))
  }

  /** The notifier re-programs the controller after a change that lowered the rate, or before
      one that raises it. */
  predicate ShouldReprogram(val: int, oldRate: u32, newRate: u32)
  {
    (val == CpufreqPostchange && RateDelta(oldRate, newRate) > 0) ||
    (val == CpufreqPrechange && RateDelta(oldRate, newRate) < 0)
  }

  /** For rates below 2^31 Hz the wrapped difference is the true one: the controller is
      re-programmed after a slow-down or before a speed-up, and never when the rate is kept. */
  lemma ReprogramForRealRates(val: int, oldRate: u32, newRate: u32)
    requires oldRate < 0x8000_0000 && newRate < 0x8000_0000
    ensures ShouldReprogram(val, oldRate, newRate) <==>
              (val == CpufreqPostchange && newRate < oldRate) || (val == CpufreqPrechange && oldRate < newRate)
  {
    if oldRate >= newRate {
      assert Wrap(oldRate - newRate) == oldRate - newRate;
    } else {
      assert Wrap(oldRate - newRate) == oldRate - newRate + Two32;
    }
  }

  /** Rates 2^31 apart or more wrap: a rise from 0 to 2^31 + 1 reads as a drop. */
  lemma RateDeltaWraps()
    ensures RateDelta(0, 0x8000_0001) == 0x7FFF_FFFF
    ensures ShouldReprogram(CpufreqPostchange, 0, 0x8000_0001)
  {
    assert Wrap(0 - 0x8000_0001) == 0x7FFF_FFFF;
  }
}
