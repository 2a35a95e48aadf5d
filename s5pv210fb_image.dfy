/** The register image of the s5pv210 framebuffer driver: the GPIO read-modify-write of
    init_registers, the words activate_var, set_window and lcd_enable derive in
    mach_info->lcd_reg, and the writel sequences that carry them to the hardware. */
module S5pv210FbImage {
  import opened Words
  import opened RegsLcd
  import opened PlatFbS5pv210
  import opened Fb

  // ---------------------------------------------------------------------------
  // init_registers: GPIO read-modify-write
  // ---------------------------------------------------------------------------

  /** GPD0CON: the nibbles at bits 0-3 and 12-15 are cleared and become 0b0001 each. */
  const Gpd0ConMask: Word := {0, 1, 2, 3, 12, 13, 14, 15}
  const Gpd0ConValue: Word := {0, 12}
  /** GPD0DAT: bits 0 and 3 are set. */
  const Gpd0DatSet: Word := {0, 3}
  /** The display-path control register is given 2, bit 1 alone. */
  const DisplayControlValue: Word := {1}

  /** What init_registers does to one register. */
  datatype InitOp = Merge(mask: Word, value: Word) | SetBits(bits: Word) | Assign(value: Word) | Keep

  /** The registers init_registers writes, in order. */
  const InitRegs: seq<Reg> := [Gpf0Con, Gpf1Con, Gpf2Con, Gpf3Con, Gpd0Con, Gpd0Dat, DisplayControl]

  /** init_registers register by register: each GPF bank merged with the board's mask and value,
      GPD0CON merged so that bits 0-3 and 12-15 become 0b0001, GPD0DAT with bits 0 and 3 set,
      the display-path control given 2, every other register kept. */
  function InitStep(g: GpioConfig, reg: Reg): (op: InitOp)
    ensures op.Keep? <==> reg !in InitRegs
  {
    match reg
    case Gpf0Con => Merge(g.gpf0conMask, g.gpf0con)
    case Gpf1Con => Merge(g.gpf1conMask, g.gpf1con)
    case Gpf2Con => Merge(g.gpf2conMask, g.gpf2con)
    case Gpf3Con => Merge(g.gpf3conMask, g.gpf3con)
    case Gpd0Con => Merge(Gpd0ConMask, Gpd0ConValue)
    case Gpd0Dat => SetBits(Gpd0DatSet)
    case DisplayControl => Assign(DisplayControlValue)
    case _ => Keep
  }

  /** The word an operation makes of a register that read `prior`. */
  function Apply(op: InitOp, prior: Word): Word
  {
    match op
    case Merge(mask, value) => MaskedMerge(prior, mask, value)
    case SetBits(bits) => Or(prior, bits)
    case Assign(value) => value
    case Keep => prior
  }

  /** What a register should read after init_registers. */
  function AfterInit(log: seq<Write>, reset: Reg -> Word, g: GpioConfig, reg: Reg): Word
  {
    Apply(InitStep(g, reg), Current(log, reg, reset(reg)))
  }

  /** The writes of init_registers: each register it touches, in turn, given the word AfterInit
      names for it. */
  function InitWrites(log: seq<Write>, reset: Reg -> Word, g: GpioConfig): seq<Write>
  {
    WritesFor(InitRegs, reg => AfterInit(log, reset, g, reg))
  }

  /** init_registers writes GPF0CON..GPF3CON, GPD0CON, GPD0DAT and the display-path control, in
      that order, once each. */
  lemma InitWriteOrder(log: seq<Write>, reset: Reg -> Word, g: GpioConfig)
    ensures Targets(InitWrites(log, reset, g)) == InitRegs
  {
    WritesForTargets(InitRegs, reg => AfterInit(log, reset, g, reg));
  }

  /** The write sequence of init_registers leaves each register it touches as AfterInit says,
      and every other register as it was. */
  lemma InitEffect(log: seq<Write>, reset: Reg -> Word, g: GpioConfig, reg: Reg)
    ensures reg in InitRegs ==> Current(log + InitWrites(log, reset, g), reg, reset(reg)) == AfterInit(log, reset, g, reg)
    ensures reg !in InitRegs ==> Current(log + InitWrites(log, reset, g), reg, reset(reg)) == Current(log, reg, reset(reg))
  {
    CurrentWritesFor(log, InitRegs, reg => AfterInit(log, reset, g, reg), reg, reset(reg));
  }

  /** Each merging register ends with the merge's value inside its mask (where the value lies
      inside the mask) and its other bits as before. */
  lemma InitMerges(log: seq<Write>, reset: Reg -> Word, g: GpioConfig, reg: Reg, mask: Word, value: Word)
    requires InitStep(g, reg) == Merge(mask, value) && AllSet(mask, value)
    ensures var w := Current(log + InitWrites(log, reset, g), reg, reset(reg));
            w * mask == value && SameOutside(w, Current(log, reg, reset(reg)), mask)
  {
    InitEffect(log, reset, g, reg);
    MergeInsideMask(Current(log + InitWrites(log, reset, g), reg, reset(reg)), Current(log, reg, reset(reg)), mask, value);
  }

  /** A merged word whose value lies inside its mask reads the value inside the mask and the
      old word outside it. */
  lemma MergeInsideMask(w: Word, prior: Word, mask: Word, value: Word)
    requires w == Apply(Merge(mask, value), prior) && AllSet(mask, value)
    ensures w * mask == value && SameOutside(w, prior, mask)
  {
    MergeAssigns(prior, mask, value);
    MergeKeepsInside(prior, mask, value);
  }

  /** GPD0CON ends with bits 0 and 12 set, bits 1-3 and 13-15 clear, and its other bits as
      before. */
  lemma InitSetsGpd0Con(log: seq<Write>, reset: Reg -> Word, g: GpioConfig)
    ensures var w := Current(log + InitWrites(log, reset, g), Gpd0Con, reset(Gpd0Con));
            w * Gpd0ConMask == Gpd0ConValue && SameOutside(w, Current(log, Gpd0Con, reset(Gpd0Con)), Gpd0ConMask)
  {
    InitMerges(log, reset, g, Gpd0Con, Gpd0ConMask, Gpd0ConValue);
  }

  /** GPD0DAT ends with bits 0 and 3 set and its other bits as before. */
  lemma InitSetsGpd0Dat(log: seq<Write>, reset: Reg -> Word, g: GpioConfig)
    ensures var w := Current(log + InitWrites(log, reset, g), Gpd0Dat, reset(Gpd0Dat));
            AllSet(w, Gpd0DatSet) && SameOutside(w, Current(log, Gpd0Dat, reset(Gpd0Dat)), Gpd0DatSet)
  {
    InitSets(log, reset, g, Gpd0Dat, Gpd0DatSet);
  }

  /** A register whose bits init_registers sets ends with them set and its other bits as before. */
  lemma InitSets(log: seq<Write>, reset: Reg -> Word, g: GpioConfig, reg: Reg, bits: Word)
    requires InitStep(g, reg) == SetBits(bits)
    ensures var w := Current(log + InitWrites(log, reset, g), reg, reset(reg));
            AllSet(w, bits) && SameOutside(w, Current(log, reg, reset(reg)), bits)
  {
    InitEffect(log, reset, g, reg);
    SetBitsKeeps(Current(log + InitWrites(log, reset, g), reg, reset(reg)), Current(log, reg, reset(reg)), bits);
  }

  /** A word with bits set has them set and its other bits as before. */
  lemma SetBitsKeeps(w: Word, prior: Word, bits: Word)
    requires w == Apply(SetBits(bits), prior)
    ensures AllSet(w, bits) && SameOutside(w, prior, bits)
  {
    OrSets(prior, bits);
    OrKeeps(prior, bits);
  }

  /** Applying an operation twice is applying it once. */
  lemma ApplyIdempotent(op: InitOp, prior: Word)
    ensures Apply(op, Apply(op, prior)) == Apply(op, prior)
  {
  }

  /** Running init_registers twice leaves every register reading as after one run. */
  lemma InitIdempotent(log: seq<Write>, reset: Reg -> Word, g: GpioConfig, reg: Reg)
    ensures var once := log + InitWrites(log, reset, g);
            Current(once + InitWrites(once, reset, g), reg, reset(reg)) == Current(once, reg, reset(reg))
  {
    var once := log + InitWrites(log, reset, g);
    InitEffect(log, reset, g, reg);
    InitEffect(once, reset, g, reg);
    if reg in InitRegs {
      ApplyIdempotent(InitStep(g, reg), Current(log, reg, reset(reg)));
    }
  }

  // ---------------------------------------------------------------------------
  // activate_var, set_window and lcd_enable: the register image
  // ---------------------------------------------------------------------------

  /** The VIDCON0 bits activate_var clears: 26-27, 18, 6-13 and 2. */
  const Vidcon0Clear: Word := {2, 6, 7, 8, 9, 10, 11, 12, 13, 18, 26, 27}
  /** The VIDCON1 bit activate_var clears (7) and the bits it sets (5 and 6). */
  const Vidcon1Clear: Word := {7}
  const Vidcon1Set: Word := {5, 6}

  /** The VIDCON0 bits activate_var sets: the clock divider `pixclock << 6` and bit 4. */
  function Vidcon0Set(v: VarScreenInfo): Word { Or(ShiftLeft(Bits(v.pixclock), 6), {4}) }

  function Or3(a: Word, b: Word, c: Word): Word { Or(Or(a, b), c) }

  /** The window format: RGB 565 for 16 bpp, 888 for every other depth, with word swap. */
  function WinFormat(v: VarScreenInfo, m: Macros): Word
  {
    Or(if v.bitsPerPixel == 16 then m.frame565 else m.frame888, m.wswpEnable)
  }

  /** `x - 1` on a 32-bit unsigned value: 0 wraps to 0xFFFFFFFF. */
  function MinusOne(x: u32): (r: u32)
    ensures x > 0 ==> r + 1 == x
    ensures x == 0 ==> r == 0xFFFF_FFFF
  {
    Wrap(x - 1)
  }

  /** The timing words: each encoder given its parameter minus one. */
  function VTiming(v: VarScreenInfo, m: Macros): Word
  {
    Or3(m.vbpd(MinusOne(v.upperMargin)), m.vfpd(MinusOne(v.lowerMargin)), m.vspw(MinusOne(v.vsyncLen)))
  }

  function HTiming(v: VarScreenInfo, m: Macros): Word
  {
    Or3(m.hbpd(MinusOne(v.leftMargin)), m.hfpd(MinusOne(v.rightMargin)), m.hspw(MinusOne(v.hsyncLen)))
  }

  function Size(v: VarScreenInfo, m: Macros): Word
  {
    Or(m.lineval(MinusOne(v.yres)), m.hozval(MinusOne(v.xres)))
  }

  /** The first part of activate_var: control, timing and window-format words. */
  function ControlStage(r: LcdReg, v: VarScreenInfo, m: Macros): LcdReg
  {
    r.(vidcon0 := MaskedMerge(r.vidcon0, Vidcon0Clear, Vidcon0Set(v)),
       vidcon1 := MaskedMerge(r.vidcon1, Vidcon1Clear, Vidcon1Set),
       vidtcon0 := VTiming(v, m), vidtcon1 := HTiming(v, m), vidtcon2 := Size(v, m),
       wincon0 := WinFormat(v, m))
  }

  /** The pixels of one frame, `xres * yres` in 32 bits. */
  function Pixels(v: VarScreenInfo): (n: u32)
    ensures v.xres * v.yres < Two32 ==> n == v.xres * v.yres
  {
    Wrap(v.xres * v.yres)
  }

  /** The bytes of one frame, pixels times `bits_per_pixel >> 3`, in 32 bits. */
  function FrameBytes(v: VarScreenInfo): (n: u32)
    ensures Pixels(v) * (v.bitsPerPixel / 8) < Two32 ==> n == Pixels(v) * (v.bitsPerPixel / 8)
  {
    Wrap(Pixels(v) * (v.bitsPerPixel / 8))
  }

  /** The address of the second buffer, one frame past smem_start, in 32 bits. */
  function SecondAddress(smemStart: u32, v: VarScreenInfo): u32
  {
    Wrap(smemStart + FrameBytes(v))
  }

  /** set_window: the window's on-screen position and size and its frame-buffer addresses. */
  function WindowStage(r: LcdReg, v: VarScreenInfo, smemStart: u32, m: Macros): LcdReg
  {
    r.(vidosd0a := Or(m.leftTopX(0), m.leftTopY(0)),
       vidosd0b := Or(m.leftTopX(MinusOne(v.xres)), m.leftTopY(MinusOne(v.yres))),
       vidosd0c := Bits(Pixels(v)),
       vidw00addr0b0 := Bits(smemStart),
       vidw00addr1b0 := Bits(SecondAddress(smemStart, v)))
  }

  /** The end of activate_var: the channel, the video output and window 0 switched on. */
  function EnableStage(r: LcdReg, m: Macros): LcdReg
  {
    r.(shadowcon := m.channel0Enable, vidcon0 := Or(r.vidcon0, m.envid), wincon0 := Or(r.wincon0, m.win0Enable))
  }

  /** The image activate_var leaves behind. */
  function Activated(r: LcdReg, v: VarScreenInfo, smemStart: u32, m: Macros): LcdReg
  {
    EnableStage(WindowStage(ControlStage(r, v, m), v, smemStart, m), m)
  }

  /** lcd_enable(1) and lcd_enable(0) on the image. */
  function Enabled(r: LcdReg, m: Macros): LcdReg
  {
    r.(shadowcon := Or(r.shadowcon, m.channel0Enable), vidcon0 := Or(r.vidcon0, m.envid),
       wincon0 := Or(r.wincon0, m.win0Enable))
  }

  function Disabled(r: LcdReg, m: Macros): LcdReg
  {
    r.(shadowcon := AndNot(r.shadowcon, m.channel0Enable), vidcon0 := AndNot(r.vidcon0, m.envid),
       wincon0 := AndNot(r.wincon0, m.win0Enable))
  }

  /** VIDCON0 after activate_var is one merge of the old word: bits 2, 6-13, 18 and 26-27
      cleared, the clock divider, bit 4 and ENVID set, every other bit kept; VIDCON1 has bit 7
      cleared, bits 5 and 6 set and every other bit kept. */
  lemma ActivatedControl(r: LcdReg, v: VarScreenInfo, smemStart: u32, m: Macros)
    ensures var a := Activated(r, v, smemStart, m);
            a.vidcon0 == MaskedMerge(r.vidcon0, Vidcon0Clear, Or(Vidcon0Set(v), m.envid)) &&
            a.vidcon1 == MaskedMerge(r.vidcon1, Vidcon1Clear, Vidcon1Set)
  {
    MaskedMergeThenSet(r.vidcon0, Vidcon0Clear, Vidcon0Set(v), m.envid);
  }

  /** Outside the cleared and set bits VIDCON0 and VIDCON1 keep the old image's bits. */
  lemma ActivatedKeepsControlBits(r: LcdReg, v: VarScreenInfo, smemStart: u32, m: Macros)
    ensures var a := Activated(r, v, smemStart, m);
            SameOutside(a.vidcon0, r.vidcon0, Or3(Vidcon0Clear, Vidcon0Set(v), m.envid)) &&
            AllSet(a.vidcon0, Or(Vidcon0Set(v), m.envid)) &&
            SameOutside(a.vidcon1, r.vidcon1, Or(Vidcon1Clear, Vidcon1Set)) &&
            AllSet(a.vidcon1, Vidcon1Set) && AllClear(a.vidcon1, Vidcon1Clear)
  {
    ActivatedControl(r, v, smemStart, m);
    MergeKeeps(r.vidcon0, Vidcon0Clear, Or(Vidcon0Set(v), m.envid));
    MergeSets(r.vidcon0, Vidcon0Clear, Or(Vidcon0Set(v), m.envid));
    MergeKeeps(r.vidcon1, Vidcon1Clear, Vidcon1Set);
    MergeSets(r.vidcon1, Vidcon1Clear, Vidcon1Set);
    MergeClears(r.vidcon1, Vidcon1Clear, Vidcon1Set);
  }

  /** The words activate_var assigns outright: each timing encoder given its parameter minus
      one, the window format with window 0 on, and the channel enabled. None of them depends on
      the old image. */
  lemma ActivatedWords(r: LcdReg, v: VarScreenInfo, smemStart: u32, m: Macros)
    ensures var a := Activated(r, v, smemStart, m);
            a.vidtcon0 == Or3(m.vbpd(MinusOne(v.upperMargin)), m.vfpd(MinusOne(v.lowerMargin)), m.vspw(MinusOne(v.vsyncLen))) &&
            a.vidtcon1 == Or3(m.hbpd(MinusOne(v.leftMargin)), m.hfpd(MinusOne(v.rightMargin)), m.hspw(MinusOne(v.hsyncLen))) &&
            a.vidtcon2 == Or(m.lineval(MinusOne(v.yres)), m.hozval(MinusOne(v.xres))) &&
            a.wincon0 == Or(WinFormat(v, m), m.win0Enable) &&
            a.shadowcon == m.channel0Enable
  {
  }

  /** A zero margin is not rejected: `0 - 1` wraps, and the encoder is given 0xFFFFFFFF. */
  lemma ZeroMarginWraps(r: LcdReg, v: VarScreenInfo, smemStart: u32, m: Macros)
    requires v.upperMargin == 0
    ensures Activated(r, v, smemStart, m).vidtcon0 ==
            Or3(m.vbpd(0xFFFF_FFFF), m.vfpd(MinusOne(v.lowerMargin)), m.vspw(MinusOne(v.vsyncLen)))
  {
  }

  /** An offset added to a base and taken off again, modulo 2^32, is the offset. */
  lemma OffsetBack(base: u32, offset: u32)
    ensures Wrap(Wrap(base + offset) - base) == offset
  {
    if base + offset >= Two32 {
      assert Wrap(base + offset) == base + offset - Two32;
    }
  }

  /** The window geometry: top-left corner (0, 0), bottom-right (xres - 1, yres - 1), the pixel
      count, the first buffer at the frame buffer's start, and the second one frame (pixels
      times bytes per pixel) past it, all modulo 2^32. */
  lemma ActivatedGeometry(r: LcdReg, v: VarScreenInfo, smemStart: u32, m: Macros)
    ensures var a := Activated(r, v, smemStart, m);
            a.vidosd0a == Or(m.leftTopX(0), m.leftTopY(0)) &&
            a.vidosd0b == Or(m.leftTopX(MinusOne(v.xres)), m.leftTopY(MinusOne(v.yres))) &&
            Value(a.vidosd0c) == Pixels(v) && Value(a.vidw00addr0b0) == smemStart &&
            Wrap(Value(a.vidw00addr1b0) - Value(a.vidw00addr0b0)) == FrameBytes(v)
  {
    var a := Activated(r, v, smemStart, m);
    ActivatedWindow(r, v, smemStart, m);
    WindowValues(a.vidosd0c, a.vidw00addr0b0, a.vidw00addr1b0, Pixels(v), smemStart, FrameBytes(v));
  }

  /** The window words activate_var leaves: the corners, the pixel count and the two buffer
      addresses. */
  lemma ActivatedWindow(r: LcdReg, v: VarScreenInfo, smemStart: u32, m: Macros)
    ensures var a := Activated(r, v, smemStart, m);
            a.vidosd0a == Or(m.leftTopX(0), m.leftTopY(0)) &&
            a.vidosd0b == Or(m.leftTopX(MinusOne(v.xres)), m.leftTopY(MinusOne(v.yres))) &&
            a.vidosd0c == Bits(Pixels(v)) && a.vidw00addr0b0 == Bits(smemStart) &&
            a.vidw00addr1b0 == Bits(Wrap(smemStart + FrameBytes(v)))
  {
  }

  /** Words holding a pixel count, a start address and that address advanced by a frame size
      decode to the count, the start, and a distance of one frame modulo 2^32. */
  lemma WindowValues(size: Word, first: Word, second: Word, pixels: u32, start: u32, frame: u32)
    requires size == Bits(pixels) && first == Bits(start) && second == Bits(Wrap(start + frame))
    ensures Value(size) == pixels && Value(first) == start && Wrap(Value(second) - Value(first)) == frame
  {
    ValueBits(pixels);
    ValueBits(start);
    ValueBits(Wrap(start + frame));
    OffsetBack(start, frame);
  }

  /** An 800x480 panel at 16 bpp: 384000 pixels, and the second buffer 768000 bytes past the
      first. */
  lemma Example800x480(v: VarScreenInfo)
    requires v.xres == 800 && v.yres == 480 && v.bitsPerPixel == 16
    ensures Pixels(v) == 384000 && FrameBytes(v) == 768000
    ensures SecondAddress(0x2000_0000, v) == 0x2000_0000 + 768000
  {
  }

  /** activate_var leaves VIDTCON3, WINCON2 and VIDW00ADD2 alone. */
  lemma ActivatedKeeps(r: LcdReg, v: VarScreenInfo, smemStart: u32, m: Macros)
    ensures var a := Activated(r, v, smemStart, m);
            a.vidtcon3 == r.vidtcon3 && a.wincon2 == r.wincon2 && a.vidw00addr2 == r.vidw00addr2
  {
  }

  /** Activating twice with the same parameters gives the image of activating once. */
  lemma ActivateIdempotent(r: LcdReg, v: VarScreenInfo, smemStart: u32, m: Macros)
    ensures Activated(Activated(r, v, smemStart, m), v, smemStart, m) == Activated(r, v, smemStart, m)
  {
    var a := Activated(r, v, smemStart, m);
    var set0 := Or(Vidcon0Set(v), m.envid);
    ActivatedControl(r, v, smemStart, m);
    ActivatedControl(a, v, smemStart, m);
    MaskedMergeIdempotent(r.vidcon0, Vidcon0Clear, set0);
    MaskedMergeIdempotent(r.vidcon1, Vidcon1Clear, Vidcon1Set);
  }

  /** lcd_enable(1) sets exactly the three enable bits and changes nothing else. */
  lemma EnableSetsBits(r: LcdReg, m: Macros)
    ensures var e := Enabled(r, m);
            AllSet(e.shadowcon, m.channel0Enable) && SameOutside(e.shadowcon, r.shadowcon, m.channel0Enable) &&
            AllSet(e.vidcon0, m.envid) && SameOutside(e.vidcon0, r.vidcon0, m.envid) &&
            AllSet(e.wincon0, m.win0Enable) && SameOutside(e.wincon0, r.wincon0, m.win0Enable) &&
            e.(shadowcon := r.shadowcon, vidcon0 := r.vidcon0, wincon0 := r.wincon0) == r
  {
    OrSets(r.shadowcon, m.channel0Enable);
    OrKeeps(r.shadowcon, m.channel0Enable);
    OrSets(r.vidcon0, m.envid);
    OrKeeps(r.vidcon0, m.envid);
    OrSets(r.wincon0, m.win0Enable);
    OrKeeps(r.wincon0, m.win0Enable);
  }

  /** lcd_enable(0) clears exactly the three enable bits and changes nothing else. */
  lemma DisableClearsBits(r: LcdReg, m: Macros)
    ensures var d := Disabled(r, m);
            AllClear(d.shadowcon, m.channel0Enable) && SameOutside(d.shadowcon, r.shadowcon, m.channel0Enable) &&
            AllClear(d.vidcon0, m.envid) && SameOutside(d.vidcon0, r.vidcon0, m.envid) &&
            AllClear(d.wincon0, m.win0Enable) && SameOutside(d.wincon0, r.wincon0, m.win0Enable) &&
            d.(shadowcon := r.shadowcon, vidcon0 := r.vidcon0, wincon0 := r.wincon0) == r
  {
    AndNotClears(r.shadowcon, m.channel0Enable);
    AndNotKeeps(r.shadowcon, m.channel0Enable);
    AndNotClears(r.vidcon0, m.envid);
    AndNotKeeps(r.vidcon0, m.envid);
    AndNotClears(r.wincon0, m.win0Enable);
    AndNotKeeps(r.wincon0, m.win0Enable);
  }

  /** Each direction of lcd_enable is idempotent. */
  lemma EnableIdempotent(r: LcdReg, m: Macros)
    ensures Enabled(Enabled(r, m), m) == Enabled(r, m)
    ensures Disabled(Disabled(r, m), m) == Disabled(r, m)
  {
    OrIdempotent(r.shadowcon, m.channel0Enable);
    OrIdempotent(r.vidcon0, m.envid);
    OrIdempotent(r.wincon0, m.win0Enable);
    AndNotIdempotent(r.shadowcon, m.channel0Enable);
    AndNotIdempotent(r.vidcon0, m.envid);
    AndNotIdempotent(r.wincon0, m.win0Enable);
  }

  /** An activated display is already enabled. */
  lemma ActivatedIsEnabled(r: LcdReg, v: VarScreenInfo, smemStart: u32, m: Macros)
    ensures Enabled(Activated(r, v, smemStart, m), m) == Activated(r, v, smemStart, m)
  {
  }

  /** Switching an activated display off and on again restores the activated image. */
  lemma DisableEnableRestores(r: LcdReg, v: VarScreenInfo, smemStart: u32, m: Macros)
    ensures var a := Activated(r, v, smemStart, m);
            Enabled(Disabled(a, m), m) == a
  {
    var a := Activated(r, v, smemStart, m);
    ActivatedKeepsControlBits(r, v, smemStart, m);
    OrSets(WinFormat(v, m), m.win0Enable);
    ClearThenSet(a.shadowcon, m.channel0Enable);
    ClearThenSet(a.vidcon0, m.envid);
    ClearThenSet(a.wincon0, m.win0Enable);
  }

  /** Activating the switched-off image again restores the activated image. */
  lemma ReactivateAfterDisable(r: LcdReg, v: VarScreenInfo, smemStart: u32, m: Macros)
    ensures var a := Activated(r, v, smemStart, m);
            Activated(Disabled(a, m), v, smemStart, m) == a
  {
    var a := Activated(r, v, smemStart, m);
    var d := Disabled(a, m);
    var set0 := Or(Vidcon0Set(v), m.envid);
    ActivatedControl(r, v, smemStart, m);
    ActivatedControl(d, v, smemStart, m);
    MaskedMergeForgetsSet(a.vidcon0, Vidcon0Clear, Vidcon0Set(v), m.envid);
    MaskedMergeIdempotent(r.vidcon0, Vidcon0Clear, set0);
    MaskedMergeIdempotent(r.vidcon1, Vidcon1Clear, Vidcon1Set);
  }

  // ---------------------------------------------------------------------------
  // The writes that carry the image to the hardware
  // ---------------------------------------------------------------------------

  /** The registers activate_var writes after its first stage, in order. */
  const ControlRegs: seq<Reg> := [VidCon0, VidCon1, VidTCon0, VidTCon1, VidTCon2, WinCon0]
  /** The registers set_window writes, in order. */
  const WindowRegs: seq<Reg> := [VidOsd0A, VidOsd0B, VidOsd0C, VidW00Add0B0, VidW00Add1B0]
  /** The registers activate_var and lcd_enable write last, in order. */
  const EnableRegs: seq<Reg> := [ShadowCon, VidCon0, WinCon0]

  /** The display controller's registers, those the image holds a word for. */
  predicate LcdRegister(reg: Reg) { reg in ControlRegs || reg in WindowRegs || reg in EnableRegs }

  /** The image's word for a controller register. The driver keeps no copy of the GPIO and
      display-path registers, which get the empty word here and are never compared. */
  function Image(r: LcdReg, reg: Reg): Word
  {
    match reg
    case VidCon0 => r.vidcon0
    case VidCon1 => r.vidcon1
    case VidTCon0 => r.vidtcon0
    case VidTCon1 => r.vidtcon1
    case VidTCon2 => r.vidtcon2
    case WinCon0 => r.wincon0
    case ShadowCon => r.shadowcon
    case VidOsd0A => r.vidosd0a
    case VidOsd0B => r.vidosd0b
    case VidOsd0C => r.vidosd0c
    case VidW00Add0B0 => r.vidw00addr0b0
    case VidW00Add1B0 => r.vidw00addr1b0
    case _ => {}
  }

  /** writel of the image's word to each register of regs, in order. */
  function ImageWrites(regs: seq<Reg>, r: LcdReg): seq<Write>
  {
    WritesFor(regs, reg => Image(r, reg))
  }

  lemma ImageWritesTargets(regs: seq<Reg>, r: LcdReg)
    ensures Targets(ImageWrites(regs, r)) == regs
  {
    WritesForTargets(regs, reg => Image(r, reg));
  }

  /** The writes of activate_var: the first stage's six words, set_window's five, then
      SHADOWCON, VIDCON0 and WINCON0 once more with the enable bits. */
  function ActivateWrites(r: LcdReg, v: VarScreenInfo, smemStart: u32, m: Macros): seq<Write>
  {
    var c := ControlStage(r, v, m);
    var w := WindowStage(c, v, smemStart, m);
    StageWrites(c, w, EnableStage(w, m))
  }

  /** Three stages of writes: the control registers from c, the window registers from w, and
      the enable registers from a. */
  function StageWrites(c: LcdReg, w: LcdReg, a: LcdReg): seq<Write>
  {
    ImageWrites(ControlRegs, c) + ImageWrites(WindowRegs, w) + ImageWrites(EnableRegs, a)
  }

  /** The hardware reads back the image's word in every controller register. */
  predicate Synced(log: seq<Write>, reset: Reg -> Word, r: LcdReg)
  {
    forall reg :: LcdRegister(reg) ==> Current(log, reg, reset(reg)) == Image(r, reg)
  }

  /** activate_var writes the timing and control words first, then the window geometry, and
      ends with SHADOWCON, VIDCON0 and WINCON0 in that order. */
  lemma ActivateWriteOrder(r: LcdReg, v: VarScreenInfo, smemStart: u32, m: Macros)
    ensures Targets(ActivateWrites(r, v, smemStart, m)) == ControlRegs + WindowRegs + EnableRegs
  {
    var c := ControlStage(r, v, m);
    var w := WindowStage(c, v, smemStart, m);
    TargetsAppend(ImageWrites(ControlRegs, c) + ImageWrites(WindowRegs, w), ImageWrites(EnableRegs, EnableStage(w, m)));
    TargetsAppend(ImageWrites(ControlRegs, c), ImageWrites(WindowRegs, w));
    ImageWritesTargets(ControlRegs, c);
    ImageWritesTargets(WindowRegs, w);
    ImageWritesTargets(EnableRegs, EnableStage(w, m));
  }

  /** Writing the image's words for regs leaves a register reading `expected` when it is
      written with that word or, unwritten, read it before. */
  lemma StageReads(log: seq<Write>, regs: seq<Reg>, r: LcdReg, reg: Reg, reset: Word, expected: Word)
    requires reg in regs ==> Image(r, reg) == expected
    requires reg !in regs ==> Current(log, reg, reset) == expected
    ensures Current(log + ImageWrites(regs, r), reg, reset) == expected
  {
    CurrentWritesFor(log, regs, reg => Image(r, reg), reg, reset);
  }

  /** The three stages of writes, applied to a log one after the other. */
  function Staged(log: seq<Write>, c: LcdReg, w: LcdReg, a: LcdReg): seq<Write>
  {
    log + ImageWrites(ControlRegs, c) + ImageWrites(WindowRegs, w) + ImageWrites(EnableRegs, a)
  }

  /** Three stages computed one after the other are activate_var's image and writes. */
  lemma StagesActivate(r: LcdReg, v: VarScreenInfo, smemStart: u32, m: Macros, c: LcdReg, w: LcdReg, a: LcdReg)
    requires c == ControlStage(r, v, m) && w == WindowStage(c, v, smemStart, m) && a == EnableStage(w, m)
    ensures a == Activated(r, v, smemStart, m)
    ensures ActivateWrites(r, v, smemStart, m) == StageWrites(c, w, a)
  {
  }

  /** Applying the stages one after the other is appending their writes. */
  lemma StagedAppends(log: seq<Write>, c: LcdReg, w: LcdReg, a: LcdReg)
    ensures log + StageWrites(c, w, a) == Staged(log, c, w, a)
  {
    AppendStages(log, ImageWrites(ControlRegs, c), ImageWrites(WindowRegs, w), ImageWrites(EnableRegs, a));
  }

  lemma AppendStages(log: seq<Write>, x: seq<Write>, y: seq<Write>, z: seq<Write>)
    ensures log + (x + y + z) == log + x + y + z
  {
  }

  /** Where the stages agree, every controller register reads back the last stage's word after
      them, and every other register is as before. */
  lemma StagedSyncs(log: seq<Write>, reset: Reg -> Word, c: LcdReg, w: LcdReg, a: LcdReg)
    requires a.vidcon1 == c.vidcon1 && a.vidtcon0 == c.vidtcon0 && a.vidtcon1 == c.vidtcon1 && a.vidtcon2 == c.vidtcon2
    requires a.vidosd0a == w.vidosd0a && a.vidosd0b == w.vidosd0b && a.vidosd0c == w.vidosd0c &&
             a.vidw00addr0b0 == w.vidw00addr0b0 && a.vidw00addr1b0 == w.vidw00addr1b0
    ensures forall reg :: Current(Staged(log, c, w, a), reg, reset(reg)) ==
                          if LcdRegister(reg) then Image(a, reg) else Current(log, reg, reset(reg))
  {
    forall reg
      ensures Current(Staged(log, c, w, a), reg, reset(reg)) ==
              if LcdRegister(reg) then Image(a, reg) else Current(log, reg, reset(reg))
    {
      if reg in EnableRegs {
        StagedEnableRegs(log, reset(reg), c, w, a, reg);
      } else if reg in WindowRegs {
        StagedWindowRegs(log, reset(reg), c, w, a, reg);
      } else if reg in ControlRegs {
        StagedControlRegs(log, reset(reg), c, w, a, reg);
      } else {
        StagedOtherRegs(log, reset(reg), c, w, a, reg);
      }
    }
  }

  /** The registers of the last stage read its words. */
  lemma StagedEnableRegs(log: seq<Write>, reset: Word, c: LcdReg, w: LcdReg, a: LcdReg, reg: Reg)
    requires reg in EnableRegs
    ensures Current(Staged(log, c, w, a), reg, reset) == Image(a, reg)
  {
    StageReads(log + ImageWrites(ControlRegs, c) + ImageWrites(WindowRegs, w), EnableRegs, a, reg, reset, Image(a, reg));
  }

  /** The window registers read the second stage's words, which the last agrees with. */
  lemma StagedWindowRegs(log: seq<Write>, reset: Word, c: LcdReg, w: LcdReg, a: LcdReg, reg: Reg)
    requires a.vidosd0a == w.vidosd0a && a.vidosd0b == w.vidosd0b && a.vidosd0c == w.vidosd0c &&
             a.vidw00addr0b0 == w.vidw00addr0b0 && a.vidw00addr1b0 == w.vidw00addr1b0
    requires reg in WindowRegs
    ensures Current(Staged(log, c, w, a), reg, reset) == Image(a, reg)
  {
    var l1 := log + ImageWrites(ControlRegs, c);
    WindowAgrees(w, a, reg);
    StageReads(l1, WindowRegs, w, reg, reset, Image(a, reg));
    StageReads(l1 + ImageWrites(WindowRegs, w), EnableRegs, a, reg, reset, Image(a, reg));
  }

  /** The control registers not written again read the first stage's words, which the last
      agrees with. */
  lemma StagedControlRegs(log: seq<Write>, reset: Word, c: LcdReg, w: LcdReg, a: LcdReg, reg: Reg)
    requires a.vidcon1 == c.vidcon1 && a.vidtcon0 == c.vidtcon0 && a.vidtcon1 == c.vidtcon1 && a.vidtcon2 == c.vidtcon2
    requires reg in ControlRegs && reg !in EnableRegs
    ensures Current(Staged(log, c, w, a), reg, reset) == Image(a, reg)
  {
    var l1 := log + ImageWrites(ControlRegs, c);
    ControlAgrees(c, a, reg);
    StageReads(log, ControlRegs, c, reg, reset, Image(a, reg));
    StageReads(l1, WindowRegs, w, reg, reset, Image(a, reg));
    StageReads(l1 + ImageWrites(WindowRegs, w), EnableRegs, a, reg, reset, Image(a, reg));
  }

  /** The other registers are not written. */
  lemma StagedOtherRegs(log: seq<Write>, reset: Word, c: LcdReg, w: LcdReg, a: LcdReg, reg: Reg)
    requires !LcdRegister(reg)
    ensures Current(Staged(log, c, w, a), reg, reset) == Current(log, reg, reset)
  {
    var l1 := log + ImageWrites(ControlRegs, c);
    var before := Current(log, reg, reset);
    StageReads(log, ControlRegs, c, reg, reset, before);
    StageReads(l1, WindowRegs, w, reg, reset, before);
    StageReads(l1 + ImageWrites(WindowRegs, w), EnableRegs, a, reg, reset, before);
  }

  /** Where the window stage's words stand, the last stage agrees with them. */
  lemma WindowAgrees(w: LcdReg, a: LcdReg, reg: Reg)
    requires a.vidosd0a == w.vidosd0a && a.vidosd0b == w.vidosd0b && a.vidosd0c == w.vidosd0c &&
             a.vidw00addr0b0 == w.vidw00addr0b0 && a.vidw00addr1b0 == w.vidw00addr1b0
    requires reg in WindowRegs
    ensures Image(w, reg) == Image(a, reg) && reg !in EnableRegs
  {
  }

  /** Where the control stage's words are not written again, the last stage agrees with them. */
  lemma ControlAgrees(c: LcdReg, a: LcdReg, reg: Reg)
    requires a.vidcon1 == c.vidcon1 && a.vidtcon0 == c.vidtcon0 && a.vidtcon1 == c.vidtcon1 && a.vidtcon2 == c.vidtcon2
    requires reg in ControlRegs && reg !in EnableRegs
    ensures Image(c, reg) == Image(a, reg) && reg !in WindowRegs
  {
  }

  /** After activate_var every controller register reads back the activated image, whatever it
      read before, and every other register is as it was. */
  lemma ActivateSyncs(log: seq<Write>, reset: Reg -> Word, r: LcdReg, v: VarScreenInfo, smemStart: u32, m: Macros)
    ensures Synced(log + ActivateWrites(r, v, smemStart, m), reset, Activated(r, v, smemStart, m))
    ensures forall reg :: !LcdRegister(reg) ==>
              Current(log + ActivateWrites(r, v, smemStart, m), reg, reset(reg)) == Current(log, reg, reset(reg))
  {
    var c := ControlStage(r, v, m);
    var w := WindowStage(c, v, smemStart, m);
    var a := EnableStage(w, m);
    StagedAppends(log, c, w, a);
    StagedSyncs(log, reset, c, w, a);
  }

  /** Writing the image's words to some registers keeps the hardware in step with an image that
      changed in those registers only. */
  lemma ImageWritesSync(log: seq<Write>, reset: Reg -> Word, r: LcdReg, r': LcdReg, regs: seq<Reg>)
    requires Synced(log, reset, r)
    requires forall reg :: LcdRegister(reg) && reg !in regs ==> Image(r', reg) == Image(r, reg)
    ensures Synced(log + ImageWrites(regs, r'), reset, r')
  {
    forall reg | LcdRegister(reg)
      ensures Current(log + ImageWrites(regs, r'), reg, reset(reg)) == Image(r', reg)
    {
      CurrentWritesFor(log, regs, reg => Image(r', reg), reg, reset(reg));
    }
  }

  /** lcd_enable writes SHADOWCON, VIDCON0 and WINCON0 from the updated image, which keeps the
      hardware in step with it. */
  lemma EnableSyncs(log: seq<Write>, reset: Reg -> Word, r: LcdReg, m: Macros, enable: bool)
    requires Synced(log, reset, r)
    ensures var e := if enable then Enabled(r, m) else Disabled(r, m);
            Synced(log + ImageWrites(EnableRegs, e), reset, e)
  {
    var e := if enable then Enabled(r, m) else Disabled(r, m);
    ImageWritesSync(log, reset, r, e, EnableRegs);
  }

  /** The GPIO and display-path registers are not the controller's. */
  lemma InitRegsNotLcd(reg: Reg)
    requires reg in InitRegs
    ensures !LcdRegister(reg)
  {
  }

  /** init_registers writes none of the controller's registers, so it keeps them in step. */
  lemma InitKeepsSync(log: seq<Write>, reset: Reg -> Word, g: GpioConfig, r: LcdReg)
    requires Synced(log, reset, r)
    ensures Synced(log + InitWrites(log, reset, g), reset, r)
  {
    forall reg | LcdRegister(reg)
      ensures Current(log + InitWrites(log, reset, g), reg, reset(reg)) == Image(r, reg)
    {
      if reg in InitRegs {
        InitRegsNotLcd(reg);
      }
      InitEffect(log, reset, g, reg);
    }
  }

  /** The first stage of activate_var, one writel after the other. */
  lemma ControlWritesInOrder(log: seq<Write>, c: LcdReg)
    ensures log + [Write(VidCon0, c.vidcon0)] + [Write(VidCon1, c.vidcon1)] + [Write(VidTCon0, c.vidtcon0)] +
            [Write(VidTCon1, c.vidtcon1)] + [Write(VidTCon2, c.vidtcon2)] + [Write(WinCon0, c.wincon0)] ==
            log + ImageWrites(ControlRegs, c)
  {
    AppendSix(log, Write(VidCon0, c.vidcon0), Write(VidCon1, c.vidcon1), Write(VidTCon0, c.vidtcon0),
              Write(VidTCon1, c.vidtcon1), Write(VidTCon2, c.vidtcon2), Write(WinCon0, c.wincon0));
  }

  /** set_window's writes, one after the other. */
  lemma WindowWritesInOrder(log: seq<Write>, w: LcdReg)
    ensures log + [Write(VidOsd0A, w.vidosd0a)] + [Write(VidOsd0B, w.vidosd0b)] + [Write(VidOsd0C, w.vidosd0c)] +
            [Write(VidW00Add0B0, w.vidw00addr0b0)] + [Write(VidW00Add1B0, w.vidw00addr1b0)] ==
            log + ImageWrites(WindowRegs, w)
  {
    AppendFive(log, Write(VidOsd0A, w.vidosd0a), Write(VidOsd0B, w.vidosd0b), Write(VidOsd0C, w.vidosd0c),
               Write(VidW00Add0B0, w.vidw00addr0b0), Write(VidW00Add1B0, w.vidw00addr1b0));
  }

  /** The enable writes, one after the other. */
  lemma EnableWritesInOrder(log: seq<Write>, a: LcdReg)
    ensures log + [Write(ShadowCon, a.shadowcon)] + [Write(VidCon0, a.vidcon0)] + [Write(WinCon0, a.wincon0)] ==
            log + ImageWrites(EnableRegs, a)
  {
    AppendThree(log, Write(ShadowCon, a.shadowcon), Write(VidCon0, a.vidcon0), Write(WinCon0, a.wincon0));
  }

  /** init_registers spelt out: seven words, one per register it touches, in order. */
  lemma InitWritesSpelt(log: seq<Write>, reset: Reg -> Word, g: GpioConfig)
    ensures InitWrites(log, reset, g) ==
            [Write(Gpf0Con, AfterInit(log, reset, g, Gpf0Con)), Write(Gpf1Con, AfterInit(log, reset, g, Gpf1Con)),
             Write(Gpf2Con, AfterInit(log, reset, g, Gpf2Con)), Write(Gpf3Con, AfterInit(log, reset, g, Gpf3Con)),
             Write(Gpd0Con, AfterInit(log, reset, g, Gpd0Con)), Write(Gpd0Dat, AfterInit(log, reset, g, Gpd0Dat)),
             Write(DisplayControl, AfterInit(log, reset, g, DisplayControl))]
  {
    WritesForSeven(Gpf0Con, Gpf1Con, Gpf2Con, Gpf3Con, Gpd0Con, Gpd0Dat, DisplayControl, reg => AfterInit(log, reset, g, reg));
  }

  /** Each register init_registers reads is one it has not written yet, so each word it writes
      is the one AfterInit names. */
  lemma InitWordsRead(log: seq<Write>, reset: Reg -> Word, g: GpioConfig,
                      w0: Word, w1: Word, w2: Word, w3: Word, w4: Word, w5: Word)
    requires w0 == MaskedMerge(Current(log, Gpf0Con, reset(Gpf0Con)), g.gpf0conMask, g.gpf0con)
    requires w1 == MaskedMerge(Current(log + [Write(Gpf0Con, w0)], Gpf1Con, reset(Gpf1Con)), g.gpf1conMask, g.gpf1con)
    requires w2 == MaskedMerge(Current(log + [Write(Gpf0Con, w0)] + [Write(Gpf1Con, w1)], Gpf2Con, reset(Gpf2Con)),
                               g.gpf2conMask, g.gpf2con)
    requires w3 == MaskedMerge(Current(log + [Write(Gpf0Con, w0)] + [Write(Gpf1Con, w1)] + [Write(Gpf2Con, w2)],
                                       Gpf3Con, reset(Gpf3Con)), g.gpf3conMask, g.gpf3con)
    requires w4 == MaskedMerge(Current(log + [Write(Gpf0Con, w0)] + [Write(Gpf1Con, w1)] + [Write(Gpf2Con, w2)] +
                                       [Write(Gpf3Con, w3)], Gpd0Con, reset(Gpd0Con)), Gpd0ConMask, Gpd0ConValue)
    requires w5 == Or(Current(log + [Write(Gpf0Con, w0)] + [Write(Gpf1Con, w1)] + [Write(Gpf2Con, w2)] +
                              [Write(Gpf3Con, w3)] + [Write(Gpd0Con, w4)], Gpd0Dat, reset(Gpd0Dat)), Gpd0DatSet)
    ensures w0 == AfterInit(log, reset, g, Gpf0Con) && w1 == AfterInit(log, reset, g, Gpf1Con)
    ensures w2 == AfterInit(log, reset, g, Gpf2Con) && w3 == AfterInit(log, reset, g, Gpf3Con)
    ensures w4 == AfterInit(log, reset, g, Gpd0Con) && w5 == AfterInit(log, reset, g, Gpd0Dat)
  {
    var a, b, c, d, e := Write(Gpf0Con, w0), Write(Gpf1Con, w1), Write(Gpf2Con, w2), Write(Gpf3Con, w3), Write(Gpd0Con, w4);
    // Each register read is one none of the earlier writes touched.
    CurrentAppend(log, a, Gpf1Con, reset(Gpf1Con));
    CurrentAppend(log + [a], b, Gpf2Con, reset(Gpf2Con));
    CurrentAppend(log, a, Gpf2Con, reset(Gpf2Con));
    CurrentAppend(log + [a] + [b], c, Gpf3Con, reset(Gpf3Con));
    CurrentAppend(log + [a], b, Gpf3Con, reset(Gpf3Con));
    CurrentAppend(log, a, Gpf3Con, reset(Gpf3Con));
    CurrentAppend(log + [a] + [b] + [c], d, Gpd0Con, reset(Gpd0Con));
    CurrentAppend(log + [a] + [b], c, Gpd0Con, reset(Gpd0Con));
    CurrentAppend(log + [a], b, Gpd0Con, reset(Gpd0Con));
    CurrentAppend(log, a, Gpd0Con, reset(Gpd0Con));
    CurrentAppend(log + [a] + [b] + [c] + [d], e, Gpd0Dat, reset(Gpd0Dat));
    CurrentAppend(log + [a] + [b] + [c], d, Gpd0Dat, reset(Gpd0Dat));
    CurrentAppend(log + [a] + [b], c, Gpd0Dat, reset(Gpd0Dat));
    CurrentAppend(log + [a], b, Gpd0Dat, reset(Gpd0Dat));
    CurrentAppend(log, a, Gpd0Dat, reset(Gpd0Dat));
  }

  /** init_registers' seven writes, one after the other, each of the word its register read
      before them with the step applied, are InitWrites. */
  lemma InitWritesInOrder(log: seq<Write>, reset: Reg -> Word, g: GpioConfig,
                          w0: Word, w1: Word, w2: Word, w3: Word, w4: Word, w5: Word)
    requires w0 == MaskedMerge(Current(log, Gpf0Con, reset(Gpf0Con)), g.gpf0conMask, g.gpf0con)
    requires w1 == MaskedMerge(Current(log + [Write(Gpf0Con, w0)], Gpf1Con, reset(Gpf1Con)), g.gpf1conMask, g.gpf1con)
    requires w2 == MaskedMerge(Current(log + [Write(Gpf0Con, w0)] + [Write(Gpf1Con, w1)], Gpf2Con, reset(Gpf2Con)),
                               g.gpf2conMask, g.gpf2con)
    requires w3 == MaskedMerge(Current(log + [Write(Gpf0Con, w0)] + [Write(Gpf1Con, w1)] + [Write(Gpf2Con, w2)],
                                       Gpf3Con, reset(Gpf3Con)), g.gpf3conMask, g.gpf3con)
    requires w4 == MaskedMerge(Current(log + [Write(Gpf0Con, w0)] + [Write(Gpf1Con, w1)] + [Write(Gpf2Con, w2)] +
                                       [Write(Gpf3Con, w3)], Gpd0Con, reset(Gpd0Con)), Gpd0ConMask, Gpd0ConValue)
    requires w5 == Or(Current(log + [Write(Gpf0Con, w0)] + [Write(Gpf1Con, w1)] + [Write(Gpf2Con, w2)] +
                              [Write(Gpf3Con, w3)] + [Write(Gpd0Con, w4)], Gpd0Dat, reset(Gpd0Dat)), Gpd0DatSet)
    ensures log + [Write(Gpf0Con, w0)] + [Write(Gpf1Con, w1)] + [Write(Gpf2Con, w2)] + [Write(Gpf3Con, w3)] +
            [Write(Gpd0Con, w4)] + [Write(Gpd0Dat, w5)] + [Write(DisplayControl, DisplayControlValue)] ==
            log + InitWrites(log, reset, g)
  {
    InitWordsRead(log, reset, g, w0, w1, w2, w3, w4, w5);
    InitWritesSpelt(log, reset, g);
    InitAssignsDisplay(log, reset, g);
    AppendSeven(log, Write(Gpf0Con, w0), Write(Gpf1Con, w1), Write(Gpf2Con, w2), Write(Gpf3Con, w3),
                Write(Gpd0Con, w4), Write(Gpd0Dat, w5), Write(DisplayControl, DisplayControlValue));
  }

  /** The display-path control is given 2 whatever it read. */
  lemma InitAssignsDisplay(log: seq<Write>, reset: Reg -> Word, g: GpioConfig)
    ensures AfterInit(log, reset, g, DisplayControl) == DisplayControlValue
  {
  }
}
