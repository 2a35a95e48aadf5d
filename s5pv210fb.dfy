/** The s5pv210 framebuffer driver's state and the operations that change it: the software
    copy of the controller registers in mach_info->lcd_reg, the memory-mapped registers as a
    log of writes, the pseudo palette and the pixels of the frame buffer. */
module S5pv210Fb {
  import opened Words
  import opened RegsLcd
  import opened PlatFbS5pv210
  import opened Fb
  import opened S5pv210FbVar
  import opened S5pv210FbImage

  class FbDevice {
    /** The encoders and enable bits of mach/regs-lcd.h. */
    const macros: Macros
    /** The board's GPIO masks and values from the platform data. */
    const gpio: GpioConfig
    /** What each register reads before the driver first writes it. */
    const reset: Reg -> Word
    /** fix.smem_start, the bus address of the frame buffer. */
    const smemStart: u32
    /** pseudo_palette: 16 colours. */
    const palette: array<bv32>
    /** The frame buffer's pixels, as screen_base sees them. */
    const screen: array<bv32>

    /** info->var, the screen parameters. */
    const screenInfo: VarScreenInfo
    /** mach_info->lcd_reg. */
    var lcdReg: LcdReg
    /** Every writel so far, oldest first. */
    var log: seq<Write>
    /** fix.visual and fix.line_length. */
    var visual: Visual
    var lineLength: u32
    /** The LCD clock rate the controller was last programmed for. */
    var clkRate: u32

    ghost predicate Valid()
      reads this
    {
      palette.Length == PaletteSize
    }

    /** The hardware reads back lcd_reg in every controller register. */
    ghost predicate InStep()
      reads this`log, this`lcdReg
    {
      Synced(log, reset, lcdReg)
    }

    /** A device with no register written yet, a zeroed palette and a zeroed frame buffer of
        frameSize pixels. */
    constructor (macros: Macros, gpio: GpioConfig, reset: Reg -> Word, smemStart: u32, frameSize: nat,
                 screenInfo: VarScreenInfo, lcdReg: LcdReg, clkRate: u32)
      ensures Valid() && fresh(palette) && fresh(screen) && screen.Length == frameSize
      ensures palette[..] == seq(PaletteSize, _ => 0) && screen[..] == seq(frameSize, _ => 0)
      ensures this.macros == macros && this.gpio == gpio && this.reset == reset && this.smemStart == smemStart
      ensures this.screenInfo == screenInfo && this.lcdReg == lcdReg && this.clkRate == clkRate && log == []
    {
      this.macros := macros;
      this.gpio := gpio;
      this.reset := reset;
      this.smemStart := smemStart;
      palette := new bv32[PaletteSize](_ => 0);
      screen := new bv32[frameSize](_ => 0);
      this.screenInfo := screenInfo;
      this.lcdReg := lcdReg;
      log := [];
      visual := PseudoColor;
      lineLength := 0;
      this.clkRate := clkRate;
    }

    // -------------------------------------------------------------------------
    // init_registers
    // -------------------------------------------------------------------------

    /** One read-modify-write of init_registers: readl, the mask cleared, the value set, writel
        of the word, which is returned. */
    method MergeRegister(reg: Reg, mask: Word, value: Word) returns (word: Word)
      modifies this`log
      ensures word == MaskedMerge(Current(old(log), reg, reset(reg)), mask, value)
      ensures log == old(log) + [Write(reg, word)]
    {
      word := Current(log, reg, reset(reg));
      word := AndNot(word, mask);
      word := Or(word, value);
      log := log + [Write(reg, word)];
    }

    /** readl, bits set, writel. */
    method SetRegisterBits(reg: Reg, bits: Word) returns (word: Word)
      modifies this`log
      ensures word == Or(Current(old(log), reg, reset(reg)), bits)
      ensures log == old(log) + [Write(reg, word)]
    {
      word := Current(log, reg, reset(reg));
      word := Or(word, bits);
      log := log + [Write(reg, word)];
    }

    /** init_registers: GPF0CON..GPF3CON merged with the board's masks and values, GPD0CON and
        GPD0DAT read, modified and written back, and the display-path control given 2. The
        registers it reads are ones it has not written yet, so each merge works on the word
        from before the call; it writes no controller register. */
    method InitRegisters()
      modifies this`log
      ensures log == old(log) + InitWrites(old(log), reset, gpio)
      ensures old(InStep()) ==> InStep()
    {
      ghost var before := log;
      var w0 := MergeRegister(Gpf0Con, gpio.gpf0conMask, gpio.gpf0con);
      var w1 := MergeRegister(Gpf1Con, gpio.gpf1conMask, gpio.gpf1con);
      var w2 := MergeRegister(Gpf2Con, gpio.gpf2conMask, gpio.gpf2con);
      var w3 := MergeRegister(Gpf3Con, gpio.gpf3conMask, gpio.gpf3con);
      var w4 := MergeRegister(Gpd0Con, Gpd0ConMask, Gpd0ConValue);
      var w5 := SetRegisterBits(Gpd0Dat, Gpd0DatSet);
      log := log + [Write(DisplayControl, DisplayControlValue)];
      InitWritesInOrder(before, reset, gpio, w0, w1, w2, w3, w4, w5);
      if old(InStep()) {
        InitKeepsSync(before, reset, gpio, lcdReg);
      }
    }

    // -------------------------------------------------------------------------
    // activate_var, set_window, lcd_enable and blank
    // -------------------------------------------------------------------------

    /** The writel run of activate_var's first stage: VIDCON0, VIDCON1, VIDTCON0..2 and WINCON0
        given lcd_reg's words, in that order. */
    method WriteControlWords()
      modifies this`log
      ensures log == old(log) + ImageWrites(ControlRegs, lcdReg)
    {
      log := log + [Write(VidCon0, lcdReg.vidcon0)];
      log := log + [Write(VidCon1, lcdReg.vidcon1)];
      log := log + [Write(VidTCon0, lcdReg.vidtcon0)];
      log := log + [Write(VidTCon1, lcdReg.vidtcon1)];
      log := log + [Write(VidTCon2, lcdReg.vidtcon2)];
      log := log + [Write(WinCon0, lcdReg.wincon0)];
      ControlWritesInOrder(old(log), lcdReg);
    }

    /** The writel run of set_window: VIDOSD0A, VIDOSD0B, VIDOSD0C, VIDW00ADD0B0 and VIDW00ADD1B0. */
    method WriteWindowWords()
      modifies this`log
      ensures log == old(log) + ImageWrites(WindowRegs, lcdReg)
    {
      var mmio := log;
      mmio := mmio + [Write(VidOsd0A, lcdReg.vidosd0a)];
      mmio := mmio + [Write(VidOsd0B, lcdReg.vidosd0b)];
      mmio := mmio + [Write(VidOsd0C, lcdReg.vidosd0c)];
      mmio := mmio + [Write(VidW00Add0B0, lcdReg.vidw00addr0b0)];
      mmio := mmio + [Write(VidW00Add1B0, lcdReg.vidw00addr1b0)];
      log := mmio;
      WindowWritesInOrder(old(log), lcdReg);
    }

    /** The writel run that ends activate_var and lcd_enable: SHADOWCON, VIDCON0, WINCON0. */
    method WriteEnableWords()
      modifies this`log
      ensures log == old(log) + ImageWrites(EnableRegs, lcdReg)
    {
      log := log + [Write(ShadowCon, lcdReg.shadowcon)];
      log := log + [Write(VidCon0, lcdReg.vidcon0)];
      log := log + [Write(WinCon0, lcdReg.wincon0)];
      EnableWritesInOrder(old(log), lcdReg);
    }

    /** s5pv210_set_window: the window's corners, size and buffer addresses into lcd_reg, then
        VIDOSD0A, VIDOSD0B, VIDOSD0C, VIDW00ADD0B0 and VIDW00ADD1B0 written in that order. */
    method SetWindow()
      modifies this`lcdReg, this`log
      ensures lcdReg == WindowStage(old(lcdReg), screenInfo, smemStart, macros)
      ensures log == old(log) + ImageWrites(WindowRegs, lcdReg)
    {
      var v := screenInfo;
      lcdReg := lcdReg.(vidosd0a := Or(macros.leftTopX(0), macros.leftTopY(0)),
                        vidosd0b := Or(macros.leftTopX(MinusOne(v.xres)), macros.leftTopY(MinusOne(v.yres))),
                        vidosd0c := Bits(Pixels(v)),
                        vidw00addr0b0 := Bits(smemStart),
                        vidw00addr1b0 := Bits(SecondAddress(smemStart, v)));
      WriteWindowWords();
    }

    /** s5pv210fb_activate_var: the control and timing words into lcd_reg and out to the
        hardware, then set_window, then the channel, video output and window 0 switched on and
        SHADOWCON, VIDCON0 and WINCON0 written last. Afterwards the hardware is in step with
        lcd_reg, whatever it read before. */
    method ActivateVar()
      modifies this`lcdReg, this`log
      ensures lcdReg == Activated(old(lcdReg), screenInfo, smemStart, macros)
      ensures log == old(log) + ActivateWrites(old(lcdReg), screenInfo, smemStart, macros)
      ensures InStep()
    {
      var v := screenInfo;
      var vidcon0 := AndNot(lcdReg.vidcon0, Vidcon0Clear);
      vidcon0 := Or(vidcon0, Vidcon0Set(v));
      var vidcon1 := AndNot(lcdReg.vidcon1, Vidcon1Clear);
      vidcon1 := Or(vidcon1, Vidcon1Set);
      lcdReg := lcdReg.(vidcon0 := vidcon0, vidcon1 := vidcon1,
                        vidtcon0 := VTiming(v, macros), vidtcon1 := HTiming(v, macros), vidtcon2 := Size(v, macros),
                        wincon0 := WinFormat(v, macros));
      assert lcdReg == ControlStage(old(lcdReg), v, macros);
      ghost var c := lcdReg;
      WriteControlWords();

      SetWindow();
      ghost var w := lcdReg;

      lcdReg := lcdReg.(shadowcon := macros.channel0Enable, vidcon0 := Or(lcdReg.vidcon0, macros.envid),
                        wincon0 := Or(lcdReg.wincon0, macros.win0Enable));
      assert lcdReg == EnableStage(w, macros);
      WriteEnableWords();
      StagesActivate(old(lcdReg), v, smemStart, macros, c, w, lcdReg);
      StagedAppends(old(log), c, w, lcdReg);
      ActivateSyncs(old(log), reset, old(lcdReg), v, smemStart, macros);
    }

    /** s5pv210fb_lcd_enable: CHANNEL0_ENABLE, ENVID and WIN0_ENABLE set (enable != 0) or
        cleared in lcd_reg, then SHADOWCON, VIDCON0 and WINCON0 written. A hardware in step
        with lcd_reg stays in step. */
    method LcdEnable(enable: int)
      modifies this`lcdReg, this`log
      ensures lcdReg == if enable != 0 then Enabled(old(lcdReg), macros) else Disabled(old(lcdReg), macros)
      ensures log == old(log) + ImageWrites(EnableRegs, lcdReg)
      ensures old(InStep()) ==> InStep()
    {
      if enable != 0 {
        lcdReg := lcdReg.(shadowcon := Or(lcdReg.shadowcon, macros.channel0Enable),
                          vidcon0 := Or(lcdReg.vidcon0, macros.envid),
                          wincon0 := Or(lcdReg.wincon0, macros.win0Enable));
      } else {
        lcdReg := lcdReg.(shadowcon := AndNot(lcdReg.shadowcon, macros.channel0Enable),
                          vidcon0 := AndNot(lcdReg.vidcon0, macros.envid),
                          wincon0 := AndNot(lcdReg.wincon0, macros.win0Enable));
      }
      WriteEnableWords();
      if old(InStep()) {
        EnableSyncs(old(log), reset, old(lcdReg), macros, enable != 0);
      }
    }

    /** s5pv210fb_blank: FB_BLANK_POWERDOWN switches the display off, every other mode on; it
        always reports success. */
    method Blank(blankMode: int) returns (r: int)
      modifies this`lcdReg, this`log
      ensures r == 0
      ensures lcdReg == if blankMode == BlankPowerdown then Disabled(old(lcdReg), macros) else Enabled(old(lcdReg), macros)
      ensures log == old(log) + ImageWrites(EnableRegs, lcdReg)
      ensures old(InStep()) ==> InStep()
    {
      if blankMode == BlankPowerdown {
        LcdEnable(0);
      } else {
        LcdEnable(1);
      }
      r := 0;
    }

    // -------------------------------------------------------------------------
    // set_par, the cpufreq notifier, suspend and resume
    // -------------------------------------------------------------------------

    /** fix.visual and fix.line_length agree with var's depth and virtual width. */
    ghost predicate FixFollowsVar()
      reads this`visual, this`lineLength
    {
      visual == VisualFor(screenInfo.bitsPerPixel) &&
      lineLength == LineLength(screenInfo.xresVirtual, screenInfo.bitsPerPixel)
    }

    /** The first half of s5pv210fb_set_par: fix.visual by the depth and fix.line_length. */
    method UpdateFix()
      modifies this`visual, this`lineLength
      ensures FixFollowsVar()
    {
      var bpp := screenInfo.bitsPerPixel;
      if bpp == 32 || bpp == 16 || bpp == 12 {
        visual := TrueColor;
      } else if bpp == 1 {
        visual := Mono01;
      } else {
        visual := PseudoColor;
      }
      lineLength := Wrap(screenInfo.xresVirtual * bpp) / 8;
    }

    /** s5pv210fb_set_par: the visual for the depth, the line length, then activate_var. */
    method SetPar() returns (r: int)
      modifies this`visual, this`lineLength, this`lcdReg, this`log
      ensures r == 0
      ensures FixFollowsVar()
      ensures lcdReg == Activated(old(lcdReg), screenInfo, smemStart, macros)
      ensures log == old(log) + ActivateWrites(old(lcdReg), screenInfo, smemStart, macros)
      ensures InStep()
    {
      UpdateFix();
      ActivateVar();
      r := 0;
    }

    /** s5pv210fb_cpufreq_transition: delta_f is the recorded rate minus the rate the clock
        reports (`rate`). After a change that lowered the rate, or before one that raises it,
        the rate the clock reports next (`rateAgain`) is recorded and the controller
        re-programmed; otherwise nothing changes. */
    method CpufreqTransition(val: int, rate: u32, rateAgain: u32) returns (r: int)
      modifies this`clkRate, this`lcdReg, this`log
      ensures r == 0
      ensures ShouldReprogram(val, old(clkRate), rate) ==>
                clkRate == rateAgain && lcdReg == Activated(old(lcdReg), screenInfo, smemStart, macros) &&
                log == old(log) + ActivateWrites(old(lcdReg), screenInfo, smemStart, macros) && InStep()
      ensures !ShouldReprogram(val, old(clkRate), rate) ==>
                clkRate == old(clkRate) && lcdReg == old(lcdReg) && log == old(log)
    {
      var deltaF := Signed(Wrap(clkRate - rate));
      if (val == CpufreqPostchange && deltaF > 0) || (val == CpufreqPrechange && deltaF < 0) {
        clkRate := rateAgain;
        ActivateVar();
      }
      r := 0;
    }

    /** s5pv210fb_suspend: the display switched off. */
    method Suspend() returns (r: int)
      modifies this`lcdReg, this`log
      ensures r == 0
      ensures lcdReg == Disabled(old(lcdReg), macros)
      ensures log == old(log) + ImageWrites(EnableRegs, lcdReg)
    {
      LcdEnable(0);
      r := 0;
    }

    /** s5pv210fb_resume: init_registers, activate_var, then unblank. The hardware ends in step
        with lcd_reg, which is the activated image with the display on. */
    method Resume() returns (r: int)
      modifies this`lcdReg, this`log
      ensures r == 0
      ensures lcdReg == Enabled(Activated(old(lcdReg), screenInfo, smemStart, macros), macros)
      ensures log == old(log) + InitWrites(old(log), reset, gpio) +
                     ActivateWrites(old(lcdReg), screenInfo, smemStart, macros) + ImageWrites(EnableRegs, lcdReg)
      ensures InStep()
    {
      InitRegisters();
      ActivateVar();
      r := Blank(BlankUnblank);
      r := 0;
    }

    // -------------------------------------------------------------------------
    // setcolreg
    // -------------------------------------------------------------------------

    /** s5pv210fb_setcolreg with the palette bound corrected to `regno >= 16`: the three
        intensities packed by the var's channels into palette[regno]. A regno past the palette
        is refused with 1 and changes nothing; otherwise no other entry changes. */
    method SetColReg(regno: u32, red: bv32, green: bv32, blue: bv32, transp: bv32) returns (r: int)
      requires Valid() && ValidChannels(ChannelsOf(screenInfo))
      modifies palette
      ensures PaletteSlot(regno).None? ==> r == 1 && palette[..] == old(palette[..])
      ensures PaletteSlot(regno).Some? ==>
                r == 0 && palette[..] == old(palette[..])[regno := Pack(red, green, blue, ChannelsOf(screenInfo))]
    {
      if regno >= 16 {
        return 1;
      }
      var v := ChanToField(red, screenInfo.red);
      v := v | ChanToField(green, screenInfo.green);
      v := v | ChanToField(blue, screenInfo.blue);
      palette[regno] := v;
      return 0;
    }

    // -------------------------------------------------------------------------
    // lcd_draw_pixel and lcd_clear_screen
    // -------------------------------------------------------------------------

    /** lcd_draw_pixel: the 32-bit colour stored at row * xres + col, an offset computed in
        unsigned 32-bit arithmetic because xres is a __u32. */
    method DrawPixel(row: int, col: int, color: int) returns (r: int)
      requires Wrap(row * screenInfo.xres + col) < screen.Length
      modifies screen
      ensures r == 0
      ensures screen[..] == old(screen[..])[Wrap(row * screenInfo.xres + col) := Wrap(color) as bv32]
    {
      screen[Wrap(row * screenInfo.xres + col)] := Wrap(color) as bv32;
      r := 0;
    }

    /** lcd_clear_screen: every pixel of the xres x yres frame, row by row, given the colour; the
        rest of the buffer is not touched. A buffer in a 32-bit address space has fewer than 2^32
        pixels, so no pixel offset wraps. */
    method ClearScreen(color: int) returns (r: int)
      requires screenInfo.xres * screenInfo.yres <= screen.Length <= Two32
      modifies screen
      ensures r == 0
      ensures forall k :: 0 <= k < screenInfo.xres * screenInfo.yres ==> screen[k] == Wrap(color) as bv32
      ensures forall k :: screenInfo.xres * screenInfo.yres <= k < screen.Length ==> screen[k] == old(screen[k])
    {
      var pixel: bv32 := Wrap(color) as bv32;
      ghost var initial := screen[..];
      var xres: nat := screenInfo.xres;
      var yres: nat := screenInfo.yres;
      var i: nat, done: nat := 0, 0;
      while i < yres
        invariant 0 <= i <= yres && done == i * xres
        invariant ClearedUpTo(screen[..], initial, done, pixel)
      {
        FrameRow(i, xres, yres);
        ghost var before := screen[..];
        ClearRow(i, done, color);
        RowCleared(before, screen[..], initial, done, xres, pixel);
        i, done := i + 1, done + xres;
      }
      assert done == xres * yres;
      r := 0;
    }

    /** The inner loop of lcd_clear_screen: the xres pixels of row i, which starts at offset
        done, given the colour, one lcd_draw_pixel call each. */
    method ClearRow(i: nat, done: nat, color: int)
      requires done == i * screenInfo.xres && done + screenInfo.xres <= screen.Length <= Two32
      modifies screen
      ensures forall k :: 0 <= k < screen.Length ==>
                screen[k] == if done <= k < done + screenInfo.xres then Wrap(color) as bv32 else old(screen[k])
    {
      var xres: nat := screenInfo.xres;
      var j: nat := 0;
      while j < xres
        invariant 0 <= j <= xres
        invariant forall k :: 0 <= k < screen.Length ==>
                    screen[k] == if done <= k < done + j then Wrap(color) as bv32 else old(screen[k])
      {
        PixelOffset(i, j, xres, done, screen.Length);
        var _ := DrawPixel(i, j, color);
        j := j + 1;
      }
    }
  }

  /** The first n pixels of s hold c and the rest are those of initial. */
  ghost predicate ClearedUpTo(s: seq<bv32>, initial: seq<bv32>, n: nat, c: bv32) {
    |s| == |initial| && n <= |s| &&
    (forall k :: 0 <= k < n ==> s[k] == c) && (forall k :: n <= k < |s| ==> s[k] == initial[k])
  }

  /** Clearing the row that starts at done extends the cleared prefix by the row. */
  lemma RowCleared(before: seq<bv32>, after: seq<bv32>, initial: seq<bv32>, done: nat, xres: nat, c: bv32)
    requires ClearedUpTo(before, initial, done, c) && done + xres <= |before| == |after|
    requires forall k :: 0 <= k < |after| ==> after[k] == if done <= k < done + xres then c else before[k]
    ensures ClearedUpTo(after, initial, done + xres, c)
  {
  }

  /** Pixel j of row i sits at offset done + j, inside the buffer, with no 32-bit wrap. */
  lemma PixelOffset(i: nat, j: nat, xres: nat, done: nat, length: nat)
    requires done == i * xres && j < xres && done + xres <= length <= Two32
    ensures Wrap(i * xres + j) == done + j < length
  {
  }

  /** Row i of a frame with yres rows of xres pixels ends where row i + 1 starts, inside the
      frame. */
  lemma FrameRow(i: nat, xres: nat, yres: nat)
    requires i < yres
    ensures (i + 1) * xres == i * xres + xres <= xres * yres
  {
    assert (i + 1) * xres <= yres * xres by {
      MultiplyMonotone(i + 1, yres, xres);
    }
  }

  lemma MultiplyMonotone(a: nat, b: nat, c: nat)
    requires a <= b
    ensures a * c <= b * c
  {
  }
}
