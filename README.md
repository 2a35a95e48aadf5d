# s5pv210 framebuffer, AT24C02 EEPROM and perf thread: a Dafny model

This project models three small pieces of sequential logic from a Linux 3.8 tree and proves
properties of them.

- **The s5pv210 LCD framebuffer driver** (`drivers/video/s5pv210fb.c`).
  - The driver keeps a software copy of the display controller's registers, `mach_info->lcd_reg`.
    It has the shape of `struct s5pv210_lcd_reg` in `plat/fb-s5pv210.h`.
  - `activate_var`, `set_window` and `lcd_enable` recompute that copy from the screen parameters
    with clear/set masks and `x - 1` encodings, then `writel` it to the controller in a fixed order.
  - `init_registers` does a read-modify-write of the GPIO banks.
  - `check_var` fills in a red/green/blue bit-field table keyed by bits per pixel.
  - `setcolreg` packs 16-bit intensities into a 16-entry pseudo palette.
  - `set_par` picks a visual and a line length.
  - `lcd_clear_screen` fills the pixel buffer.
  - The cpufreq notifier decides whether to re-program the controller.
- **The AT24C02 EEPROM driver** (`drivers/i2c/i2c_device/at24c02.c`).
  - `at24c02_write_bytes` splits a write into I2C frames. Each frame is an address byte followed by
    at most one 8-byte page.
  - `at24c02_read_bytes` writes a terminator at `data[BUF_SIZE]`. This is a demand on the size of
    the caller's buffer.
- **The perf thread record** (`tools/perf/util/thread.c`).
  - The record keeps a name (`comm`), a flag saying the name was set (`comm_set`) and a memoised
    name length (`comm_len`).
  - `thread__new`, `thread__set_comm`, `thread__comm_len` and `thread__fork` update these fields in
    place.

## How the model is built

- **Register words are sets of bit positions** (`Words.Word = set<nat>`).
  - Clearing with `&= ~mask` is set difference, setting with `|=` is union, and the GPIO
    read-modify-write is `MaskedMerge`.
  - In set algebra, facts like "every bit outside the mask is kept" or "running it twice is
    running it once" are proved without bit-vector reasoning.
  - The field macros and enable bits of `mach/regs-lcd.h` (`S5PV210_LCD_VBPD`, `ENVID`,
    `WIN0_ENABLE`, ...) are not part of this model. They enter as the `RegsLcd.Macros` record: one
    encoder per field (a function from the field's value to a word) and one word per enable bit.
    No bit position of theirs is assumed.
  - Pure numbers stored in a register (the pixel count, the buffer addresses, the pixel clock)
    become words through `Words.Bits`. They decode back through `Words.Value`, and the round trip
    is proved (`Words.ValueBits`).
- **Memory-mapped I/O is an append-only log** of `(register, word)` writes (`RegsLcd.Write`).
  - `readl` of a register is the last write to it, or its reset value (`RegsLcd.Current`).
  - The write order is stated directly as the log's contents.
- **The framebuffer device is a class** (`S5pv210Fb.FbDevice`).
  - Its fields are the register image `lcdReg`, the write log, `fix.visual`, `fix.line_length`,
    `clk_rate`, a 16-entry `palette` array and a `screen` pixel array.
  - The methods update these fields as the C functions do.
  - Each method is specified by a function on the old image (module `S5pv210FbImage`). The
    properties are proved about those functions.
  - The predicate `FbDevice.InStep` says that every controller register reads back the image's
    word.
- **Unsigned 32-bit arithmetic** (`__u32`, `unsigned long`) is `Fb.u32`, with explicit wrap-around
  (`Fb.Wrap`). So `upper_margin - 1` with a zero margin gives `0xFFFFFFFF`, as in C.
- **`i2c_master_send` is an oracle**: the k-th send returns `replies[k]`. The write loop is proved
  against a recursive reference, `At24c02.WriteTrace`, and that reference is proved to send exactly
  the page plan (`At24c02.Plan`) whenever every send transfers its whole frame.
- **The thread record is a class** (`PerfThread.Thread`). `malloc`, `strdup` and
  `map_groups__clone` are fallible steps whose outcomes are parameters.

## Model

| member | source | states |
|---|---|---|
| Words.MergeSets | drivers/video/s5pv210fb.c:169-172 | after `(old & ~mask) \| value` every bit of value is set |
| Words.MergeClears | drivers/video/s5pv210fb.c:169-172 | every masked bit that value does not set is clear |
| Words.MergeKeeps | drivers/video/s5pv210fb.c:169-172 | bits outside the mask and the value keep the old word's value |
| Words.MergeAssigns | drivers/video/s5pv210fb.c:189-192 | when value lies inside the mask, the merged word reads exactly value inside the mask |
| Words.MergeKeepsInside | drivers/video/s5pv210fb.c:189-192 | when value lies inside the mask, every bit outside the mask is kept |
| Words.MaskedMergeIdempotent | drivers/video/s5pv210fb.c:169-172 | merging twice with the same mask and value is merging once |
| Words.MaskedMergeThenSet | drivers/video/s5pv210fb.c:305 | setting more bits after a merge is one merge with the larger value |
| Words.MaskedMergeForgetsSet | drivers/video/s5pv210fb.c:305 | clearing bits that the merge then sets again does not change its result |
| Words.OrSets | drivers/video/s5pv210fb.c:450-452 | `\|=` sets every given bit |
| Words.OrKeeps | drivers/video/s5pv210fb.c:450-452 | `\|=` keeps every other bit |
| Words.AndNotClears | drivers/video/s5pv210fb.c:456-458 | `&= ~bits` clears every given bit |
| Words.AndNotKeeps | drivers/video/s5pv210fb.c:456-458 | `&= ~bits` keeps every other bit |
| Words.OrIdempotent | drivers/video/s5pv210fb.c:450-452 | setting the same bits twice is setting them once |
| Words.AndNotIdempotent | drivers/video/s5pv210fb.c:456-458 | clearing the same bits twice is clearing them once |
| Words.ClearThenSet | drivers/video/s5pv210fb.c:456-458 | clearing bits that were set and setting them again restores the word |
| Words.ValueBits | drivers/video/s5pv210fb.c:224-228 | a 32-bit number stored as a register word decodes back to itself |
| S5pv210FbVar.ChannelTable | drivers/video/s5pv210fb.c:349-396 | the table has a row exactly for bpp 1, 2, 4, 8, 12, 16, 24 and 32 |
| S5pv210FbVar.PaletteDepthShared | drivers/video/s5pv210fb.c:350-357 | for 1, 2 and 4 bpp red is (0, bpp), and green and blue are the same field |
| S5pv210FbVar.LayoutsPacked | drivers/video/s5pv210fb.c:358-394 | the 332, 444, 565 and 888 layouts each have disjoint channels that fit in 8, 12, 16 and 24 bits |
| S5pv210FbVar.PackedDepthFormats | drivers/video/s5pv210fb.c:358-394 | 8, 12, 16 and 24/32 bpp get 332, 444, 565 and 888, each disjoint and within the pixel's colour bits |
| S5pv210FbVar.CheckVar | drivers/video/s5pv210fb.c:319-398 | the virtual size, the panel size and the timings come from the platform data; transp is (0, 0); r/g/b come from the table row, or are untouched when bpp has none; xres, yres and bpp are kept |
| S5pv210FbVar.CheckVarIdempotent | drivers/video/s5pv210fb.c:319-398 | checking an already checked var changes nothing |
| S5pv210FbVar.Rgb332ReadsBack | drivers/video/s5pv210fb.c:405-410 | under 332, each intensity's top bits are read back from its field of the packed colour, and the colour stays within 8 bits |
| S5pv210FbVar.Rgb444ReadsBack | drivers/video/s5pv210fb.c:405-410 | the same read-back under 444, within 12 bits |
| S5pv210FbVar.Rgb565ReadsBack | drivers/video/s5pv210fb.c:405-410 | the same read-back under 565, within 16 bits |
| S5pv210FbVar.Rgb888ReadsBack | drivers/video/s5pv210fb.c:405-410 | the same read-back under 888, within 24 bits |
| S5pv210FbVar.PackRoundTrip | drivers/video/s5pv210fb.c:424-426 | after check_var at a packed depth, `chan_to_field` of red, green and blue ORed together gives back each intensity's top bits and uses no bit above the colour bits |
| S5pv210FbVar.SlotAsWritten | drivers/video/s5pv210fb.c:420-429 | the guard as written accepts regno exactly when regno <= 16, and stores at pseudo_palette[regno] |
| S5pv210FbVar.SlotAsWrittenOverruns | drivers/video/s5pv210fb.c:413-429 | regno 16 is accepted and indexes past the 16-entry palette |
| S5pv210FbVar.PaletteSlot | drivers/video/s5pv210fb.c:413-429 | the corrected guard accepts regno exactly when regno < 16, and the slot is then regno, inside the palette |
| S5pv210FbVar.PaletteSlotDiffersOnlyAt16 | drivers/video/s5pv210fb.c:420 | the two guards differ exactly at regno 16 |
| S5pv210FbVar.VisualFor | drivers/video/s5pv210fb.c:604-616 | TRUECOLOR exactly for bpp 12, 16 and 32; MONO01 exactly for bpp 1; PSEUDOCOLOR exactly for every other bpp |
| S5pv210FbVar.PackedButPseudoColor | drivers/video/s5pv210fb.c:604-616 | 8 and 24 bpp get a packed RGB layout from check_var but the PSEUDOCOLOR visual from set_par |
| S5pv210FbVar.LineLengthBytes | drivers/video/s5pv210fb.c:618 | the line length is xres_virtual·bpp/8 when that product fits 32 bits; when it wraps, the line length is strictly less than the true byte count |
| S5pv210FbVar.ReprogramForRealRates | drivers/video/s5pv210fb.c:511-517 | for rates below 2^31 Hz the controller is re-programmed exactly after a change that lowered the rate or before one that raises it |
| S5pv210FbVar.RateDeltaWraps | drivers/video/s5pv210fb.c:511-513 | rates 2^31 or more apart wrap in the signed difference: a rise from 0 to 2^31 + 1 reads as a drop and re-programs on POSTCHANGE |
| S5pv210FbImage.InitStep | drivers/video/s5pv210fb.c:169-198 | init_registers touches exactly GPF0-3CON, GPD0CON, GPD0DAT and the display-path control; every other register is kept |
| S5pv210FbImage.InitWriteOrder | drivers/video/s5pv210fb.c:169-198 | its writes go to GPF0CON, GPF1CON, GPF2CON, GPF3CON, GPD0CON, GPD0DAT and the display-path control, in that order, once each |
| S5pv210FbImage.InitEffect | drivers/video/s5pv210fb.c:169-198 | afterwards every touched register reads its merged word and every other register reads as before |
| S5pv210FbImage.InitMerges | drivers/video/s5pv210fb.c:169-187 | a GPF bank whose value lies inside its mask reads the value inside the mask and its old bits outside it |
| S5pv210FbImage.InitSetsGpd0Con | drivers/video/s5pv210fb.c:189-192 | GPD0CON's nibbles at bits 0-3 and 12-15 become 0b0001 each, and its other bits are kept |
| S5pv210FbImage.InitSetsGpd0Dat | drivers/video/s5pv210fb.c:194-196 | GPD0DAT has bits 0 and 3 set, and its other bits are kept |
| S5pv210FbImage.InitSets | drivers/video/s5pv210fb.c:194-196 | a register whose bits are ORed in ends with them set and its other bits kept |
| S5pv210FbImage.InitAssignsDisplay | drivers/video/s5pv210fb.c:198 | the display-path control is given 2 |
| S5pv210FbImage.InitIdempotent | drivers/video/s5pv210fb.c:141-209 | running init_registers twice leaves every register reading as after one run |
| S5pv210FbImage.InitRegsNotLcd | drivers/video/s5pv210fb.c:160-162 | the GPIO and display-path registers are none of the display controller's |
| S5pv210FbImage.InitKeepsSync | drivers/video/s5pv210fb.c:141-209 | init_registers does not disturb a controller that is in step with lcd_reg |
| S5pv210FbImage.InitWordsRead | drivers/video/s5pv210fb.c:169-196 | each word init_registers writes is the merge of what that register read after the writes before it |
| S5pv210FbImage.InitWritesInOrder | drivers/video/s5pv210fb.c:169-198 | the seven writes issued one by one make up the init write sequence |
| S5pv210FbImage.MinusOne | drivers/video/s5pv210fb.c:273-282 | `x - 1` in 32 bits: the predecessor of x, or 0xFFFFFFFF for 0 |
| S5pv210FbImage.Pixels | drivers/video/s5pv210fb.c:224 | xres times yres, when the product fits in 32 bits |
| S5pv210FbImage.FrameBytes | drivers/video/s5pv210fb.c:228 | the pixel count times bytes per pixel, when the product fits in 32 bits |
| S5pv210FbImage.ActivatedControl | drivers/video/s5pv210fb.c:267-271 | VIDCON0 is one merge of the old word (bits 2, 6-13, 18, 26-27 cleared; the pixel clock at bit 6, bit 4 and ENVID set); VIDCON1 has bit 7 cleared and bits 5 and 6 set |
| S5pv210FbImage.ActivatedKeepsControlBits | drivers/video/s5pv210fb.c:267-271 | outside those masks VIDCON0 and VIDCON1 keep every old bit; the set bits are set and VIDCON1 bit 7 is clear |
| S5pv210FbImage.ActivatedWords | drivers/video/s5pv210fb.c:273-284 | VIDTCON0/1/2 are the timing encoders of each parameter minus one; WINCON0 is FRAME565 for 16 bpp, FRAME888 otherwise, with WSWP and WIN0 enabled; SHADOWCON is CHANNEL0_ENABLE |
| S5pv210FbImage.ZeroMarginWraps | drivers/video/s5pv210fb.c:273-275 | a zero upper margin is not rejected: VBPD is given 0xFFFFFFFF |
| S5pv210FbImage.ActivatedWindow | drivers/video/s5pv210fb.c:218-228 | set_window's words: corners (0, 0) and (xres - 1, yres - 1), the pixel count, and the two buffer addresses |
| S5pv210FbImage.ActivatedGeometry | drivers/video/s5pv210fb.c:218-228 | decoded, VIDOSD0C is xres·yres, the first buffer is smem_start, and the second is one frame past it, modulo 2^32 |
| S5pv210FbImage.WindowValues | drivers/video/s5pv210fb.c:224-228 | stored count and addresses decode to the count, the start, and a distance of one frame |
| S5pv210FbImage.ActivatedKeeps | drivers/video/s5pv210fb.c:254-311 | activate_var leaves VIDTCON3, WINCON2 and VIDW00ADD2 alone |
| S5pv210FbImage.ActivateIdempotent | drivers/video/s5pv210fb.c:254-311 | activating twice with the same var gives the image of activating once |
| S5pv210FbImage.EnableSetsBits | drivers/video/s5pv210fb.c:448-453 | lcd_enable(1) sets CHANNEL0_ENABLE, ENVID and WIN0_ENABLE and changes no other bit or field |
| S5pv210FbImage.DisableClearsBits | drivers/video/s5pv210fb.c:454-459 | lcd_enable(0) clears those three bits and changes no other bit or field |
| S5pv210FbImage.EnableIdempotent | drivers/video/s5pv210fb.c:448-459 | each direction of lcd_enable is idempotent |
| S5pv210FbImage.ActivatedIsEnabled | drivers/video/s5pv210fb.c:304-306 | an activated image is already enabled |
| S5pv210FbImage.DisableEnableRestores | drivers/video/s5pv210fb.c:439-466 | switching an activated display off and on again restores its image |
| S5pv210FbImage.ReactivateAfterDisable | drivers/video/s5pv210fb.c:254-311 | activating a switched-off image restores the activated image |
| S5pv210FbImage.ActivateWriteOrder | drivers/video/s5pv210fb.c:294-310 | activate_var writes VIDCON0, VIDCON1, VIDTCON0-2, WINCON0, then the five window registers, then SHADOWCON, VIDCON0, WINCON0 |
| S5pv210FbImage.StagedSyncs | drivers/video/s5pv210fb.c:294-310 | after the three stages' writes every controller register reads the final image's word and every other register reads as before |
| S5pv210FbImage.ActivateSyncs | drivers/video/s5pv210fb.c:294-310 | after activate_var's writes the controller is in step with the new image, and no other register changed |
| S5pv210FbImage.ImageWritesSync | drivers/video/s5pv210fb.c:461-463 | writing a new image's words to a list of registers brings a controller in step with the old image into step with the new one, when the two images differ only in those registers |
| S5pv210FbImage.EnableSyncs | drivers/video/s5pv210fb.c:461-463 | after lcd_enable's three writes a controller that was in step with the old image is in step with the enabled or disabled one |
| S5pv210Fb.FbDevice.MergeRegister | drivers/video/s5pv210fb.c:169-172 | reads the register, writes `(old & ~mask) \| value` back, and returns that word |
| S5pv210Fb.FbDevice.SetRegisterBits | drivers/video/s5pv210fb.c:194-196 | reads the register, writes it back with the bits ORed in, and returns that word |
| S5pv210Fb.FbDevice.InitRegisters | drivers/video/s5pv210fb.c:141-209 | appends exactly the init writes, and keeps the controller in step |
| S5pv210Fb.FbDevice.WriteControlWords | drivers/video/s5pv210fb.c:294-299 | appends the six control writes of the current image |
| S5pv210Fb.FbDevice.WriteWindowWords | drivers/video/s5pv210fb.c:239-243 | appends the five window writes of the current image |
| S5pv210Fb.FbDevice.WriteEnableWords | drivers/video/s5pv210fb.c:308-310 | appends the three enable writes of the current image |
| S5pv210Fb.FbDevice.SetWindow | drivers/video/s5pv210fb.c:211-247 | updates the window words of lcd_reg, then writes them |
| S5pv210Fb.FbDevice.ActivateVar | drivers/video/s5pv210fb.c:254-311 | lcd_reg becomes the activated image, the log grows by the activate writes, and the controller ends in step |
| S5pv210Fb.FbDevice.LcdEnable | drivers/video/s5pv210fb.c:439-466 | lcd_reg is enabled for a non-zero argument and disabled for zero, then the three enable registers are written |
| S5pv210Fb.FbDevice.Blank | drivers/video/s5pv210fb.c:481-496 | FB_BLANK_POWERDOWN disables and every other mode enables; returns 0 |
| S5pv210Fb.FbDevice.UpdateFix | drivers/video/s5pv210fb.c:604-618 | fix.visual and fix.line_length follow the var |
| S5pv210Fb.FbDevice.SetPar | drivers/video/s5pv210fb.c:600-624 | the fix follows the var, the controller is activated and in step; returns 0 |
| S5pv210Fb.FbDevice.CpufreqTransition | drivers/video/s5pv210fb.c:500-520 | when the notifier's condition holds, records the clock's rate and re-activates; otherwise nothing changes; returns 0 |
| S5pv210Fb.FbDevice.Suspend | drivers/video/s5pv210fb.c:550-565 | the display is switched off; returns 0 |
| S5pv210Fb.FbDevice.Resume | drivers/video/s5pv210fb.c:567-582 | init, activate and unblank, in that order; the controller ends in step with the enabled activated image |
| S5pv210Fb.FbDevice.SetColReg | drivers/video/s5pv210fb.c:414-431 | with the corrected guard, refuses regno >= 16 with 1 and no change; otherwise stores the packed colour at palette[regno] only and returns 0 |
| S5pv210Fb.FbDevice.DrawPixel | drivers/video/s5pv210fb.c:65-72 | stores the colour, cut to 32 bits, at the offset row·xres + col taken mod 2^32, and nowhere else; returns 0 |
| S5pv210Fb.FbDevice.ClearScreen | drivers/video/s5pv210fb.c:74-85 | every pixel below xres·yres holds the colour and every pixel beyond it is untouched |
| S5pv210Fb.FbDevice.ClearRow | drivers/video/s5pv210fb.c:79-83 | the inner loop gives the colour, cut to 32 bits, to exactly the xres pixels of row i, which start at i·xres, and leaves every other pixel as it was |
| S5pv210Fb.FrameRow | drivers/video/s5pv210fb.c:78-79 | row i of the frame ends at (i + 1)·xres, within xres·yres |
| At24c02.Advance | drivers/i2c/i2c_device/at24c02.c:37 | the unsigned char address advanced by len wraps modulo 256 |
| At24c02.FirstChunk | drivers/i2c/i2c_device/at24c02.c:23 | the first chunk is 8 - reg mod 8 bytes, between 1 and 8 |
| At24c02.AdvanceToBoundary | drivers/i2c/i2c_device/at24c02.c:23 | after the first full chunk the address is a multiple of 8 |
| At24c02.PagesPayloads | drivers/i2c/i2c_device/at24c02.c:37-45 | the page frames' payloads, concatenated, are the data |
| At24c02.PlanPayloads | drivers/i2c/i2c_device/at24c02.c:29-45 | the whole plan's payloads, concatenated, are the data |
| At24c02.PagesWithinPage | drivers/i2c/i2c_device/at24c02.c:37-40 | starting at a page boundary, every frame starts at a boundary and stays within one page |
| At24c02.PlanWithinPages | drivers/i2c/i2c_device/at24c02.c:23-40 | no frame of the plan crosses an 8-byte page, and every frame after the first starts at a boundary |
| At24c02.PagesAddresses | drivers/i2c/i2c_device/at24c02.c:37-38 | each page frame's address is the previous one's plus its payload length |
| At24c02.PlanAddresses | drivers/i2c/i2c_device/at24c02.c:37-38 | the plan starts at reg, and each frame's address is the previous one's plus its payload length, modulo 256 |
| At24c02.ProgressStep | drivers/i2c/i2c_device/at24c02.c:44-45 | each send advances the progress by its return value minus 1 |
| At24c02.AdvanceTwice | drivers/i2c/i2c_device/at24c02.c:37 | advancing the address twice is advancing it by the sum |
| At24c02.SentExtend | drivers/i2c/i2c_device/at24c02.c:37-45 | the next frame is the next chunk of data at the advanced address |
| At24c02.OnPlanStep | drivers/i2c/i2c_device/at24c02.c:37-45 | while every send is full, the next frame sent is the next frame of the plan |
| At24c02.LoopStart | drivers/i2c/i2c_device/at24c02.c:23-34 | the first chunk and first send establish the loop invariant |
| At24c02.LoopStep | drivers/i2c/i2c_device/at24c02.c:35-46 | one iteration of the loop keeps the invariant |
| At24c02.LoopDone | drivers/i2c/i2c_device/at24c02.c:35-48 | when the loop ends after full sends, exactly the plan was sent and the returned length is the last chunk's |
| At24c02.EndWritten | drivers/i2c/i2c_device/at24c02.c:47-48 | a loop that ends returns the last send's progress |
| At24c02.EndEarly | drivers/i2c/i2c_device/at24c02.c:39-41 | a chunk outside the data, or running out of replies, ends the trace |
| At24c02.RunFromFacts | drivers/i2c/i2c_device/at24c02.c:35-48 | from any state satisfying the loop invariant, the reference run ends as the invariant says |
| At24c02.WriteTraceFacts | drivers/i2c/i2c_device/at24c02.c:17-49 | every frame is the next chunk at the advanced address, at most 9 bytes; a completed write returns the last send's progress |
| At24c02.WriteTraceFullTransfers | drivers/i2c/i2c_device/at24c02.c:17-49 | when every send is full, the write sends exactly the page plan and returns the length of the last chunk, not the total |
| At24c02.WriteBytes | drivers/i2c/i2c_device/at24c02.c:17-49 | the loop sends the frames and returns the result of the reference trace |
| At24c02.FullWriteRoundTrip | drivers/i2c/i2c_device/at24c02.c:17-49 | the plan's payloads are data[0..count) and no frame crosses a page |
| At24c02.LastChunk | drivers/i2c/i2c_device/at24c02.c:23-28 | the last chunk of a write is count itself when count fits in reg's page; otherwise it is between 1 and 8 bytes |
| At24c02.PagesLast | drivers/i2c/i2c_device/at24c02.c:37-45 | for non-empty data, the last 8-byte page frame carries (n - 1) mod 8 + 1 bytes |
| At24c02.PlanLast | drivers/i2c/i2c_device/at24c02.c:23-45 | the last frame of the page plan carries LastChunk(reg, count) bytes |
| At24c02.FullWriteReturns | drivers/i2c/i2c_device/at24c02.c:47-48 | when every send is full, the write returns LastChunk(reg, count), not count |
| At24c02.ReadBytes | drivers/i2c/i2c_device/at24c02.c:51-63 | needs a buffer longer than BUF_SIZE; writes 0 at data[20]; sends the address; returns count or the error; the received bytes land in data[0..count) |
| At24c02.Show | drivers/i2c/i2c_device/at24c02.c:65-71 | reads 20 bytes from address 0 into a 21-byte buffer ending in 0; returns 0 |
| At24c02.Store | drivers/i2c/i2c_device/at24c02.c:72-76 | writes the buffer from address 0 and returns count |
| PerfThread.DigitRoundTrip | tools/perf/util/thread.c:19 | a digit's character reads back as the digit |
| PerfThread.DigitsRoundTrip | tools/perf/util/thread.c:19 | the decimal digits of n read back as n |
| PerfThread.DecimalRoundTrip | tools/perf/util/thread.c:19 | `%d` of any integer parses back to it |
| PerfThread.DecimalOfPidLength | tools/perf/util/thread.c:19 | `%d` of a 32-bit pid is at most 11 characters |
| PerfThread.Snprintf | tools/perf/util/thread.c:19 | output shorter than the buffer; the whole string when it fits; otherwise a prefix of it |
| PerfThread.PidComm | tools/perf/util/thread.c:17-19 | the name is ':' then the decimal pid, at most 12 characters, and parses back to the pid |
| PerfThread.FirstFailure | tools/perf/util/thread.c:82-85 | the index of the first failing clone: every clone before it succeeds, and it fails when in range |
| PerfThread.FirstFailureUnique | tools/perf/util/thread.c:82-85 | any index with those two properties is that one |
| PerfThread.Types | tools/perf/util/thread.c:82 | the map types 0..k-1 in order |
| PerfThread.Thread.Zeroed | tools/perf/util/thread.c:12 | a zeroed record: comm_set false, comm_len 0, no clones |
| PerfThread.Thread.New | tools/perf/util/thread.c:10-23 | NULL when zalloc fails; otherwise pid set, comm_set false, comm_len 0, and comm ":<pid>" or NULL when malloc fails |
| PerfThread.Thread.SetComm | tools/perf/util/thread.c:32-44 | on success comm is the copy, comm_set true, returns 0; on failure -ENOMEM, comm NULL, comm_set unchanged; comm_len is never reset |
| PerfThread.Thread.CommLen | tools/perf/util/thread.c:46-55 | a non-zero cache is returned as is; otherwise 0 for NULL, or strlen(comm) cached |
| PerfThread.Thread.Fork | tools/perf/util/thread.c:69-86 | copies the parent's comm only when the parent's is set, -ENOMEM if the copy fails; clones types in order up to the first failure; 0 only if all succeed |
| PerfThread.StaleCommLen | tools/perf/util/thread.c:32-55 | a length cached before set_comm is returned stale after it |
| PerfThread.SetButNull | tools/perf/util/thread.c:36-42 | a failed set_comm after a successful one leaves comm_set true with comm NULL |

## Left out

- Probe, remove, module init and the framebuffer/cpufreq registration (drivers/video/s5pv210fb.c:669-898). They are kernel resource plumbing.
- `map_video_memory` and `unmap_video_memory`. They use a foreign DMA allocator. The freed size (`PAGE_ALIGN(smem_len)`) is smaller than the allocated one (`PAGE_ALIGN(smem_len + PAGE_SIZE)`); this is noted here and not modelled.
- `clk_enable`, `clk_disable`, `local_irq_save/restore`, `usleep_range` and `msleep`. They do clock gating, concurrency and timing, with no effect on the register words.
- `clk_get_rate`: it becomes the two parameters `rate` and `rateAgain` of `FbDevice.CpufreqTransition`, because the C function calls it twice.
- `s5pv210fb.h` and `mach/regs-lcd.h` are not part of this model.
  - The type of `clk_rate` is taken to be `unsigned long`, which is 32 bits on this ARM target.
  - The register macros are parameters, so no property mentions their bit positions.
- The debug sysfs attribute, `dprintk`, and `cfb_fillrect`/`copyarea`/`imageblit`. They only log, or are foreign.
- `readl`/`writel` as real hardware: registers read back the last value written, and no side effects of a write are modelled.
- S5pv210Fb.FbDevice.SetColReg: the global `pseudo_palette` is the device's `palette` array. The model uses the corrected bound (see Findings), and ignores `transp` as the C code does.
- S5pv210Fb.FbDevice.SetColReg: requires ValidChannels (each channel at most 16 bits long, at an offset below 32), because the C shifts are undefined otherwise.
- S5pv210Fb.FbDevice.DrawPixel: the offset row·xres + col wraps at 32 bits as in C; the model requires the wrapped offset to be inside the buffer, because the C code writes through a raw pointer with no check and an out-of-range write is undefined behaviour.
- S5pv210Fb.FbDevice.ClearScreen: requires xres·yres pixels in the buffer, because the C loop writes them with no check. It also requires at most 2^32 pixels in the buffer, as in a 32-bit address space, so no pixel offset wraps.
- S5pv210FbVar.CheckVar: for 1, 2 and 4 bpp the three channels are one and the same field, so they are not disjoint. Disjointness (`Packed`) is stated for 8, 12, 16 and 24/32 bpp only.
- S5pv210Fb.FbDevice.CpufreqTransition: the decision is the code's. It computes delta = recorded rate minus reported rate, "<0 for speed-up" (drivers/video/s5pv210fb.c:510). It re-programs on POSTCHANGE when delta > 0 and on PRECHANGE when delta < 0, and in no other case.
- At24c02.WriteBytes: `i2c_master_send` is an oracle given as `replies`. When the replies run out before the loop ends, the model stops with `Unfinished`, where the C loop would send again. A send that reports no progress makes the C loop spin forever.
- At24c02.WriteBytes: a chunk whose `memcpy` would read outside data[0..count) stops with `OutOfBounds`. In the C code this is undefined behaviour; it happens after a send reports negative progress.
- The at24c02 probe/remove/sysfs registration and `i2c_add_driver`, and `i2c_master_send`/`i2c_master_recv` themselves.
- At24c02.ReadBytes: requires a buffer of more than BUF_SIZE bytes. This is what the unconditional store at data[20] demands; `show` passes exactly 21.
- `map_groups__init`, `map_groups__clone` and the rest of the perf map groups: a foreign rbtree. A clone is a fallible step (`cloneOk`), and `MAP__NR_TYPES` is `|cloneOk|`.
- `thread__delete`, `thread__insert_map`, `thread__fprintf` and `machine__fprintf`: freeing and stdio.
- PerfThread.Thread.Fork: requires the parent's comm to be non-NULL when its comm_set holds, because `strdup(NULL)` is undefined behaviour. `PerfThread.SetButNull` shows that such a parent is reachable.
- PerfThread.Thread.Fork: requires parent != this. A thread forked from itself is not modelled.
- PerfThread.Thread.CommLen: `comm_len` is an unbounded integer, not the C `int`. A name longer than 2^31 - 1 bytes is not modelled.
- `malloc`, `strdup` and `zalloc`: their outcomes are the boolean parameters `mallocOk`, `dupOk` and `zallocOk`.

## Findings

| source | as written | input that shows it | evidently intended | confidence | as-written member | corrected member |
|---|---|---|---|---|---|---|
| drivers/video/s5pv210fb.c:420 | `regno > 16` rejects only regno 17 and above, then stores at `pseudo_palette[regno]` in a 16-entry array | regno = 16: accepted, and the store lands one past the end of the array | `regno >= 16`: every accepted regno is a palette slot | not executed | S5pv210FbVar.SlotAsWrittenOverruns | S5pv210Fb.FbDevice.SetColReg |
