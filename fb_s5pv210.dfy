/** The records of plat/fb-s5pv210.h: the driver's software copy of the display controller
    registers, and the board's GPIO configuration for the LCD pins. */
module PlatFbS5pv210 {
  import opened Words

  /** struct s5pv210_lcd_reg: one unsigned long (32 bits on this SoC) per register,
      each a word of set bit positions. */
  datatype LcdReg = LcdReg(
    vidcon0: Word, vidcon1: Word,
    vidtcon0: Word, vidtcon1: Word, vidtcon2: Word, vidtcon3: Word,
    wincon0: Word, wincon2: Word, shadowcon: Word,
    vidosd0a: Word, vidosd0b: Word, vidosd0c: Word,
    vidw00addr0b0: Word, vidw00addr1b0: Word, vidw00addr2: Word)

  /** The GPIO fields of struct s5pv210_fb_mach_info: for each of the banks GPF0..GPF3 the
      bits to clear (mask) and the bits to set (con). The set_power callback is not modelled. */
  datatype GpioConfig = GpioConfig(
    gpf0con: Word, gpf0conMask: Word,
    gpf1con: Word, gpf1conMask: Word,
    gpf2con: Word, gpf2conMask: Word,
    gpf3con: Word, gpf3conMask: Word)
}
