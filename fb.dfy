/** The parts of the framebuffer core's records that the s5pv210 driver reads and writes
    (struct fb_var_screeninfo, struct fb_bitfield, the visuals and blank modes), and the
    platform data it takes its timings from. Their fields are 32-bit unsigned integers, as in
    the kernel; the driver's arithmetic on them is reduced modulo 2^32 where it is used. */
module Fb {

  /** A __u32 (or an unsigned long on this 32-bit SoC). */
  type u32 = x: int | 0 <= x < 0x1_0000_0000

  const Two32: int := 0x1_0000_0000

  /** An integer reduced to 32 bits, as unsigned C arithmetic does. */
  function Wrap(x: int): (r: u32)
    ensures 0 <= x < Two32 ==> r == x
  {
    x % Two32
  }

  /** struct fb_bitfield: a colour channel's position inside a pixel. */
  datatype Bitfield = Bitfield(offset: bv32, length: bv32)

  /** struct fb_var_screeninfo, the fields this driver uses. */
  datatype VarScreenInfo = VarScreenInfo(
    xres: u32, yres: u32, xresVirtual: u32, yresVirtual: u32,
    bitsPerPixel: u32, height: u32, width: u32,
    pixclock: u32, leftMargin: u32, rightMargin: u32, upperMargin: u32, lowerMargin: u32,
    hsyncLen: u32, vsyncLen: u32,
    red: Bitfield, green: Bitfield, blue: Bitfield, transp: Bitfield)

  /** The display timing of struct s3c_fb_platdata's vtiming (a struct fb_videomode). */
  datatype VideoTiming = VideoTiming(
    xres: u32, yres: u32, pixclock: u32,
    leftMargin: u32, rightMargin: u32, upperMargin: u32, lowerMargin: u32,
    hsyncLen: u32, vsyncLen: u32)

  /** The window-0 description of struct s3c_fb_platdata (win[0]). */
  datatype WinData = WinData(xres: u32, yres: u32, defaultBpp: u32)

  /** struct s3c_fb_platdata, as far as the driver reads it. */
  datatype LcdPlatData = LcdPlatData(win0: WinData, vtiming: VideoTiming)

  /** fix.visual as set_par chooses it. */
  datatype Visual = Mono01 | TrueColor | PseudoColor

  /** FB_BLANK_UNBLANK and FB_BLANK_POWERDOWN. */
  const BlankUnblank: int := 0
  const BlankPowerdown: int := 4

  /** CPUFREQ_PRECHANGE and CPUFREQ_POSTCHANGE. */
  const CpufreqPrechange: int := 0
  const CpufreqPostchange: int := 1
}
