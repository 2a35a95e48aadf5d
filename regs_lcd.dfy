/** The display controller's registers as the driver sees them: the field encoders and
    enable bits of mach/regs-lcd.h, and memory-mapped I/O as an append-only log of writes.
    Register values are words of set bit positions (module Words).
    mach/regs-lcd.h is not part of this model, so no bit position of its macros is assumed:
    each encoder is a parameter from the field's value to a word, each enable bit a word. */
module RegsLcd {
  import opened Words

  /** The macros of mach/regs-lcd.h that the driver uses. */
  datatype Macros = Macros(
    vbpd: nat -> Word, vfpd: nat -> Word, vspw: nat -> Word,
    hbpd: nat -> Word, hfpd: nat -> Word, hspw: nat -> Word,
    lineval: nat -> Word, hozval: nat -> Word,
    leftTopX: nat -> Word, leftTopY: nat -> Word,
    frame565: Word, frame888: Word, wswpEnable: Word,
    win0Enable: Word, envid: Word, channel0Enable: Word)

  /** The memory-mapped registers the driver writes: the display controller's, and the GPIO and
      display-path registers that init_registers maps at fixed addresses. */
  datatype Reg =
    | VidCon0 | VidCon1 | VidTCon0 | VidTCon1 | VidTCon2 | WinCon0 | ShadowCon
    | VidOsd0A | VidOsd0B | VidOsd0C | VidW00Add0B0 | VidW00Add1B0
    | Gpf0Con | Gpf1Con | Gpf2Con | Gpf3Con | Gpd0Con | Gpd0Dat | DisplayControl

  /** One writel(value, register). */
  datatype Write = Write(reg: Reg, value: Word)

  /** The registers a write sequence touches, in order. */
  function Targets(ws: seq<Write>): (rs: seq<Reg>)
    ensures |rs| == |ws| && forall i :: 0 <= i < |ws| ==> rs[i] == ws[i].reg
  {
    if ws == [] then [] else [ws[0].reg] + Targets(ws[1..])
  }

  /** The targets of two write sequences in a row. */
  lemma {:induction false} TargetsAppend(a: seq<Write>, b: seq<Write>)
    ensures Targets(a + b) == Targets(a) + Targets(b)
    decreases |a|
  {
    if a != [] {
      assert (a + b)[1..] == a[1..] + b;
      TargetsAppend(a[1..], b);
    } else {
      assert a + b == b;
    }
  }

  /** What readl returns for `reg` after the writes in `log`: the value of the last write to it,
      or `reset` if it was never written. */
  function Current(log: seq<Write>, reg: Reg, reset: Word): Word
    decreases |log|
  {
    if log == [] then reset
    else if log[|log| - 1].reg == reg then log[|log| - 1].value
    else Current(log[..|log| - 1], reg, reset)
  }

  lemma CurrentAppend(log: seq<Write>, w: Write, reg: Reg, reset: Word)
    ensures Current(log + [w], reg, reset) == if w.reg == reg then w.value else Current(log, reg, reset)
  {
    assert (log + [w])[..|log|] == log;
  }

  /** Writes to other registers do not change what a register reads back. */
  lemma {:induction false} CurrentOther(log: seq<Write>, ws: seq<Write>, reg: Reg, reset: Word)
    requires forall i :: 0 <= i < |ws| ==> ws[i].reg != reg
    ensures Current(log + ws, reg, reset) == Current(log, reg, reset)
    decreases |ws|
  {
    if ws != [] {
      var front := ws[..|ws| - 1];
      assert log + ws == (log + front) + [ws[|ws| - 1]];
      CurrentAppend(log + front, ws[|ws| - 1], reg, reset);
      CurrentOther(log, front, reg, reset);
    } else {
      assert log + ws == log;
    }
  }

  /** A register reads back the value of its last write, whatever came before it. */
  lemma CurrentLast(log: seq<Write>, ws: seq<Write>, i: nat, reset: Word)
    requires i < |ws|
    requires forall j :: i < j < |ws| ==> ws[j].reg != ws[i].reg
    ensures Current(log + ws, ws[i].reg, reset) == ws[i].value
  {
    var reg := ws[i].reg;
    var before := log + ws[..i + 1];
    var after := ws[i + 1..];
    assert log + ws == before + after;
    assert before == (log + ws[..i]) + [ws[i]];
    CurrentAppend(log + ws[..i], ws[i], reg, reset);
    CurrentOther(before, after, reg, reset);
  }

  /** A register never written reads back its reset value. */
  lemma UnwrittenReadsReset(log: seq<Write>, reg: Reg, reset: Word)
    requires forall i :: 0 <= i < |log| ==> log[i].reg != reg
    ensures Current(log, reg, reset) == reset
  {
    assert [] + log == log;
    CurrentOther([], log, reg, reset);
  }

  /** One write per register of `regs`, in order, each of `value(reg)`. */
  function WritesFor(regs: seq<Reg>, value: Reg -> Word): seq<Write>
  {
    if regs == [] then [] else [Write(regs[0], value(regs[0]))] + WritesFor(regs[1..], value)
  }

  /** The k-th of those writes goes to the k-th register with its value ... */
  lemma {:induction false} WritesForElements(regs: seq<Reg>, value: Reg -> Word)
    ensures |WritesFor(regs, value)| == |regs|
    ensures forall i :: 0 <= i < |regs| ==> WritesFor(regs, value)[i] == Write(regs[i], value(regs[i]))
    decreases |regs|
  {
    if regs != [] {
      WritesForElements(regs[1..], value);
    }
  }

  /** ... so they touch exactly the registers of `regs`, in order. */
  lemma {:induction false} WritesForTargets(regs: seq<Reg>, value: Reg -> Word)
    ensures Targets(WritesFor(regs, value)) == regs
    decreases |regs|
  {
    if regs != [] {
      var rest := WritesFor(regs[1..], value);
      WritesForTargets(regs[1..], value);
      TargetsAppend([Write(regs[0], value(regs[0]))], rest);
      assert regs == [regs[0]] + regs[1..];
    }
  }

  /** After such writes a register of `regs` reads `value(reg)`, and any other as before. */
  lemma {:induction false} CurrentWritesFor(log: seq<Write>, regs: seq<Reg>, value: Reg -> Word, reg: Reg, reset: Word)
    ensures Current(log + WritesFor(regs, value), reg, reset) ==
            if reg in regs then value(reg) else Current(log, reg, reset)
    decreases |regs|
  {
    if regs == [] {
      assert log + [] == log;
    } else {
      var w := Write(regs[0], value(regs[0]));
      assert log + WritesFor(regs, value) == (log + [w]) + WritesFor(regs[1..], value);
      CurrentWritesFor(log + [w], regs[1..], value, reg, reset);
      CurrentAppend(log, w, reg, reset);
      assert reg in regs <==> reg == regs[0] || reg in regs[1..];
    }
  }

  /** The writes for seven registers, spelt out. */
  lemma WritesForSeven(r0: Reg, r1: Reg, r2: Reg, r3: Reg, r4: Reg, r5: Reg, r6: Reg, value: Reg -> Word)
    ensures WritesFor([r0, r1, r2, r3, r4, r5, r6], value) ==
            [Write(r0, value(r0)), Write(r1, value(r1)), Write(r2, value(r2)), Write(r3, value(r3)),
             Write(r4, value(r4)), Write(r5, value(r5)), Write(r6, value(r6))]
  {
    WritesForElements([r0, r1, r2, r3, r4, r5, r6], value);
  }

  /** Writes appended one at a time are the same log as appended together. */
  lemma AppendThree(log: seq<Write>, a: Write, b: Write, c: Write)
    ensures log + [a] + [b] + [c] == log + [a, b, c]
  {
  }

  lemma AppendFive(log: seq<Write>, a: Write, b: Write, c: Write, d: Write, e: Write)
    ensures log + [a] + [b] + [c] + [d] + [e] == log + [a, b, c, d, e]
  {
  }

  lemma AppendSix(log: seq<Write>, a: Write, b: Write, c: Write, d: Write, e: Write, f: Write)
    ensures log + [a] + [b] + [c] + [d] + [e] + [f] == log + [a, b, c, d, e, f]
  {
  }

  lemma AppendSeven(log: seq<Write>, a: Write, b: Write, c: Write, d: Write, e: Write, f: Write, g: Write)
    ensures log + [a] + [b] + [c] + [d] + [e] + [f] + [g] == log + [a, b, c, d, e, f, g]
  {
  }
}
