/** The AT24C02 EEPROM client: page-chunked writes and the fixed-size read buffer.
    The I2C transfers are an oracle: the k-th call of i2c_master_send returns replies[k],
    and i2c_master_recv returns a RecvReply. */
module At24c02 {

  /** AT24C02_PAGE_SIZE: a write frame must not cross an 8-byte page. */
  const PageSize: nat := 8
  /** BUF_SIZE: the read path's nominal buffer size. */
  const BufSize: nat := 20
  /** The EEPROM's address space, that of an unsigned char register address. */
  const AddressSpace: nat := 256

  /** unsigned char: register addresses and data bytes. */
  type uint8 = x: int | 0 <= x < 256

  function Min(a: int, b: int): int { if a <= b then a else b }

  /** `reg + len` stored back into an unsigned char: wraps modulo 256. */
  function Advance(reg: uint8, len: int): (a: uint8)
    ensures a == (reg + len) % AddressSpace
  {
    (reg + len) % AddressSpace
  }

  /** The first chunk's length, `(((reg + 8) >> 3) << 3) - reg`: the room left in reg's page. */
  function FirstChunk(reg: uint8): (n: int)
    ensures n == PageSize - reg % PageSize
    ensures 1 <= n <= PageSize
  {
    ((reg + PageSize) / 8) * 8 - reg
  }

  /** One I2C write frame: buf[0] holds the register address, the payload follows it. */
  datatype Frame = Frame(addr: uint8, payload: seq<uint8>) {
    /** The bytes handed to i2c_master_send. */
    function Bytes(): seq<uint8> { [addr] + payload }
  }

  /** The payloads of a run of frames, concatenated in order. */
  function Payloads(frames: seq<Frame>): seq<uint8>
  {
    if frames == [] then [] else frames[0].payload + Payloads(frames[1..])
  }

  // ---------------------------------------------------------------------------
  // The page plan: the frames a write is meant to produce when every send
  // transfers its whole frame, stated from the EEPROM's page geometry.
  // ---------------------------------------------------------------------------

  /** Whole-page frames from address `addr` onwards, the last one possibly short. */
  function Pages(addr: uint8, d: seq<uint8>): seq<Frame>
    decreases |d|
  {
    if d == [] then []
    else
      var n := Min(|d|, PageSize);
      [Frame(addr, d[..n])] + Pages(Advance(addr, n), d[n..])
  }

  /** The frames for writing `d` at `reg`: first the rest of reg's page, then whole pages.
      An empty write still sends the one-byte frame that sets the address pointer. */
  function Plan(reg: uint8, d: seq<uint8>): seq<Frame>
  {
    var n := Min(|d|, FirstChunk(reg));
    [Frame(reg, d[..n])] + Pages(Advance(reg, n), d[n..])
  }

  /** A frame fits the 9-byte buffer and its payload stays inside the page of its address. */
  predicate WithinPage(f: Frame)
  {
    |f.Bytes()| <= PageSize + 1 && f.addr % PageSize + |f.payload| <= PageSize
  }

  lemma {:induction false} PagesPayloads(addr: uint8, d: seq<uint8>)
    ensures Payloads(Pages(addr, d)) == d
    decreases |d|
  {
    if d != [] {
      var n := Min(|d|, PageSize);
      var rest := Pages(Advance(addr, n), d[n..]);
      PagesPayloads(Advance(addr, n), d[n..]);
      assert ([Frame(addr, d[..n])] + rest)[1..] == rest;
      assert d[..n] + d[n..] == d;
    }
  }

  /** Round trip: the plan's payloads, concatenated in order, are exactly the data written. */
  lemma PlanPayloads(reg: uint8, d: seq<uint8>)
    ensures Payloads(Plan(reg, d)) == d
  {
    var n := Min(|d|, FirstChunk(reg));
    var rest := Pages(Advance(reg, n), d[n..]);
    PagesPayloads(Advance(reg, n), d[n..]);
    assert ([Frame(reg, d[..n])] + rest)[1..] == rest;
    assert d[..n] + d[n..] == d;
  }

  /** Moving by the room left in a page lands on a page boundary, even across the wrap at 256. */
  lemma AdvanceToBoundary(addr: uint8, n: int)
    requires n == PageSize - addr % PageSize
    ensures Advance(addr, n) % PageSize == 0
  {
    var s := addr + n;
    assert s == (addr / PageSize + 1) * PageSize;
    if s >= AddressSpace {
      assert s == AddressSpace;
    }
  }

  lemma {:induction false} PagesWithinPage(addr: uint8, d: seq<uint8>)
    requires addr % PageSize == 0
    ensures forall i :: 0 <= i < |Pages(addr, d)| ==> WithinPage(Pages(addr, d)[i])
    ensures forall i :: 0 <= i < |Pages(addr, d)| ==> Pages(addr, d)[i].addr % PageSize == 0
    decreases |d|
  {
    if d != [] {
      var n := Min(|d|, PageSize);
      var next := Advance(addr, n);
      if n == PageSize {
        AdvanceToBoundary(addr, n);
        PagesWithinPage(next, d[n..]);
      } else {
        assert d[n..] == [];
      }
      assert Pages(addr, d) == [Frame(addr, d[..n])] + Pages(next, d[n..]);
    }
  }

  /** No frame of the plan crosses a page; every frame after the first starts on a page boundary. */
  lemma PlanWithinPages(reg: uint8, d: seq<uint8>)
    ensures forall i :: 0 <= i < |Plan(reg, d)| ==> WithinPage(Plan(reg, d)[i])
    ensures forall i :: 1 <= i < |Plan(reg, d)| ==> Plan(reg, d)[i].addr % PageSize == 0
  {
    var n := Min(|d|, FirstChunk(reg));
    var next := Advance(reg, n);
    if n == FirstChunk(reg) {
      AdvanceToBoundary(reg, n);
      PagesWithinPage(next, d[n..]);
    } else {
      assert d[n..] == [];
    }
    assert Plan(reg, d) == [Frame(reg, d[..n])] + Pages(next, d[n..]);
  }

  lemma {:induction false} PagesAddresses(addr: uint8, d: seq<uint8>)
    ensures |Pages(addr, d)| > 0 ==> Pages(addr, d)[0].addr == addr
    ensures forall i :: 0 <= i < |Pages(addr, d)| - 1 ==>
              Pages(addr, d)[i + 1].addr == Advance(Pages(addr, d)[i].addr, |Pages(addr, d)[i].payload|)
    decreases |d|
  {
    if d != [] {
      var n := Min(|d|, PageSize);
      var next := Advance(addr, n);
      PagesAddresses(next, d[n..]);
      assert Pages(addr, d) == [Frame(addr, d[..n])] + Pages(next, d[n..]);
    }
  }

  /** Each frame's address is the previous frame's address plus the previous payload length, mod 256. */
  lemma PlanAddresses(reg: uint8, d: seq<uint8>)
    ensures Plan(reg, d)[0].addr == reg
    ensures forall i :: 0 <= i < |Plan(reg, d)| - 1 ==>
              Plan(reg, d)[i + 1].addr == Advance(Plan(reg, d)[i].addr, |Plan(reg, d)[i].payload|)
  {
    var n := Min(|d|, FirstChunk(reg));
    var next := Advance(reg, n);
    PagesAddresses(next, d[n..]);
    assert Plan(reg, d) == [Frame(reg, d[..n])] + Pages(next, d[n..]);
  }

  // ---------------------------------------------------------------------------
  // at24c02_write_bytes
  // ---------------------------------------------------------------------------

  /** How a write ends: the loop exits and returns the last chunk's length; the next memcpy
      would read outside data[0..count) (a failed send moved the data pointer backwards);
      or the oracle has no reply left for a further send the loop would make. */
  datatype WriteResult = Written(ret: int) | OutOfBounds(pos: int, len: int) | Unfinished

  function Sum(s: seq<int>): int
  {
    if s == [] then 0 else Sum(s[..|s| - 1]) + s[|s| - 1]
  }

  /** The data offset after the first k sends: each send advances it by its reply minus 1,
      the byte it reports for the address. */
  function Progress(replies: seq<int>, k: nat): int
    requires k <= |replies|
  {
    Sum(replies[..k]) - k
  }

  lemma ProgressStep(replies: seq<int>, k: nat)
    requires k < |replies|
    ensures Progress(replies, k + 1) == Progress(replies, k) + replies[k] - 1
  {
    assert replies[..k + 1][..k] == replies[..k];
  }

  /** Every send transferred its whole frame. */
  predicate FullTransfers(replies: seq<int>, frames: seq<Frame>)
  {
    |frames| <= |replies| && forall i :: 0 <= i < |frames| ==> replies[i] == |frames[i].Bytes()|
  }

  /** What the sends so far have done: `frames` are the frames handed to i2c_master_send,
      in order, and `replies` what each call returned. */
  ghost predicate Sent(reg: uint8, data: seq<uint8>, count: int, replies: seq<int>, frames: seq<Frame>)
  {
    |frames| <= |replies| && count <= |data| &&
    (|frames| > 0 ==> frames[0].addr == reg && |frames[0].payload| == Min(count, FirstChunk(reg))) &&
    (forall i :: 0 <= i < |frames| ==> |frames[i].Bytes()| <= PageSize + 1) &&
    (forall i :: 1 <= i < |frames| ==> |frames[i].payload| == Min(PageSize, count - Progress(replies, i))) &&
    (forall i :: 0 <= i < |frames| ==>
       0 <= Progress(replies, i) <= Progress(replies, i) + |frames[i].payload| <= count &&
       frames[i].payload == data[Progress(replies, i)..Progress(replies, i) + |frames[i].payload|]) &&
    (forall i :: 0 <= i < |frames| ==> frames[i].addr == Advance(reg, Progress(replies, i))) &&
    (forall i :: 1 <= i < |frames| ==> Progress(replies, i) != count)
  }

  /** Adding to an unsigned char twice is adding the sum once. */
  lemma AdvanceTwice(a: uint8, x: int, y: int)
    ensures Advance(Advance(a, x), y) == Advance(a, x + y)
  {
    var q := (a + x) / AddressSpace;
    assert Advance(a, x) == a + x - q * AddressSpace;
    assert Advance(a, x) + y == (a + x + y) - q * AddressSpace;
  }

  /** One more send of the next chunk keeps the trace well-formed. */
  lemma SentExtend(reg: uint8, data: seq<uint8>, count: int, replies: seq<int>, frames: seq<Frame>, pos: int, len: int)
    requires Sent(reg, data, count, replies, frames)
    requires 1 <= |frames| < |replies| && pos == Progress(replies, |frames|)
    requires pos != count && len == Min(PageSize, count - pos) && 0 <= pos && 0 <= len
    ensures pos + len <= count
    ensures Sent(reg, data, count, replies, frames + [Frame(Advance(reg, pos), data[pos..pos + len])])
  {
    var n := |frames|;
    var f := Frame(Advance(reg, pos), data[pos..pos + len]);
    var fs := frames + [f];
    forall i | 0 <= i < |fs|
      ensures |fs[i].Bytes()| <= PageSize + 1
      ensures 0 <= Progress(replies, i) <= Progress(replies, i) + |fs[i].payload| <= count
      ensures fs[i].payload == data[Progress(replies, i)..Progress(replies, i) + |fs[i].payload|]
      ensures 1 <= i ==> |fs[i].payload| == Min(PageSize, count - Progress(replies, i)) && Progress(replies, i) != count
      ensures fs[i].addr == Advance(reg, Progress(replies, i))
    {
      if i < n {
        assert fs[i] == frames[i];
      } else {
        assert fs[i] == f;
      }
    }
  }

  /** On the happy path the frames sent so far are a prefix of the plan, and the rest of the plan
      is the page run of the data not yet sent. */
  ghost predicate OnPlan(plan: seq<Frame>, frames: seq<Frame>, next: uint8, data: seq<uint8>, pos: int, count: int)
  {
    0 <= pos <= count <= |data| && |frames| <= |plan| && frames == plan[..|frames|] &&
    plan[|frames|..] == Pages(next, data[pos..count])
  }

  lemma OnPlanStep(plan: seq<Frame>, frames: seq<Frame>, next: uint8, data: seq<uint8>, pos: int, count: int, len: int)
    requires OnPlan(plan, frames, next, data, pos, count)
    requires pos < count && len == Min(PageSize, count - pos)
    ensures |frames| < |plan| && plan[|frames|] == Frame(next, data[pos..pos + len])
    ensures OnPlan(plan, frames + [Frame(next, data[pos..pos + len])], Advance(next, len), data, pos + len, count)
  {
    var d := data[pos..count];
    assert d[..len] == data[pos..pos + len];
    assert d[len..] == data[pos + len..count];
    var k := |frames|;
    assert plan[k..][0] == plan[k];
    assert plan[k..][1..] == plan[k + 1..];
    assert plan[..k + 1] == plan[..k] + [plan[k]];
  }

  /** What a write returns, with the frames it handed to i2c_master_send, in order. */
  datatype Trace = Trace(result: WriteResult, frames: seq<Frame>)

  /** The rest of at24c02_write_bytes' loop from its state after k sends: `addr` is the address of
      the last frame, `len` what the last send reported as written and `pos` the data offset
      (`count - pos` is what the C code keeps in `count`). */
  function RunFrom(data: seq<uint8>, count: int, replies: seq<int>, k: nat, addr: uint8, len: int, pos: int,
                   frames: seq<Frame>): Trace
    requires 0 <= count <= |data| && k <= |replies|
    decreases |replies| - k
  {
    if pos == count then Trace(Written(len), frames)
    else
      var next := Advance(addr, len);
      var chunk := Min(PageSize, count - pos);
      if pos < 0 || chunk < 0 then Trace(OutOfBounds(pos, chunk), frames)
      else if k == |replies| then Trace(Unfinished, frames)
      else RunFrom(data, count, replies, k + 1, next, replies[k] - 1, pos + replies[k] - 1,
                   frames + [Frame(next, data[pos..pos + chunk])])
  }

  /** at24c02_write_bytes(reg, data, count) against the replies of its sends. */
  function WriteTrace(reg: uint8, data: seq<uint8>, count: int, replies: seq<int>): Trace
    requires 0 <= count <= |data|
  {
    if |replies| == 0 then Trace(Unfinished, [])
    else
      var len := Min(count, FirstChunk(reg));
      RunFrom(data, count, replies, 1, reg, replies[0] - 1, replies[0] - 1, [Frame(reg, data[..len])])
  }

  /** The loop's state after k sends: the frames so far are well-formed, and on the happy path
      they are a prefix of the plan. */
  ghost predicate Loop(reg: uint8, data: seq<uint8>, count: int, replies: seq<int>, plan: seq<Frame>, happy: bool,
                       frames: seq<Frame>, k: int, pos: int, len: int, addr: uint8)
  {
    1 <= k == |frames| <= |replies| &&
    pos == Progress(replies, k) && len == replies[k - 1] - 1 &&
    addr == frames[k - 1].addr && addr == Advance(reg, pos - len) &&
    Sent(reg, data, count, replies, frames) &&
    (happy ==> FullTransfers(replies, plan) && OnPlan(plan, frames, Advance(addr, len), data, pos, count))
  }

  /** One turn of the loop: the next chunk lies inside data[0..count), and the send of it
      moves the loop state forward. */
  lemma LoopStep(reg: uint8, data: seq<uint8>, count: int, replies: seq<int>, plan: seq<Frame>, happy: bool,
                 frames: seq<Frame>, k: int, pos: int, len: int, addr: uint8, next: uint8, chunk: int)
    requires Loop(reg, data, count, replies, plan, happy, frames, k, pos, len, addr)
    requires pos != count && 0 <= pos && k < |replies|
    requires next == Advance(addr, len) && chunk == Min(PageSize, count - pos) && 0 <= chunk
    ensures pos + chunk <= count
    ensures Loop(reg, data, count, replies, plan, happy, frames + [Frame(next, data[pos..pos + chunk])], k + 1,
                 pos + replies[k] - 1, replies[k] - 1, next)
  {
    AdvanceTwice(reg, pos - len, len);
    assert next == Advance(reg, pos);
    SentExtend(reg, data, count, replies, frames, pos, chunk);
    if happy {
      OnPlanStep(plan, frames, next, data, pos, count, chunk);
      assert replies[k] == |plan[k].Bytes()| == chunk + 1;
    }
    ProgressStep(replies, k);
  }

  /** The loop's first state, after the send of the first chunk. */
  lemma LoopStart(reg: uint8, data: seq<uint8>, count: int, replies: seq<int>, plan: seq<Frame>, happy: bool, len: int)
    requires 0 <= count <= |data| && 0 < |replies|
    requires plan == Plan(reg, data[..count]) && happy == FullTransfers(replies, plan)
    requires len == Min(count, FirstChunk(reg))
    ensures Loop(reg, data, count, replies, plan, happy, [Frame(reg, data[..len])], 1,
                 replies[0] - 1, replies[0] - 1, reg)
  {
    if happy {
      assert data[..count][len..] == data[len..count];
      assert data[..count][..len] == data[..len];
      assert plan[..1] == [plan[0]];
      assert replies[0] == len + 1;
    }
    ProgressStep(replies, 0);
    assert Progress(replies, 0) == 0;
  }

  /** The loop ends with all of data[0..count) sent: on the happy path that is the whole plan. */
  lemma LoopDone(reg: uint8, data: seq<uint8>, count: int, replies: seq<int>, plan: seq<Frame>, happy: bool,
                 frames: seq<Frame>, k: int, len: int, addr: uint8)
    requires Loop(reg, data, count, replies, plan, happy, frames, k, count, len, addr)
    ensures happy ==> frames == plan && len == |plan[|plan| - 1].payload|
  {
    if happy {
      assert data[count..count] == [];
      assert plan == plan[..k] + plan[k..];
    }
  }

  /** How a write that started on `plan` ended: its frames are well-formed, its outcome says
      why it stopped, and on the happy path it sent the plan. */
  ghost predicate Ended(reg: uint8, data: seq<uint8>, count: int, replies: seq<int>, plan: seq<Frame>, happy: bool, t: Trace)
  {
    Sent(reg, data, count, replies, t.frames) && |t.frames| > 0 &&
    (t.result.Written? ==> Progress(replies, |t.frames|) == count && t.result.ret == replies[|t.frames| - 1] - 1) &&
    (t.result.OutOfBounds? ==>
       t.result.pos == Progress(replies, |t.frames|) && t.result.len == Min(PageSize, count - t.result.pos) &&
       (t.result.pos < 0 || t.result.len < 0)) &&
    (t.result.Unfinished? ==> |t.frames| == |replies|) &&
    (happy ==> |plan| > 0 && t == Trace(Written(|plan[|plan| - 1].payload|), plan))
  }

  /** The loop stops when the sends have reported all count bytes. */
  lemma EndWritten(reg: uint8, data: seq<uint8>, count: int, replies: seq<int>, plan: seq<Frame>, happy: bool,
                   frames: seq<Frame>, k: nat, len: int, addr: uint8)
    requires Loop(reg, data, count, replies, plan, happy, frames, k, count, len, addr)
    ensures Ended(reg, data, count, replies, plan, happy, Trace(Written(len), frames))
  {
    LoopDone(reg, data, count, replies, plan, happy, frames, k, len, addr);
  }

  /** The loop stops early when the next chunk would be read from outside data[0..count),
      or when the replies run out; neither happens on the happy path. */
  lemma EndEarly(reg: uint8, data: seq<uint8>, count: int, replies: seq<int>, plan: seq<Frame>, happy: bool,
                 frames: seq<Frame>, k: nat, pos: int, len: int, addr: uint8, result: WriteResult)
    requires Loop(reg, data, count, replies, plan, happy, frames, k, pos, len, addr) && pos != count
    requires var chunk := Min(PageSize, count - pos);
             result == (if pos < 0 || chunk < 0 then OutOfBounds(pos, chunk) else Unfinished)
    requires result.Unfinished? ==> k == |replies|
    ensures Ended(reg, data, count, replies, plan, happy, Trace(result, frames))
  {
    if happy && result.Unfinished? {
      OnPlanStep(plan, frames, Advance(addr, len), data, pos, count, Min(PageSize, count - pos));
    }
  }

  /** What every run of the loop from a well-formed state produces. */
  lemma {:induction false} RunFromFacts(reg: uint8, data: seq<uint8>, count: int, replies: seq<int>, plan: seq<Frame>,
                                        happy: bool, frames: seq<Frame>, k: nat, pos: int, len: int, addr: uint8)
    requires 0 <= count <= |data|
    requires Loop(reg, data, count, replies, plan, happy, frames, k, pos, len, addr)
    ensures Ended(reg, data, count, replies, plan, happy, RunFrom(data, count, replies, k, addr, len, pos, frames))
    decreases |replies| - k
  {
    var t := RunFrom(data, count, replies, k, addr, len, pos, frames);
    var next := Advance(addr, len);
    var chunk := Min(PageSize, count - pos);
    if pos == count {
      EndWritten(reg, data, count, replies, plan, happy, frames, k, len, addr);
    } else if pos < 0 || chunk < 0 {
      EndEarly(reg, data, count, replies, plan, happy, frames, k, pos, len, addr, OutOfBounds(pos, chunk));
    } else if k == |replies| {
      EndEarly(reg, data, count, replies, plan, happy, frames, k, pos, len, addr, Unfinished);
    } else {
      LoopStep(reg, data, count, replies, plan, happy, frames, k, pos, len, addr, next, chunk);
      RunFromFacts(reg, data, count, replies, plan, happy, frames + [Frame(next, data[pos..pos + chunk])], k + 1,
                   pos + replies[k] - 1, replies[k] - 1, next);
    }
  }

  /** The frames of any write, whatever the sends return: the first covers the rest of reg's page,
      every later one at most a page; each carries the next unsent slice of data[0..count) and is
      addressed at reg advanced by the bytes reported so far; and the outcome says why the write
      stopped. */
  lemma WriteTraceFacts(reg: uint8, data: seq<uint8>, count: int, replies: seq<int>)
    requires 0 <= count <= |data|
    ensures var t := WriteTrace(reg, data, count, replies);
            Sent(reg, data, count, replies, t.frames) &&
            (t.result.Written? ==>
               |t.frames| > 0 && Progress(replies, |t.frames|) == count && t.result.ret == replies[|t.frames| - 1] - 1) &&
            (t.result.OutOfBounds? ==>
               |t.frames| > 0 && t.result.pos == Progress(replies, |t.frames|) &&
               t.result.len == Min(PageSize, count - t.result.pos) && (t.result.pos < 0 || t.result.len < 0)) &&
            (t.result.Unfinished? ==> |t.frames| == |replies|)
  {
    if |replies| > 0 {
      var plan := Plan(reg, data[..count]);
      var happy := FullTransfers(replies, plan);
      var len := Min(count, FirstChunk(reg));
      LoopStart(reg, data, count, replies, plan, happy, len);
      RunFromFacts(reg, data, count, replies, plan, happy, [Frame(reg, data[..len])], 1, replies[0] - 1, replies[0] - 1, reg);
    }
  }

  /** When every send transfers its whole frame, the write sends exactly the page plan and returns
      the length of the last chunk. */
  lemma WriteTraceFullTransfers(reg: uint8, data: seq<uint8>, count: int, replies: seq<int>)
    requires 0 <= count <= |data|
    requires FullTransfers(replies, Plan(reg, data[..count]))
    ensures WriteTrace(reg, data, count, replies) ==
            Trace(Written(|Plan(reg, data[..count])[|Plan(reg, data[..count])| - 1].payload|), Plan(reg, data[..count]))
  {
    var plan := Plan(reg, data[..count]);
    var len := Min(count, FirstChunk(reg));
    assert |plan| > 0;
    LoopStart(reg, data, count, replies, plan, true, len);
    RunFromFacts(reg, data, count, replies, plan, true, [Frame(reg, data[..len])], 1, replies[0] - 1, replies[0] - 1, reg);
  }

  /** at24c02_write_bytes: the first chunk fills the rest of reg's page, then whole pages follow
      until the sends have reported all count bytes. */
  method WriteBytes(reg: uint8, data: seq<uint8>, count: int, replies: seq<int>)
    returns (result: WriteResult, frames: seq<Frame>)
    requires 0 <= count <= |data|
    ensures Trace(result, frames) == WriteTrace(reg, data, count, replies)
  {
    var addr := reg;
    var len := FirstChunk(reg);
    if count <= len {
      len := count;
    }
    if |replies| == 0 {
      return Unfinished, [];
    }
    frames := [Frame(addr, data[..len])];
    len := replies[0] - 1;
    var pos := len;
    var left := count - len;
    var k := 1;
    result := Unfinished;
    while left != 0
      invariant 1 <= k <= |replies| && left == count - pos && result == Unfinished
      invariant WriteTrace(reg, data, count, replies) == RunFrom(data, count, replies, k, addr, len, pos, frames)
      decreases |replies| - k
    {
      addr := Advance(addr, len);
      len := if left > PageSize then PageSize else left;
      if pos < 0 || len < 0 {
        result := OutOfBounds(pos, len);
        break;
      }
      if k == |replies| {
        break;
      }
      frames := frames + [Frame(addr, data[pos..pos + len])];
      len := replies[k] - 1;
      pos := pos + len;
      left := left - len;
      k := k + 1;
    }
    if left == 0 {
      result := Written(len);
    }
  }

  /** Under full transfers the write round-trips: the frames' payloads are the data, in order,
      and no frame crosses a page. */
  lemma FullWriteRoundTrip(reg: uint8, data: seq<uint8>, count: int)
    requires 0 <= count <= |data|
    ensures Payloads(Plan(reg, data[..count])) == data[..count]
    ensures forall i :: 0 <= i < |Plan(reg, data[..count])| ==> WithinPage(Plan(reg, data[..count])[i])
  {
    PlanPayloads(reg, data[..count]);
    PlanWithinPages(reg, data[..count]);
  }

  /** The length of the last chunk of a write of count bytes at reg: all of it when it fits the
      rest of reg's page, otherwise what is left after the first chunk and the whole pages, a
      number between 1 and 8. */
  function LastChunk(reg: uint8, count: nat): (n: nat)
    ensures count <= FirstChunk(reg) ==> n == count
    ensures count > FirstChunk(reg) ==> 1 <= n <= PageSize
  {
    var first := FirstChunk(reg);
    if count <= first then count else (count - first - 1) % PageSize + 1
  }

  /** The last of the page frames for non-empty data holds (|d| - 1) % 8 + 1 bytes. */
  lemma {:induction false} PagesLast(addr: uint8, d: seq<uint8>)
    requires d != []
    ensures |Pages(addr, d)| > 0
    ensures |Pages(addr, d)[|Pages(addr, d)| - 1].payload| == (|d| - 1) % PageSize + 1
    decreases |d|
  {
    var n := Min(|d|, PageSize);
    var rest := Pages(Advance(addr, n), d[n..]);
    assert Pages(addr, d) == [Frame(addr, d[..n])] + rest;
    if |d| > PageSize {
      PagesLast(Advance(addr, n), d[n..]);
      assert (|d| - PageSize - 1) % PageSize == (|d| - 1) % PageSize;
    } else {
      assert d[n..] == [];
    }
  }

  /** The last frame of the plan holds LastChunk bytes. */
  lemma PlanLast(reg: uint8, d: seq<uint8>)
    ensures |Plan(reg, d)[|Plan(reg, d)| - 1].payload| == LastChunk(reg, |d|)
  {
    var n := Min(|d|, FirstChunk(reg));
    var rest := Pages(Advance(reg, n), d[n..]);
    assert Plan(reg, d) == [Frame(reg, d[..n])] + rest;
    if |d| > FirstChunk(reg) {
      PagesLast(Advance(reg, n), d[n..]);
    } else {
      assert d[n..] == [];
    }
  }

  /** When every send transfers its whole frame the write returns LastChunk(reg, count), the
      length of the last chunk, which is count only when the write fits the rest of reg's page. */
  lemma FullWriteReturns(reg: uint8, data: seq<uint8>, count: int, replies: seq<int>)
    requires 0 <= count <= |data|
    requires FullTransfers(replies, Plan(reg, data[..count]))
    ensures WriteTrace(reg, data, count, replies).result == Written(LastChunk(reg, count))
  {
    WriteTraceFullTransfers(reg, data, count, replies);
    PlanLast(reg, data[..count]);
  }

  /** A 20-byte write from address 0 is three frames of 8, 8 and 4 bytes, and the function
      then returns 4, the last chunk's length, not the 20 bytes written. */
  lemma TwentyBytesFromZero(data: seq<uint8>)
    requires |data| == 20
    ensures |Plan(0, data)| == 3
    ensures |Plan(0, data)[2].payload| == 4
  {
    assert Advance(0, 8) == 8;
    assert Advance(8, 8) == 16;
    assert data[8..][8..] == data[16..];
    assert data[16..][4..] == [];
    assert Pages(16, data[16..]) == [Frame(16, data[16..][..4])] + Pages(Advance(16, 4), []);
    assert Pages(8, data[8..]) == [Frame(8, data[8..][..8])] + Pages(16, data[16..]);
  }

  // ---------------------------------------------------------------------------
  // at24c02_read_bytes and its one caller, at24c02_show
  // ---------------------------------------------------------------------------

  /** What i2c_master_recv does: on success it fills `count` bytes and returns count,
      otherwise it returns a negative error number. */
  datatype RecvReply = RecvOk(bytes: seq<uint8>) | RecvFail(errno: int)

  /** Stores 0 at data[BUF_SIZE] whatever count is, sends the one-byte address frame,
      then receives into data[0..count). */
  method ReadBytes(reg: uint8, data: array<uint8>, count: int, reply: RecvReply)
    returns (len: int, addressFrame: seq<uint8>)
    requires BufSize < data.Length
    requires 0 <= count <= data.Length
    requires reply.RecvOk? ==> |reply.bytes| == count
    requires reply.RecvFail? ==> reply.errno < 0
    modifies data
    ensures addressFrame == [reg]
    ensures len == (if reply.RecvOk? then count else reply.errno)
    ensures reply.RecvOk? ==> data[..count] == reply.bytes
    ensures reply.RecvOk? && count <= BufSize ==> data[BufSize] == 0
    ensures reply.RecvFail? ==> data[BufSize] == 0
    ensures forall i :: 0 <= i < data.Length && i != BufSize && (reply.RecvFail? || count <= i) ==> data[i] == old(data[i])
  {
    data[BufSize] := 0;
    addressFrame := [reg];
    match reply {
      case RecvOk(bytes) =>
        forall i | 0 <= i < count {
          data[i] := bytes[i];
        }
        len := count;
      case RecvFail(errno) =>
        len := errno;
    }
  }

  /** at24c02_show reads BUF_SIZE bytes from address 0 into a BUF_SIZE + 1 byte buffer:
      exactly the size read_bytes needs, and the read leaves the buffer null-terminated. */
  method Show(reply: RecvReply) returns (ret: int, shown: seq<uint8>)
    requires reply.RecvOk? ==> |reply.bytes| == BufSize
    requires reply.RecvFail? ==> reply.errno < 0
    ensures ret == 0
    ensures |shown| == BufSize + 1 && shown[BufSize] == 0
    ensures reply.RecvOk? ==> shown[..BufSize] == reply.bytes
  {
    var data := new uint8[BufSize + 1];
    var _, _ := ReadBytes(0, data, BufSize, reply);
    shown := data[..];
    ret := 0;
  }

  /** at24c02_store writes the whole sysfs buffer from address 0 and reports every byte as
      consumed, whatever the write returned. */
  method Store(buf: seq<uint8>, count: int, replies: seq<int>) returns (ret: int, frames: seq<Frame>)
    requires 0 <= count <= |buf|
    ensures ret == count
    ensures frames == WriteTrace(0, buf, count, replies).frames
  {
    var _, fs := WriteBytes(0, buf, count, replies);
    frames := fs;
    ret := count;
  }
}
