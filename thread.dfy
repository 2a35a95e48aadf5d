/** perf's per-thread bookkeeping (tools/perf/util/thread.c): a thread's command name, whether
    it was set explicitly, and a memoised length of it. Allocation results and the map-group
    clones are oracles: each allocation or clone is given as a boolean that says whether it
    succeeded. The map groups themselves are kept only as the record of which map types were
    cloned into a thread. */
module PerfThread {
  import opened Wrappers

  /** pid_t: a signed 32-bit integer. */
  type int32 = x: int | -0x8000_0000 <= x < 0x8000_0000

  /** ENOMEM; the functions return its negation. */
  const ENOMEM: int := 12
  /** The size of the buffer thread__new allocates for the name. */
  const CommBufferSize: nat := 32

  // ---------------------------------------------------------------------------
  // ":%d": decimal formatting
  // ---------------------------------------------------------------------------

  function DigitChar(d: nat): (c: char)
    requires d < 10
    ensures '0' <= c <= '9'
  {
    "0123456789"[d]
  }

  function DigitValue(c: char): nat
  {
    if '0' <= c <= '9' then (c as int - '0' as int) as nat else 0
  }

  lemma DigitRoundTrip(d: nat)
    requires d < 10
    ensures DigitValue(DigitChar(d)) == d
  {
  }

  /** The decimal digits of n, most significant first, without leading zeros. */
  function Digits(n: nat): (s: seq<char>)
    ensures |s| >= 1
    ensures forall i :: 0 <= i < |s| ==> '0' <= s[i] <= '9'
    decreases n
  {
    if n < 10 then [DigitChar(n)] else Digits(n / 10) + [DigitChar(n % 10)]
  }

  /** `%d`: a minus sign for negative numbers, then the digits of the magnitude. */
  function Decimal(n: int): seq<char>
  {
    if n < 0 then "-" + Digits(-n) else Digits(n)
  }

  /** The number a run of decimal digits stands for. */
  function DigitsValue(s: seq<char>): nat
    decreases |s|
  {
    if s == [] then 0 else 10 * DigitsValue(s[..|s| - 1]) + DigitValue(s[|s| - 1])
  }

  /** Reading a `%d` back. */
  function ParseDecimal(s: seq<char>): int
  {
    if |s| > 0 && s[0] == '-' then 0 - DigitsValue(s[1..]) else DigitsValue(s)
  }

  lemma {:induction false} DigitsRoundTrip(n: nat)
    ensures DigitsValue(Digits(n)) == n
    decreases n
  {
    var s := Digits(n);
    if n < 10 {
      DigitRoundTrip(n);
      assert s[..|s| - 1] == [];
    } else {
      DigitsRoundTrip(n / 10);
      DigitRoundTrip(n % 10);
      assert s[..|s| - 1] == Digits(n / 10);
    }
  }

  /** A minus sign negates the digits after it ... */
  lemma ParseNegative(d: seq<char>)
    ensures ParseDecimal("-" + d) == 0 - DigitsValue(d)
  {
    assert ("-" + d)[1..] == d;
  }

  /** ... and a run starting with a digit is read as it stands. */
  lemma ParseNonNegative(d: seq<char>)
    requires |d| >= 1 && '0' <= d[0] <= '9'
    ensures ParseDecimal(d) == DigitsValue(d)
  {
  }

  /** `%d` can be read back: the digits carry the number and the sign its sign. */
  lemma DecimalRoundTrip(n: int)
    ensures ParseDecimal(Decimal(n)) == n
  {
    var m: nat := if n < 0 then -n else n;
    var d := Digits(m);
    DigitsRoundTrip(m);
    if n < 0 {
      assert Decimal(n) == "-" + d;
      ParseNegative(d);
    } else {
      assert Decimal(n) == d;
      ParseNonNegative(d);
    }
  }

  /** The digits of a number below 10^k are at most k. */
  lemma {:induction false} DigitsLength(n: nat, k: nat)
    requires k >= 1 && n < Pow10(k)
    ensures |Digits(n)| <= k
    decreases k
  {
    if n >= 10 && k > 1 {
      assert n / 10 < Pow10(k - 1);
      DigitsLength(n / 10, k - 1);
    }
  }

  function Pow10(k: nat): (p: nat)
    ensures p >= 1
  {
    if k == 0 then 1 else 10 * Pow10(k - 1)
  }

  /** A pid is at most a sign and ten digits. */
  lemma DecimalOfPidLength(pid: int32)
    ensures |Decimal(pid)| <= 11
  {
    assert Pow10(10) == 10_000_000_000;
    if pid < 0 {
      DigitsLength(-(pid as int), 10);
    } else {
      DigitsLength(pid, 10);
    }
  }

  /** snprintf(buf, size, ...) with output s: at most size - 1 characters, then the NUL. */
  function Snprintf(size: nat, s: seq<char>): (out: seq<char>)
    requires size >= 1
    ensures |out| < size
    ensures |s| < size ==> out == s
    ensures out == s[..|out|]
  {
    if |s| < size then s else s[..size - 1]
  }

  /** The name thread__new gives a thread: ":" and the pid, which always fits the 32-byte
      buffer, so it reads back as the pid. */
  function PidComm(pid: int32): (name: seq<char>)
    ensures name == Snprintf(CommBufferSize, ":" + Decimal(pid))
    ensures |name| <= 12 && name[0] == ':' && ParseDecimal(name[1..]) == pid
  {
    DecimalOfPidLength(pid);
    DecimalRoundTrip(pid);
    assert (":" + Decimal(pid))[1..] == Decimal(pid);
    ":" + Decimal(pid)
  }

  // ---------------------------------------------------------------------------
  // fork's clone loop
  // ---------------------------------------------------------------------------

  /** The first map type whose clone fails, or the number of map types if none does. */
  function FirstFailure(cloneOk: seq<bool>): (k: nat)
    ensures k <= |cloneOk|
    ensures forall i :: 0 <= i < k ==> cloneOk[i]
    ensures k < |cloneOk| ==> !cloneOk[k]
    decreases |cloneOk|
  {
    if cloneOk == [] || !cloneOk[0] then 0 else 1 + FirstFailure(cloneOk[1..])
  }

  /** The map types 0 .. k - 1, in order. */
  function Types(k: nat): (ts: seq<nat>)
    ensures |ts| == k && forall i :: 0 <= i < k ==> ts[i] == i
  {
    if k == 0 then [] else Types(k - 1) + [k - 1]
  }

  /** The failure index is the only one: every clone before it succeeds, and all succeed exactly
      when there is none. */
  lemma FirstFailureUnique(cloneOk: seq<bool>, k: nat)
    requires k <= |cloneOk| && (forall i :: 0 <= i < k ==> cloneOk[i]) && (k < |cloneOk| ==> !cloneOk[k])
    ensures k == FirstFailure(cloneOk)
  {
  }

  class Thread {
    /** pid, set once by thread__new. */
    const pid: int32
    /** comm: None is a NULL pointer, Some(s) the characters before the NUL. */
    var comm: Option<seq<char>>
    /** comm_set: the name was given explicitly rather than made from the pid. */
    var commSet: bool
    /** comm_len: 0 until thread__comm_len caches strlen(comm). */
    var commLen: int
    /** The map types cloned into this thread's map groups, in order. */
    var clones: seq<nat>

    /** The cache is coherent: empty, or the length of the present name. */
    ghost predicate LenCoherent()
      reads this
    {
      commLen == 0 || (comm.Some? && commLen == |comm.value|)
    }

    /** The zeroed record of zalloc with pid and name filled in. */
    constructor Zeroed(pid: int32, comm: Option<seq<char>>)
      ensures this.pid == pid && this.comm == comm && !commSet && commLen == 0 && clones == []
    {
      this.pid := pid;
      this.comm := comm;
      commSet := false;
      commLen := 0;
      clones := [];
    }

    /** thread__new: NULL when zalloc fails; otherwise a zeroed thread for pid whose name is
        ":" and the pid, or NULL when malloc(32) fails. */
    static method New(pid: int32, zallocOk: bool, mallocOk: bool) returns (t: Thread?)
      ensures !zallocOk ==> t == null
      ensures zallocOk ==> t != null && fresh(t) && t.pid == pid && !t.commSet && t.commLen == 0 && t.clones == []
      ensures zallocOk ==> t.comm == if mallocOk then Some(PidComm(pid)) else None
    {
      if !zallocOk {
        return null;
      }
      var name: Option<seq<char>> := None;
      if mallocOk {
        name := Some(Snprintf(CommBufferSize, ":" + Decimal(pid)));
      }
      t := new Thread.Zeroed(pid, name);
    }

    /** thread__set_comm: the old name freed and a copy of name stored. When strdup fails the
        name is NULL, -ENOMEM is returned and comm_set keeps its value; otherwise comm_set
        becomes true and 0 is returned. The cached length is left alone. */
    method SetComm(name: seq<char>, dupOk: bool) returns (err: int)
      modifies this`comm, this`commSet
      ensures dupOk ==> err == 0 && comm == Some(name) && commSet
      ensures !dupOk ==> err == -ENOMEM && comm == None && commSet == old(commSet)
      ensures LenCoherent() <==> old(commLen) == 0 || (dupOk && old(commLen) == |name|)
    {
      if dupOk {
        comm := Some(name);
        err := 0;
      } else {
        comm := None;
        err := -ENOMEM;
      }
      if err == 0 {
        commSet := true;
      }
    }

    /** thread__comm_len: the cached length when it is non-zero; otherwise 0 for a NULL name,
        or strlen(comm), which is cached. An empty name is measured on every call. */
    method CommLen() returns (len: int)
      modifies this`commLen
      ensures old(commLen) != 0 ==> len == old(commLen) && commLen == old(commLen)
      ensures old(commLen) == 0 && comm.None? ==> len == 0 && commLen == 0
      ensures old(commLen) == 0 && comm.Some? ==> len == |comm.value| && commLen == len
      ensures old(LenCoherent()) ==> LenCoherent() && (comm.Some? ==> len == |comm.value|)
    {
      if commLen == 0 {
        if comm.None? {
          return 0;
        }
        commLen := |comm.value|;
      }
      return commLen;
    }

    /** thread__fork: a parent whose name was set explicitly passes a copy of it on (strdup
        failing gives -ENOMEM before any map is cloned); then the parent's map groups are cloned
        type by type, and the first failing clone gives -ENOMEM. The parent is not changed. */
    method Fork(parent: Thread, dupOk: bool, cloneOk: seq<bool>) returns (err: int)
      requires parent != this
      requires parent.commSet ==> parent.comm.Some?
      modifies this`comm, this`commSet, this`clones
      ensures parent.commSet && !dupOk ==> err == -ENOMEM && comm == None && commSet == old(commSet) && clones == old(clones)
      ensures parent.commSet && dupOk ==> comm == parent.comm && commSet
      ensures !parent.commSet ==> comm == old(comm) && commSet == old(commSet)
      ensures !parent.commSet || dupOk ==>
                clones == old(clones) + Types(FirstFailure(cloneOk)) &&
                (err == 0 <==> FirstFailure(cloneOk) == |cloneOk|) && (err == 0 || err == -ENOMEM)
    {
      if parent.commSet {
        if dupOk {
          comm := Some(parent.comm.value);
        } else {
          comm := None;
        }
        if !dupOk {
          return -ENOMEM;
        }
        commSet := true;
      }
      ghost var name0, set0 := comm, commSet;
      var i := 0;
      while i < |cloneOk|
        invariant 0 <= i <= |cloneOk|
        invariant comm == name0 && commSet == set0
        invariant forall j :: 0 <= j < i ==> cloneOk[j]
        invariant clones == old(clones) + Types(i)
      {
        if !cloneOk[i] {
          FirstFailureUnique(cloneOk, i);
          return -ENOMEM;
        }
        clones := clones + [i];
        i := i + 1;
      }
      FirstFailureUnique(cloneOk, i);
      return 0;
    }
  }

  /** The length cache is never invalidated: after the length of "perf" (4) is cached, renaming
      the thread "perf-top" still reports 4. */
  method StaleCommLen() returns (t: Thread, first: int, second: int)
    ensures t.comm == Some("perf-top")
    ensures first == 4 && second == 4 && second != |t.comm.value|
  {
    t := new Thread.Zeroed(1, None);
    var _ := t.SetComm("perf", true);
    first := t.CommLen();
    var _ := t.SetComm("perf-top", true);
    second := t.CommLen();
  }

  /** A thread can hold comm_set with a NULL name: a successful set_comm followed by a failing
      one. Forking from it would strdup(NULL), which fork's precondition excludes. */
  method SetButNull() returns (t: Thread)
    ensures t.commSet && t.comm.None?
  {
    t := new Thread.Zeroed(7, None);
    var _ := t.SetComm("worker", true);
    var _ := t.SetComm("worker-2", false);
  }
}
