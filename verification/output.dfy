/** The output helper environment's loop body (net/output.c:22-47): it
    takes one request from the network server, sends the packet in it to
    the card one frame at a time, retrying a frame while the card is busy,
    and unmaps the request page. The request itself arrives through
    ipc_recv, which is not part of this model: its result (the value, the
    sender and the page permission) and the jp_len it finds in the page are
    inputs. */
module NetOutput {
  import opened Inc
  import opened KernelState
  import opened Syscall
  import opened Kern
  import opened Ns

  function Min(a: int, b: int): int { if a < b then a else b }

  /** A request is served only when it is NSREQ_OUTPUT, comes from the
      network server and carries a page (net/output.c:26). */
  predicate ValidRequest(ns: EnvId, value: int, from: EnvId, perm: bv32) {
    value == NSREQ_OUTPUT && from == ns && perm & PTE_P != 0
  }

  /** Which frame size the loop uses: tx_size as written (net/output.c:33),
      where i is already a byte offset and is multiplied by the frame size
      once more, or the size the loop evidently intends, the rest of the
      packet capped at one frame. */
  datatype Sizing = AsWritten | Intended

  /** The size of the frame at byte offset i of a jp_len-byte packet. */
  function ChunkSize(sz: Sizing, jpLen: int, i: nat): int {
    match sz
    case AsWritten => Min(jpLen - i * E1000_PACKET_SIZE_BYTES, E1000_PACKET_SIZE_BYTES)
    case Intended => Min(jpLen - i, E1000_PACKET_SIZE_BYTES)
  }

  /** What a stretch of the loop did: the driver results it consumed, how
      it ended, and its calls. */
  datatype Run = Run(used: nat, outcome: Outcome, trace: seq<Event>)

  /** One frame (net/output.c:34-40): what the busy-retry loop for a frame
      of `size` bytes at addr does against the card's answers rs. */
  function ChunkRun(addr: nat, size: int, rs: seq<int>): (r: Run)
    requires addr != 0
    ensures r.used <= |rs|
  {
    if size <= 0 then Run(0, Panicked(TxPacket(addr, size, 0)), [Tx(addr, size)])
    else
      var a := Retry(-E_NIC_BUSY, rs);
      var o := if a.last.None? then Starved else if a.last.value == 0 then Served else Panicked(a.last.value);
      Run(a.used, o, Tries(Tx(addr, size), -E_NIC_BUSY, rs, a.used))
  }

  /** sys_tx_packet refuses a size <= 0 with -E_INVAL before the card is
      asked, and the daemon panics on it. Otherwise the frame is served
      exactly when the card answers 0 after nothing but -E_NIC_BUSY, the
      daemon panics with any other answer, and it is still retrying when
      every answer is busy. */
  lemma {:induction false} ChunkRunOutcome(addr: nat, size: int, rs: seq<int>)
    requires addr != 0
    ensures var r := ChunkRun(addr, size, rs);
      && (size <= 0 ==> r == Run(0, Panicked(-E_INVAL), [Tx(addr, size)]))
      && (r.outcome == Served <==>
            size > 0 && r.used > 0 && rs[r.used - 1] == 0 && forall j :: 0 <= j < r.used - 1 ==> rs[j] == -E_NIC_BUSY)
      && (r.outcome.Panicked? ==> r.outcome.rc != 0 && r.outcome.rc != -E_NIC_BUSY)
      && (r.outcome.Panicked? && size > 0 ==> r.used > 0 && r.outcome.rc == rs[r.used - 1])
      && (r.outcome == Starved <==> size > 0 && forall j :: 0 <= j < |rs| ==> rs[j] == -E_NIC_BUSY)
  {
    if size > 0 {
      RetryMeans(-E_NIC_BUSY, rs);
    }
  }

  /** Only the frame and sys_yield are called, the frame once per answer
      consumed, or once when the gate refuses it. */
  lemma {:induction false} ChunkRunCalls(addr: nat, size: int, rs: seq<int>)
    requires addr != 0
    ensures var r := ChunkRun(addr, size, rs);
      && (forall e :: e in r.trace ==> e == Tx(addr, size) || e == Yield)
      && Calls(r.trace, Tx(addr, size)) == if size <= 0 then 1 else r.used
  {
    if size <= 0 {
      assert [Tx(addr, size)][..0] == [];
    } else {
      var a := Retry(-E_NIC_BUSY, rs);
      TriesShape(Tx(addr, size), -E_NIC_BUSY, rs, a.used);
      TriesCalls(Tx(addr, size), -E_NIC_BUSY, rs, a.used);
    }
  }

  /** The frame loop (net/output.c:31-41) from byte offset i on, once it
      has consumed `used` of the card's answers and made the calls in
      `trace`: each frame is sent by the busy-retry loop, and the loop goes
      on to offset i + S only when the frame was served. */
  function Frames(sz: Sizing, jpLen: int, i: nat, rs: seq<int>, used: nat, trace: seq<Event>): Run
    decreases jpLen - i
  {
    if jpLen <= i then Run(used, Served, trace)
    else
      var c := ChunkRun(PacketAt(i), ChunkSize(sz, jpLen, i), rs);
      if c.outcome != Served then Run(used + c.used, c.outcome, trace + c.trace)
      else Frames(sz, jpLen, i + E1000_PACKET_SIZE_BYTES, rs[c.used..], used + c.used, trace + c.trace)
  }

  /** The whole frame loop over a jp_len-byte packet. */
  function Transmit(sz: Sizing, jpLen: int, rs: seq<int>): Run {
    Frames(sz, jpLen, 0, rs, 0, [])
  }

  /** The busy-retry loop for one frame (net/output.c:34-40). */
  method TransmitChunk(addr: nat, size: int, drv: seq<int>) returns (r: Run)
    requires addr != 0
    ensures r == ChunkRun(addr, size, drv)
  {
    var used: nat := 0;
    var trace: seq<Event> := [];
    while true
      invariant used <= |drv|
      invariant size <= 0 ==> used == 0 && trace == []
      invariant size > 0 ==> forall j :: 0 <= j < used ==> drv[j] == -E_NIC_BUSY
      invariant size > 0 ==> trace == Tries(Tx(addr, size), -E_NIC_BUSY, drv, used)
      decreases |drv| - used
    {
      if size > 0 && used == |drv| {
        RetryMeans(-E_NIC_BUSY, drv);
        return Run(used, Starved, trace);
      }
      // the driver is asked only when the gate lets the frame through
      var rc := TxPacket(addr, size, if size > 0 then drv[used] else 0);
      if size > 0 {
        used := used + 1;
      }
      trace := trace + [Tx(addr, size)];
      if rc == 0 {
        RetryMeans(-E_NIC_BUSY, drv);
        return Run(used, Served, trace);
      }
      if rc != -E_NIC_BUSY {
        RetryMeans(-E_NIC_BUSY, drv);
        return Run(used, Panicked(rc), trace);
      }
      trace := trace + [Yield];
    }
  }


  /** The frame loop (net/output.c:31-41): byte offsets 0, S, 2S, ... below
      jp_len, S the frame size, each frame sent by the busy-retry loop. */
  method TransmitPacket(sz: Sizing, jpLen: int, drv: seq<int>) returns (r: Run)
    ensures r == Transmit(sz, jpLen, drv)
  {
    var i: nat := 0;
    var pos: nat := 0;
    var rest := drv;
    var trace: seq<Event> := [];
    while i < jpLen
      invariant Transmit(sz, jpLen, drv) == Frames(sz, jpLen, i, rest, pos, trace)
      decreases jpLen - i
    {
      var c := TransmitChunk(PacketAt(i), ChunkSize(sz, jpLen, i), rest);
      FramesStep(sz, jpLen, i, rest, pos, trace);
      if c.outcome != Served {
        return Run(pos + c.used, c.outcome, trace + c.trace);
      }
      trace := trace + c.trace;
      pos := pos + c.used;
      rest := rest[c.used..];
      i := i + E1000_PACKET_SIZE_BYTES;
    }
    return Run(pos, Served, trace);
  }

  /** The frame loop from offset i below jp_len is the frame at i, and,
      only when it is served, the loop from the next offset. */
  lemma FramesStep(sz: Sizing, jpLen: int, i: nat, rs: seq<int>, used: nat, trace: seq<Event>)
    requires i < jpLen
    ensures var c := ChunkRun(PacketAt(i), ChunkSize(sz, jpLen, i), rs);
      Frames(sz, jpLen, i, rs, used, trace) ==
        if c.outcome != Served then Run(used + c.used, c.outcome, trace + c.trace)
        else Frames(sz, jpLen, i + E1000_PACKET_SIZE_BYTES, rs[c.used..], used + c.used, trace + c.trace)
  {
  }

  /** One pass of the output loop (net/output.c:24-46), after ipc_recv has
      returned value, from and perm, with jp_len in the request page; drv
      holds the card's answers to sys_tx_packet. A valid request is sent
      frame by frame; any other is answered NRES_INVALID_REQ with no page.
      Unless the daemon panicked, it then unmaps nsipcbuf. */
  method ServeOutput(k: Kernel, ns: EnvId, value: int, from: EnvId, perm: bv32, sz: Sizing, jpLen: int,
    drv: seq<int>) returns (outcome: Outcome, trace: seq<Event>)
    requires k.Valid()
    modifies k
    ensures k.Valid()
    ensures ValidRequest(ns, value, from, perm) ==>
      var t := Transmit(sz, jpLen, drv); outcome == t.outcome && trace == t.trace
    ensures !ValidRequest(ns, value, from, perm) ==>
      outcome == Served && trace == [Send(from, NRES_INVALID_REQ, 0, 0)]
    ensures outcome == Served ==> k.State() == PageUnmap(old(k.State()), 0, NSIPCBUF).post
    ensures outcome != Served ==> k.State() == old(k.State())
  {
    if value == NSREQ_OUTPUT && from == ns && perm & PTE_P != 0 {
      var r := TransmitPacket(sz, jpLen, drv);
      outcome, trace := r.outcome, r.trace;
      if outcome != Served {
        return;
      }
    } else {
      outcome, trace := Served, [Send(from, NRES_INVALID_REQ, 0, 0)];
    }
    var _ := k.SysPageUnmap(0, NSIPCBUF);
  }

  // ---------------------------------------------------------------------
  // What the frame loop sends

  /** e is a frame the loop sends from offset i on: at byte offset o of
      jp_data, with o below jp_len, a multiple of the frame size past i, and
      of the size sz gives at o. */
  predicate FrameAt(sz: Sizing, jpLen: int, i: nat, e: Event) {
    && e.Tx? && e.addr >= PacketAt(i)
    && var o := e.addr - PacketAt(0);
      o < jpLen && (o - i) % E1000_PACKET_SIZE_BYTES == 0 && e.size == ChunkSize(sz, jpLen, o)
  }

  /** The loop only sends its frames, with sys_yield between retries; with
      jp_len <= 0 it sends nothing (net/output.c:31-34). */
  lemma {:induction false} TransmitSendsFrames(sz: Sizing, jpLen: int, rs: seq<int>)
    ensures forall e :: e in Transmit(sz, jpLen, rs).trace ==> e == Yield || FrameAt(sz, jpLen, 0, e)
  {
    FramesSend(sz, jpLen, 0, rs, 0, []);
  }

  /** From offset i on, the loop adds only its frames and sys_yield to the
      calls it has made. */
  lemma {:induction false} FramesSend(sz: Sizing, jpLen: int, i: nat, rs: seq<int>, used: nat, trace: seq<Event>)
    ensures forall e :: e in Frames(sz, jpLen, i, rs, used, trace).trace ==>
      e in trace || e == Yield || FrameAt(sz, jpLen, i, e)
    decreases jpLen - i
  {
    if i < jpLen {
      var c := ChunkRun(PacketAt(i), ChunkSize(sz, jpLen, i), rs);
      ChunkFrames(sz, jpLen, i, rs);
      if c.outcome == Served {
        var next := i + E1000_PACKET_SIZE_BYTES;
        FramesSend(sz, jpLen, next, rs[c.used..], used + c.used, trace + c.trace);
        forall e | e in Frames(sz, jpLen, i, rs, used, trace).trace
          ensures e in trace || e == Yield || FrameAt(sz, jpLen, i, e)
        {
          if e !in trace + c.trace && e != Yield {
            FrameNext(sz, jpLen, i, next, e);
          }
        }
      }
    }
  }

  /** The calls for the frame at offset i are that frame and sys_yield. */
  lemma ChunkFrames(sz: Sizing, jpLen: int, i: nat, rs: seq<int>)
    requires i < jpLen
    ensures forall e :: e in ChunkRun(PacketAt(i), ChunkSize(sz, jpLen, i), rs).trace ==>
      e == Yield || FrameAt(sz, jpLen, i, e)
  {
    ChunkRunCalls(PacketAt(i), ChunkSize(sz, jpLen, i), rs);
    assert FrameAt(sz, jpLen, i, Tx(PacketAt(i), ChunkSize(sz, jpLen, i)));
  }

  lemma FrameNext(sz: Sizing, jpLen: int, i: nat, next: nat, e: Event)
    requires next == i + E1000_PACKET_SIZE_BYTES && FrameAt(sz, jpLen, next, e)
    ensures FrameAt(sz, jpLen, i, e)
  {
    var o := e.addr - PacketAt(0);
    assert (o - i) == (o - next) + E1000_PACKET_SIZE_BYTES;
  }

  /** A packet of at most one frame is one frame: the whole of jp_len from
      the start of jp_data, retried while the card is busy (net/output.c:31-40). */
  lemma {:induction false} OutputOneFrame(sz: Sizing, jpLen: int, rs: seq<int>)
    requires 0 < jpLen <= E1000_PACKET_SIZE_BYTES
    ensures Transmit(sz, jpLen, rs) == ChunkRun(PacketAt(0), jpLen, rs)
  {
    var c := ChunkRun(PacketAt(0), jpLen, rs);
    assert ChunkSize(sz, jpLen, 0) == jpLen;
    assert [] + c.trace == c.trace;
    if c.outcome == Served {
      assert Frames(sz, jpLen, E1000_PACKET_SIZE_BYTES, rs[c.used..], c.used, c.trace) == c;
    }
  }

  /** As written, a packet longer than one frame but at most S * S bytes
      (S the frame size) asks for a second frame of jp_len - S * S <= 0
      bytes: sys_tx_packet refuses it with -E_INVAL and the daemon panics
      once the first frame is out. */
  lemma {:induction false} OutputSecondFrameRefused(jpLen: int, rs: seq<int>)
    requires E1000_PACKET_SIZE_BYTES < jpLen <= E1000_PACKET_SIZE_BYTES * E1000_PACKET_SIZE_BYTES
    requires ChunkRun(PacketAt(0), E1000_PACKET_SIZE_BYTES, rs).outcome == Served
    ensures Transmit(AsWritten, jpLen, rs).outcome == Panicked(-E_INVAL)
    ensures var t := Transmit(AsWritten, jpLen, rs).trace;
      |t| > 0 && t[|t| - 1] == Tx(PacketAt(E1000_PACKET_SIZE_BYTES), jpLen - E1000_PACKET_SIZE_BYTES * E1000_PACKET_SIZE_BYTES)
  {
    var S := E1000_PACKET_SIZE_BYTES;
    var c := ChunkRun(PacketAt(0), S, rs);
    assert ChunkSize(AsWritten, jpLen, 0) == S;
    assert ChunkSize(AsWritten, jpLen, S) == jpLen - S * S <= 0;
    var d := ChunkRun(PacketAt(S), jpLen - S * S, rs[c.used..]);
    ChunkRunOutcome(PacketAt(S), jpLen - S * S, rs[c.used..]);
    assert d == Run(0, Panicked(-E_INVAL), [Tx(PacketAt(S), jpLen - S * S)]);
    assert Frames(AsWritten, jpLen, S, rs[c.used..], c.used, [] + c.trace) ==
      Run(c.used, d.outcome, [] + c.trace + d.trace);
    assert Transmit(AsWritten, jpLen, rs) == Run(c.used, d.outcome, [] + c.trace + d.trace);
  }

  /** The packet a 3000-byte request shows it: the card takes the first
      1518 bytes at once, and the second frame's size is 3000 - 1518 * 1518. */
  lemma OutputPanicsOn3000()
    ensures Transmit(AsWritten, 3000, [0, 0]) ==
      Run(1, Panicked(-E_INVAL), [Tx(PacketAt(0), 1518), Tx(PacketAt(1518), 3000 - 1518 * 1518)])
  {
    var c := ChunkRun(PacketAt(0), 1518, [0, 0]);
    assert Retry(-E_NIC_BUSY, [0, 0]) == Attempts(1, Some(0));
    assert Tries(Tx(PacketAt(0), 1518), -E_NIC_BUSY, [0, 0], 1) == [] + [Tx(PacketAt(0), 1518)] + [];
    assert c == Run(1, Served, [Tx(PacketAt(0), 1518)]);
    assert [0, 0][1..] == [0];
    assert ChunkSize(AsWritten, 3000, 1518) == 3000 - 1518 * 1518;
    assert Frames(AsWritten, 3000, 1518, [0], 1, [] + c.trace) ==
      Run(1, Panicked(-E_INVAL), [] + c.trace + [Tx(PacketAt(1518), 3000 - 1518 * 1518)]);
  }

  // ---------------------------------------------------------------------
  // The frame sizes the loop evidently intends

  /** The frames from offset i on with the intended size, in order. */
  function IntendedFrames(jpLen: int, i: nat): seq<Event>
    decreases jpLen - i
  {
    if jpLen <= i then []
    else [Tx(PacketAt(i), ChunkSize(Intended, jpLen, i))] + IntendedFrames(jpLen, i + E1000_PACKET_SIZE_BYTES)
  }

  /** The bytes a sequence of frames covers. */
  function Bytes(fs: seq<Event>): int {
    if fs == [] then 0 else (if fs[0].Tx? then fs[0].size else 0) + Bytes(fs[1..])
  }

  /** With the intended size, the frames tile the packet: each is accepted
      by sys_tx_packet (0 < size <= S), each starts where the one before it
      ends, and together they cover jp_len - i bytes. */
  lemma {:induction false} IntendedFramesTile(jpLen: int, i: nat)
    ensures var fs := IntendedFrames(jpLen, i);
      && (forall k :: 0 <= k < |fs| ==> fs[k].Tx? && 0 < fs[k].size <= E1000_PACKET_SIZE_BYTES)
      && (|fs| > 0 ==> fs[0].addr == PacketAt(i))
      && (forall k :: 0 <= k < |fs| - 1 ==> fs[k].addr + fs[k].size == fs[k + 1].addr)
      && Bytes(fs) == if jpLen <= i then 0 else jpLen - i
    decreases jpLen - i
  {
    if i < jpLen {
      var next := i + E1000_PACKET_SIZE_BYTES;
      IntendedFramesTile(jpLen, next);
      var fs := IntendedFrames(jpLen, i);
      var rest := IntendedFrames(jpLen, next);
      assert fs[1..] == rest;
      if |rest| > 0 {
        assert jpLen > next;
        assert fs[0].size == E1000_PACKET_SIZE_BYTES;
      }
    }
  }

  /** With the intended size, a card that takes every frame at once gets
      exactly those frames, one answer each, and the packet is served. */
  lemma {:induction false} IntendedTransmitServes(jpLen: int, rs: seq<int>)
    requires |IntendedFrames(jpLen, 0)| <= |rs|
    requires forall j :: 0 <= j < |rs| ==> rs[j] == 0
    ensures var fs := IntendedFrames(jpLen, 0);
      Transmit(Intended, jpLen, rs) == Run(|fs|, Served, fs)
  {
    IntendedFramesServed(jpLen, 0, rs, 0, []);
    assert [] + IntendedFrames(jpLen, 0) == IntendedFrames(jpLen, 0);
  }

  lemma {:induction false} IntendedFramesServed(jpLen: int, i: nat, rs: seq<int>, used: nat, trace: seq<Event>)
    requires |IntendedFrames(jpLen, i)| <= |rs|
    requires forall j :: 0 <= j < |rs| ==> rs[j] == 0
    ensures var fs := IntendedFrames(jpLen, i);
      Frames(Intended, jpLen, i, rs, used, trace) == Run(used + |fs|, Served, trace + fs)
    decreases jpLen - i
  {
    if i < jpLen {
      var size := ChunkSize(Intended, jpLen, i);
      var next := i + E1000_PACKET_SIZE_BYTES;
      var c := ChunkRun(PacketAt(i), size, rs);
      assert Retry(-E_NIC_BUSY, rs) == Attempts(1, Some(0));
      assert Tries(Tx(PacketAt(i), size), -E_NIC_BUSY, rs, 1) == [] + [Tx(PacketAt(i), size)] + [];
      assert c == Run(1, Served, [Tx(PacketAt(i), size)]);
      IntendedFramesServed(jpLen, next, rs[1..], used + 1, trace + [Tx(PacketAt(i), size)]);
      assert trace + [Tx(PacketAt(i), size)] + IntendedFrames(jpLen, next) == trace + IntendedFrames(jpLen, i);
    } else {
      assert trace + [] == trace;
    }
  }

  /** The 3000-byte request with the intended size: two frames, of 1518 and
      1482 bytes, and the packet is served. */
  lemma IntendedServes3000()
    ensures Transmit(Intended, 3000, [0, 0]) ==
      Run(2, Served, [Tx(PacketAt(0), 1518), Tx(PacketAt(1518), 1482)])
  {
    assert IntendedFrames(3000, 3036) == [];
    assert IntendedFrames(3000, 1518) == [Tx(PacketAt(1518), 1482)];
    IntendedTransmitServes(3000, [0, 0]);
  }
}
