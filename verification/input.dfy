/** The input helper environment (net/input.c:6-38): it receives packets
    from the card into a fresh page each time and hands each page to the
    network server. The hand-off goes through ipc_send, which is not part of
    this model: it appears as a Send in the trace. */
module NetInput {
  import opened Inc
  import opened KernelState
  import opened Syscall
  import opened Kern
  import opened Ns

  /** The permission of the packet page, allocated and sent alike
      (net/input.c:22, 35). */
  const INPUT_PERM: bv32 := PTE_U | PTE_W | PTE_P

  /** The receive address: nsipcbuf.pkt.jp_data, not the start of the page
      (net/input.c:25). */
  function RxAt(): nat { PacketAt(0) }

  /** Before its loop the daemon drops whatever it maps at nsipcbuf
      (net/input.c:18). */
  method InputStart(k: Kernel)
    requires k.Valid()
    modifies k
    ensures k.Valid() && k.State() == PageUnmap(old(k.State()), 0, NSIPCBUF).post
    ensures NSIPCBUF !in k.pgdirs[k.curenv]
  {
    var _ := k.SysPageUnmap(0, NSIPCBUF);
  }

  /** The receive loop (net/input.c:23-28): sys_rx_packet again, after
      sys_yield, exactly while the card answers -E_RX_EMPTY; drv holds the
      card's answers. */
  method ReceivePacket(drv: seq<int>) returns (a: Attempts, trace: seq<Event>)
    ensures a == Retry(-E_RX_EMPTY, drv)
    ensures trace == Tries(Rx(RxAt()), -E_RX_EMPTY, drv, a.used)
  {
    var used: nat := 0;
    trace := [];
    while true
      invariant used <= |drv|
      invariant forall j :: 0 <= j < used ==> drv[j] == -E_RX_EMPTY
      invariant trace == Tries(Rx(RxAt()), -E_RX_EMPTY, drv, used)
      decreases |drv| - used
    {
      if used == |drv| {
        RetryMeans(-E_RX_EMPTY, drv);
        return Attempts(used, None), trace;
      }
      var rc := RxPacket(RxAt(), drv[used]);
      used := used + 1;
      trace := trace + [Rx(RxAt())];
      if rc != -E_RX_EMPTY {
        RetryMeans(-E_RX_EMPTY, drv);
        return Attempts(used, Some(rc)), trace;
      }
      trace := trace + [Yield];
    }
  }

  /** One pass of the input loop (net/input.c:22-36). The page allocation's
      result is not checked by the daemon; noMem and insertFails are its
      outcome. On a packet, jp_len is the byte count the card returned, the
      page goes to the network server as NSREQ_INPUT, and the daemon unmaps
      it before its next allocation; any other negative answer panics. */
  method ServeInput(k: Kernel, ns: EnvId, drv: seq<int>, noMem: bool, insertFails: bool)
    returns (outcome: Outcome, jpLen: int, trace: seq<Event>)
    requires k.Valid()
    modifies k
    ensures k.Valid()
    ensures
      var a := Retry(-E_RX_EMPTY, drv);
      var rx := Tries(Rx(RxAt()), -E_RX_EMPTY, drv, a.used);
      && (a.last.None? ==> outcome == Starved && trace == rx)
      && (a.last.Some? && a.last.value < 0 ==> outcome == Panicked(a.last.value) && trace == rx)
      && (a.last.Some? && a.last.value >= 0 ==>
            outcome == Served && jpLen == a.last.value
            && trace == rx + [Send(ns, NSREQ_INPUT, NSIPCBUF, INPUT_PERM)])
    ensures
      var alloc := PageAlloc(old(k.State()), 0, NSIPCBUF, INPUT_PERM, noMem, insertFails).post;
      k.State() == if outcome == Served then PageUnmap(alloc, 0, NSIPCBUF).post else alloc
    ensures outcome == Served ==> NSIPCBUF !in k.pgdirs[k.curenv]
  {
    var _ := k.SysPageAlloc(0, NSIPCBUF, INPUT_PERM, noMem, insertFails);
    var a;
    a, trace := ReceivePacket(drv);
    jpLen := 0;
    if a.last.None? {
      return Starved, jpLen, trace;
    }
    var rc := a.last.value;
    if rc < 0 {
      return Panicked(rc), jpLen, trace;
    }
    jpLen := rc;
    trace := trace + [Send(ns, NSREQ_INPUT, NSIPCBUF, INPUT_PERM)];
    var _ := k.SysPageUnmap(0, NSIPCBUF);
    outcome := Served;
  }

  /** The page each pass hands on is fresh: the allocation succeeds exactly
      when a page is free and the insert does not fail, and then maps at
      nsipcbuf, with P|U|W, a page no environment mapped before
      (net/input.c:13-15, 22). */
  lemma {:induction false} InputFreshPage(s: KState, noMem: bool, insertFails: bool)
    requires Wf(s)
    ensures var st := PageAlloc(s, 0, NSIPCBUF, INPUT_PERM, noMem, insertFails);
      && (st.ret == 0 <==> !noMem && s.free != [] && !insertFails)
      && (st.ret == 0 ==>
            && NSIPCBUF in st.post.pgdirs[s.cur]
            && st.post.pgdirs[s.cur][NSIPCBUF] == Mapping(s.free[0], INPUT_PERM)
            && !InUse(s, s.free[0]))
  {
    assert PermOk(INPUT_PERM);
    assert INPUT_PERM | PTE_P == INPUT_PERM;
  }
}
