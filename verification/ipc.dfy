/** Properties of the IPC rendezvous of kern/syscall.c that span several
    system calls: a target takes at most one message per sys_ipc_recv, a
    receive followed by a send delivers, a mapping is never passed on with
    more rights than the sender holds, and the trap-frame sanitisation is
    idempotent. */
module Rendezvous {
  import opened Inc
  import opened KernelState
  import opened Syscall

  /** One system call: the environment that traps, the number in eax, the
      five argument registers, and what the environment outside the kernel
      answers. */
  datatype Trap = Trap(caller: EnvId, no: Word, a1: Word, a2: Word, a3: Word, a4: Word, a5: Word, x: Ext)

  /** The scheduler can run `caller`, and the outside answers fit the state. */
  predicate Runnable(s: KState, t: Trap) {
    t.caller in s.envs && ExtOk(s.(cur := t.caller), t.x)
  }

  /** The state after a sequence of traps, in order; a trap that cannot run
      is skipped. */
  function Run(s: KState, ts: seq<Trap>): (s': KState)
    requires Wf(s)
    ensures Wf(s') && s.envs.Keys <= s'.envs.Keys
    decreases |ts|
  {
    if ts == [] then s
    else if !Runnable(s, ts[0]) then Run(s, ts[1..])
    else
      var t := ts[0];
      var st := Dispatch(s.(cur := t.caller), t.no, t.a1, t.a2, t.a3, t.a4, t.a5, t.x);
      Run(st.post, ts[1..])
  }

  /** t issues no sys_ipc_recv among ts. */
  predicate NoRecvBy(ts: seq<Trap>, t: EnvId) {
    forall i :: 0 <= i < |ts| ==> !(ts[i].caller == t && Decode(ts[i].no) == Some(SysIpcRecv))
  }

  /** An environment that is not receiving stays so over any run in which it
      does not call sys_ipc_recv itself. */
  lemma {:induction false} StaysNotReceiving(s: KState, ts: seq<Trap>, t: EnvId)
    requires Wf(s) && t in s.envs && !s.envs[t].ipcRecving && NoRecvBy(ts, t)
    ensures t in Run(s, ts).envs && !Run(s, ts).envs[t].ipcRecving
    decreases |ts|
  {
    if ts == [] {
    } else if !Runnable(s, ts[0]) {
      assert NoRecvBy(ts[1..], t) by {
        forall i | 0 <= i < |ts[1..]| ensures !(ts[1..][i].caller == t && Decode(ts[1..][i].no) == Some(SysIpcRecv)) {
          assert ts[1..][i] == ts[i + 1];
        }
      }
      StaysNotReceiving(s, ts[1..], t);
    } else {
      var tr := ts[0];
      var s0 := s.(cur := tr.caller);
      var st := Dispatch(s0, tr.no, tr.a1, tr.a2, tr.a3, tr.a4, tr.a5, tr.x);
      assert t !in NewReceivers(s0, st.post) by {
        assert !(tr.caller == t && Decode(tr.no) == Some(SysIpcRecv));
      }
      assert NoRecvBy(ts[1..], t) by {
        forall i | 0 <= i < |ts[1..]| ensures !(ts[1..][i].caller == t && Decode(ts[1..][i].no) == Some(SysIpcRecv)) {
          assert ts[1..][i] == ts[i + 1];
        }
      }
      StaysNotReceiving(st.post, ts[1..], t);
    }
  }

  /** Exclusivity (kern/syscall.c:370-373, 406): once a send to t has
      succeeded, every later send that names t fails with -E_IPC_NOT_RECV and
      changes nothing, for as long as t does not call sys_ipc_recv again. */
  lemma {:induction false} SendIsExclusive(
    s: KState, envid: EnvId, value: bv32, srcva: nat, perm: bv32, fails: bool,
    ts: seq<Trap>, sender: EnvId, envid': EnvId, value': bv32, srcva': nat, perm': bv32, fails': bool)
    requires Wf(s) && IpcTrySend(s, envid, value, srcva, perm, fails).ret == 0
    requires NoRecvBy(ts, EnvLookup(s, envid, false).value)
    requires
      var s1 := Run(IpcTrySend(s, envid, value, srcva, perm, fails).post, ts);
      sender in s1.envs && Wf(s1.(cur := sender))
      && EnvLookup(s1.(cur := sender), envid', false) == Some(EnvLookup(s, envid, false).value)
    ensures
      var s1 := Run(IpcTrySend(s, envid, value, srcva, perm, fails).post, ts).(cur := sender);
      IpcTrySend(s1, envid', value', srcva', perm', fails') == Step(-E_IPC_NOT_RECV, s1)
  {
    var t := EnvLookup(s, envid, false).value;
    var post := IpcTrySend(s, envid, value, srcva, perm, fails).post;
    assert !post.envs[t].ipcRecving;
    StaysNotReceiving(post, ts, t);
  }

  /** A receive followed by a send that offers no page delivers: the send
      succeeds, the receiver is runnable again and holds the sender, the
      value and permission 0, and no page table changes. */
  lemma {:induction false} RecvThenSendDelivers(s: KState, dstva: nat, sender: EnvId, value: bv32, srcva: nat, perm: bv32, fails: bool)
    requires Wf(s) && !(dstva < UTOP && dstva % PGSIZE != 0)
    requires sender in s.envs
    requires srcva >= UTOP || dstva >= UTOP || dstva == 0
    ensures
      var r := IpcRecv(s, dstva).post;
      var st := IpcTrySend(r.(cur := sender), s.cur, value, srcva, perm, fails);
      && st.ret == 0
      && st.post.envs[s.cur].status == ENV_RUNNABLE
      && !st.post.envs[s.cur].ipcRecving
      && st.post.envs[s.cur].ipcFrom == sender
      && st.post.envs[s.cur].ipcValue == value
      && st.post.envs[s.cur].ipcPerm == 0
      && st.post.pgdirs == s.pgdirs
  {
    var r := IpcRecv(s, dstva).post;
    assert r.envs[s.cur].ipcRecving;
    assert !PageWanted(r.envs[s.cur], srcva);
    assert EnvLookup(r.(cur := sender), s.cur, false) == Some(s.cur);
  }

  /** The page path: after a receive at a page address, a send of a mapped
      page with permissions the sender holds maps the sender's physical page
      at the receiver's address with perm | PTE_P. */
  lemma {:induction false} RecvThenSendMapsPage(s: KState, dstva: nat, sender: EnvId, value: bv32, srcva: nat, perm: bv32)
    requires Wf(s) && UserVa(dstva) && dstva != 0
    requires sender in s.envs && srcva % PGSIZE == 0 && srcva < UTOP && PermOk(perm)
    requires Grantable(s.pgdirs[sender], srcva, perm)
    ensures
      var r := IpcRecv(s, dstva).post;
      var st := IpcTrySend(r.(cur := sender), s.cur, value, srcva, perm, false);
      && st.ret == 0
      && st.post.envs[s.cur].ipcPerm == perm
      && st.post.pgdirs[s.cur][dstva] == Mapping(s.pgdirs[sender][srcva].page, perm | PTE_P)
  {
    var r := IpcRecv(s, dstva).post;
    var r' := r.(cur := sender);
    assert r.envs[s.cur].ipcDstva == dstva;
    assert EnvLookup(r', s.cur, false) == Some(s.cur);
    assert PageWanted(r.envs[s.cur], srcva);
    assert SendPageOk(r', srcva, perm);
  }

  /** A receive at NULL is a receive that wants no page: sys_ipc_recv(0)
      leaves the same state as sys_ipc_recv at any address at or above UTOP
      (kern/syscall.c:430-438). */
  lemma RecvNullWantsNoPage(s: KState, high: nat)
    requires Wf(s) && high >= UTOP
    ensures IpcRecv(s, 0) == IpcRecv(s, high)
    ensures IpcRecv(s, 0).post.envs[s.cur].ipcDstva == 0
  {
  }

  /** Permissions present-and-writable after page_insert come from a writable
      request. */
  lemma WritableFromRequest(perm: bv32)
    ensures (perm | PTE_P) & PTE_W != 0 ==> perm & PTE_W != 0
  {
  }

  /** No write escalation through IPC: a page the receiver gets writable is
      writable in the sender, and it is the sender's physical page. */
  lemma {:induction false} SendGrantsNoMoreThanSenderHolds(s: KState, envid: EnvId, value: bv32, srcva: nat, perm: bv32, fails: bool)
    requires Wf(s)
    requires IpcTrySend(s, envid, value, srcva, perm, fails).ret == 0
    requires PageWanted(s.envs[EnvLookup(s, envid, false).value], srcva)
    ensures
      var t := EnvLookup(s, envid, false).value;
      var m := IpcTrySend(s, envid, value, srcva, perm, fails).post.pgdirs[t][s.envs[t].ipcDstva];
      && srcva in s.pgdirs[s.cur]
      && m.page == s.pgdirs[s.cur][srcva].page
      && (m.perm & PTE_W != 0 ==> s.pgdirs[s.cur][srcva].perm & PTE_W != 0)
  {
    WritableFromRequest(perm);
  }

  /** The same for sys_page_map: the destination gets the source's page and
      write access only where the source has it. */
  lemma {:induction false} MapGrantsNoMoreThanSourceHolds(s: KState, srcenvid: EnvId, srcva: nat, dstenvid: EnvId, dstva: nat, perm: bv32)
    requires Wf(s) && PageMap(s, srcenvid, srcva, dstenvid, dstva, perm, false).ret == 0
    ensures
      var src, dst := EnvLookup(s, srcenvid, true).value, EnvLookup(s, dstenvid, true).value;
      var m := PageMap(s, srcenvid, srcva, dstenvid, dstva, perm, false).post.pgdirs[dst][dstva];
      && m.page == s.pgdirs[src][srcva].page
      && (m.perm & PTE_W != 0 ==> s.pgdirs[src][srcva].perm & PTE_W != 0)
  {
    WritableFromRequest(perm);
  }

  lemma SanitizeFlagsIdempotent(x: bv32)
    ensures (((x & !FL_IOPL_MASK) | FL_IF) & !FL_IOPL_MASK) | FL_IF == (x & !FL_IOPL_MASK) | FL_IF
  {
  }

  /** Sanitising a sanitised trap frame changes nothing. */
  lemma {:induction false} SanitizeIdempotent(tf: Trapframe)
    ensures Sanitize(Sanitize(tf)) == Sanitize(tf)
  {
    var once := Sanitize(tf);
    var twice := Sanitize(once);
    assert twice.eflags == once.eflags by {
      SanitizeFlagsIdempotent(tf.eflags);
    }
    assert twice.cs == once.cs && twice.ds == once.ds && twice.es == once.es && twice.ss == once.ss;
  }
}
