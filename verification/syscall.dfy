/** The system calls of kern/syscall.c as functions from a kernel state to
    the value returned and the state left behind. Each function checks in the
    order the C code does; the class Kern.Kernel runs the same steps in place
    and is proved equal to these functions. */
module Syscall {
  import opened Inc
  import opened KernelState

  /** What the kernel does not decide itself: whether page_alloc finds a page,
      whether page_insert can allocate a page table, env_alloc's outcome, the
      user memory behind sys_env_set_trapframe's pointer, the NIC driver's
      return value (e1000_tx / e1000_rx), the console and the clock. */
  datatype Ext = Ext(
    noMem: bool, insertFails: bool,
    allocRc: int, childId: EnvId,
    userTf: Trapframe, drvRc: int, console: int, timeMsec: int)

  /** env_alloc fails with -E_NO_FREE_ENV or -E_NO_MEM, or returns 0 and a
      fresh positive id. */
  predicate AllocOk(s: KState, allocRc: int, childId: EnvId) {
    && (allocRc == 0 || allocRc == -E_NO_FREE_ENV || allocRc == -E_NO_MEM)
    && (allocRc == 0 ==> childId > 0 && childId !in s.envs)
  }

  predicate ExtOk(s: KState, x: Ext) { AllocOk(s, x.allocRc, x.childId) }

  /** What every system call keeps: the invariant, the set of live
      environments (only exofork adds one) and the running environment. */
  predicate Keeps(s: KState, s': KState) {
    Wf(s') && s.envs.Keys <= s'.envs.Keys && s'.cur == s.cur
  }

  // ---------------------------------------------------------------------
  // Environment control

  /** sys_env_set_status (kern/syscall.c:107-129). */
  function EnvSetStatus(s: KState, envid: EnvId, status: int): (st: Step)
    requires Wf(s)
    ensures Keeps(s, st.post) && NewReceivers(s, st.post) == {}
    ensures status != ENV_RUNNABLE && status != ENV_NOT_RUNNABLE ==> st == Step(-E_INVAL, s)
    ensures st.ret != 0 ==> st.post == s && (st.ret == -E_INVAL || st.ret == -E_BAD_ENV)
    ensures st.ret == -E_BAD_ENV <==>
      (status == ENV_RUNNABLE || status == ENV_NOT_RUNNABLE) && EnvLookup(s, envid, true).None?
    ensures st.ret == 0 <==>
      (status == ENV_RUNNABLE || status == ENV_NOT_RUNNABLE) && EnvLookup(s, envid, true).Some?
    ensures st.ret == 0 ==>
      var e := EnvLookup(s, envid, true).value;
      st.post == s.(envs := s.envs[e := s.envs[e].(status := status)])
  {
    if status != ENV_RUNNABLE && status != ENV_NOT_RUNNABLE then Step(-E_INVAL, s)
    else match EnvLookup(s, envid, true)
      case None => Step(-E_BAD_ENV, s)
      case Some(e) =>
        var env := s.envs[e].(status := status);
        SetEnvWf(s, e, env);
        SetEnvReceivers(s, e, env);
        Step(0, s.(envs := s.envs[e := env]))
  }

  /** The trap-frame sanitisation of sys_env_set_trapframe
      (kern/syscall.c:155-165), step by step; SanitizeSecures states what it
      guarantees. */
  function Sanitize(tf: Trapframe): Trapframe {
    var t := tf.(eflags := tf.eflags & !FL_IOPL_MASK);
    var t := t.(eflags := t.eflags | FL_IF);
    t.(ds := GD_UD | 3, es := GD_UD | 3, ss := GD_UD | 3, cs := GD_UT | 3)
  }

  /** A sanitised frame runs with IOPL 0, interrupts enabled and every
      segment selector at privilege level 3 (code segment GD_UT, data
      segments GD_UD); every other flag and register is the caller's. */
  lemma SanitizeSecures(tf: Trapframe)
    ensures var r := Sanitize(tf);
      && r.eflags & FL_IOPL_MASK == 0
      && r.eflags & FL_IF == FL_IF
      && r.eflags & !(FL_IOPL_MASK | FL_IF) == tf.eflags & !(FL_IOPL_MASK | FL_IF)
      && r.cs & 3 == 3 && r.ds & 3 == 3 && r.es & 3 == 3 && r.ss & 3 == 3
      && r.cs & !3 == GD_UT & !3 && r.ds & !3 == GD_UD & !3
      && r.es == r.ds && r.ss == r.ds
      && r.(eflags := tf.eflags, cs := tf.cs, ds := tf.ds, es := tf.es, ss := tf.ss) == tf
  {
    MaskCleared(tf.eflags, FL_IOPL_MASK, FL_IF);
    MaskSet(tf.eflags, FL_IOPL_MASK, FL_IF);
    MaskOthers(tf.eflags, FL_IOPL_MASK, FL_IF);
    PrivilegeThree(GD_UT);
    PrivilegeThree(GD_UD);
    PrivilegeKeepsIndex(GD_UT);
    PrivilegeKeepsIndex(GD_UD);
  }

  // Clearing the bits m and then setting the bits f, disjoint from m: m is
  // clear, f is set, and every other bit is as it was.
  lemma MaskCleared(x: bv32, m: bv32, f: bv32)
    requires f & m == 0
    ensures ((x & !m) | f) & m == 0
  {
  }

  lemma MaskSet(x: bv32, m: bv32, f: bv32)
    ensures ((x & !m) | f) & f == f
  {
  }

  lemma MaskOthers(x: bv32, m: bv32, f: bv32)
    ensures ((x & !m) | f) & !(m | f) == x & !(m | f)
  {
  }

  /** A selector with requested privilege level 3. */
  lemma PrivilegeThree(g: bv16)
    ensures (g | 3) & 3 == 3
  {
  }

  lemma PrivilegeKeepsIndex(g: bv16)
    ensures (g | 3) & !3 == g & !3
  {
  }

  /** sys_env_set_trapframe (kern/syscall.c:138-168); tf is None for a NULL
      pointer. */
  function EnvSetTrapframe(s: KState, envid: EnvId, tf: Option<Trapframe>): (st: Step)
    requires Wf(s)
    ensures Keeps(s, st.post) && NewReceivers(s, st.post) == {}
    ensures tf.None? ==> st == Step(-E_INVAL, s)
    ensures st.ret != 0 ==> st.post == s && (st.ret == -E_INVAL || st.ret == -E_BAD_ENV)
    ensures st.ret == -E_BAD_ENV <==> tf.Some? && EnvLookup(s, envid, true).None?
    ensures st.ret == 0 <==> tf.Some? && EnvLookup(s, envid, true).Some?
    ensures st.ret == 0 ==>
      var e := EnvLookup(s, envid, true).value;
      st.post == s.(envs := s.envs[e := s.envs[e].(tf := Sanitize(tf.value))])
  {
    if tf.None? then Step(-E_INVAL, s)
    else match EnvLookup(s, envid, true)
      case None => Step(-E_BAD_ENV, s)
      case Some(e) =>
        var env := s.envs[e].(tf := Sanitize(tf.value));
        SetEnvWf(s, e, env);
        SetEnvReceivers(s, e, env);
        Step(0, s.(envs := s.envs[e := env]))
  }

  /** sys_env_set_pgfault_upcall (kern/syscall.c:178-189). */
  function EnvSetPgfaultUpcall(s: KState, envid: EnvId, func: nat): (st: Step)
    requires Wf(s)
    ensures Keeps(s, st.post) && NewReceivers(s, st.post) == {}
    ensures st.ret != 0 ==> st == Step(-E_BAD_ENV, s)
    ensures st.ret == 0 <==> EnvLookup(s, envid, true).Some?
    ensures st.ret == 0 ==>
      var e := EnvLookup(s, envid, true).value;
      st.post == s.(envs := s.envs[e := s.envs[e].(pgfaultUpcall := func)])
  {
    match EnvLookup(s, envid, true)
    case None => Step(-E_BAD_ENV, s)
    case Some(e) =>
      var env := s.envs[e].(pgfaultUpcall := func);
      SetEnvWf(s, e, env);
      SetEnvReceivers(s, e, env);
      Step(0, s.(envs := s.envs[e := env]))
  }

  /** The environment env_alloc creates for sys_exofork once its status and
      registers are set: a child of the caller, not runnable, with the
      caller's registers except that eax is 0, no upcall, not receiving. */
  function ForkedChild(s: KState, childId: EnvId): Env
    requires s.cur in s.envs
  {
    Env(childId, s.cur, ENV_NOT_RUNNABLE, s.envs[s.cur].tf.(eax := 0), 0, false, 0, 0, 0, 0)
  }

  /** sys_exofork (kern/syscall.c:74-98). */
  function Exofork(s: KState, allocRc: int, childId: EnvId): (st: Step)
    requires Wf(s) && AllocOk(s, allocRc, childId)
    ensures Keeps(s, st.post) && NewReceivers(s, st.post) == {}
    ensures allocRc != 0 ==> st == Step(allocRc, s)
    ensures allocRc == 0 ==>
      && st.ret == childId && st.ret > 0
      && st.post.envs.Keys == s.envs.Keys + {childId}
      && st.post.envs[childId].parentId == s.cur
      && st.post.envs[childId].status == ENV_NOT_RUNNABLE
      && st.post.envs[childId].tf == s.envs[s.cur].tf.(eax := 0)
      && st.post.pgdirs[childId] == map[]
      && (forall e :: e in s.envs ==> st.post.envs[e] == s.envs[e] && st.post.pgdirs[e] == s.pgdirs[e])
      && st.post.free == s.free
  {
    if allocRc != 0 then Step(allocRc, s)
    else
      var s' := s.(envs := s.envs[childId := ForkedChild(s, childId)],
                   pgdirs := s.pgdirs[childId := map[]]);
      AddEnvWf(s, childId, ForkedChild(s, childId));
      SetEnvReceivers(s, childId, ForkedChild(s, childId));
      assert s'.envs == s.envs[childId := ForkedChild(s, childId)];
      Step(childId, s')
  }

  // ---------------------------------------------------------------------
  // Page system calls

  /** The caller may pass on its mapping at va with perm: va is mapped, and
      PTE_W is asked for only when the caller's own entry has it
      (kern/syscall.c:284-285, 382-392). */
  predicate Grantable(pt: PageTable, va: nat, perm: bv32) {
    va in pt && (perm & PTE_W != 0 ==> pt[va].perm & PTE_W != 0)
  }

  /** sys_page_alloc (kern/syscall.c:207-240). */
  function PageAlloc(s: KState, envid: EnvId, va: nat, perm: bv32, noMem: bool, insertFails: bool): (st: Step)
    requires Wf(s)
    ensures Keeps(s, st.post) && NewReceivers(s, st.post) == {}
    ensures !PermOk(perm) || !UserVa(va) ==> st == Step(-E_INVAL, s)
    ensures PermOk(perm) && UserVa(va) && EnvLookup(s, envid, true).None? ==> st == Step(-E_BAD_ENV, s)
    ensures st.ret != 0 ==> st.post == s && (st.ret == -E_INVAL || st.ret == -E_BAD_ENV || st.ret == -E_NO_MEM)
    ensures st.ret == -E_NO_MEM <==>
      PermOk(perm) && UserVa(va) && EnvLookup(s, envid, true).Some? && (noMem || s.free == [] || insertFails)
    ensures st.ret == 0 <==>
      PermOk(perm) && UserVa(va) && EnvLookup(s, envid, true).Some? && !noMem && s.free != [] && !insertFails
    ensures st.ret == 0 ==>
      && !InUse(s, s.free[0])
      && st.post == Insert(s.(free := s.free[1..]), EnvLookup(s, envid, true).value, va, s.free[0], perm)
  {
    if !PermOk(perm) || va >= UTOP || va % PGSIZE != 0 then Step(-E_INVAL, s)
    else match EnvLookup(s, envid, true)
      case None => Step(-E_BAD_ENV, s)
      case Some(e) =>
        if noMem || s.free == [] then Step(-E_NO_MEM, s)
        // page_insert failed: the page goes back on the free list
        else if insertFails then Step(-E_NO_MEM, s)
        else
          PopWf(s);
          InsertWf(s.(free := s.free[1..]), e, va, s.free[0], perm);
          SameEnvsReceivers(s, Insert(s.(free := s.free[1..]), e, va, s.free[0], perm));
          Step(0, Insert(s.(free := s.free[1..]), e, va, s.free[0], perm))
  }

  /** sys_page_map (kern/syscall.c:258-291). */
  function PageMap(s: KState, srcenvid: EnvId, srcva: nat, dstenvid: EnvId, dstva: nat,
                   perm: bv32, insertFails: bool): (st: Step)
    requires Wf(s)
    ensures Keeps(s, st.post) && NewReceivers(s, st.post) == {}
    ensures EnvLookup(s, srcenvid, true).None? || EnvLookup(s, dstenvid, true).None? ==>
      st == Step(-E_BAD_ENV, s)
    ensures st.ret != 0 ==> st.post == s && (st.ret == -E_BAD_ENV || st.ret == -E_INVAL || st.ret == -E_NO_MEM)
    ensures st.ret == -E_INVAL <==>
      && EnvLookup(s, srcenvid, true).Some? && EnvLookup(s, dstenvid, true).Some?
      && (!UserVa(srcva) || !UserVa(dstva) || !PermOk(perm)
          || !Grantable(s.pgdirs[EnvLookup(s, srcenvid, true).value], srcva, perm))
    ensures st.ret == 0 <==>
      && EnvLookup(s, srcenvid, true).Some? && EnvLookup(s, dstenvid, true).Some?
      && UserVa(srcva) && UserVa(dstva) && PermOk(perm)
      && Grantable(s.pgdirs[EnvLookup(s, srcenvid, true).value], srcva, perm)
      && !insertFails
    ensures st.ret == -E_NO_MEM <==>
      && EnvLookup(s, srcenvid, true).Some? && EnvLookup(s, dstenvid, true).Some?
      && UserVa(srcva) && UserVa(dstva) && PermOk(perm)
      && Grantable(s.pgdirs[EnvLookup(s, srcenvid, true).value], srcva, perm)
      && insertFails
    ensures st.ret == 0 ==>
      var src, dst := EnvLookup(s, srcenvid, true).value, EnvLookup(s, dstenvid, true).value;
      st.post == Insert(s, dst, dstva, s.pgdirs[src][srcva].page, perm)
  {
    var src, dst := EnvLookup(s, srcenvid, true), EnvLookup(s, dstenvid, true);
    if src.None? || dst.None? then Step(-E_BAD_ENV, s)
    else if srcva >= UTOP || srcva % PGSIZE != 0 || dstva >= UTOP || dstva % PGSIZE != 0
            || !PermOk(perm) then Step(-E_INVAL, s)
    else match PageLookup(s.pgdirs[src.value], srcva)
      case None => Step(-E_INVAL, s)
      case Some(m) =>
        if perm & PTE_W != 0 && m.perm & PTE_W == 0 then Step(-E_INVAL, s)
        else if insertFails then Step(-E_NO_MEM, s)
        else
          InsertWf(s, dst.value, dstva, m.page, perm);
          SameEnvsReceivers(s, Insert(s, dst.value, dstva, m.page, perm));
          Step(0, Insert(s, dst.value, dstva, m.page, perm))
  }

  /** sys_page_unmap (kern/syscall.c:300-317): unmapping an unmapped page
      succeeds. */
  function PageUnmap(s: KState, envid: EnvId, va: nat): (st: Step)
    requires Wf(s)
    ensures Keeps(s, st.post) && NewReceivers(s, st.post) == {}
    ensures !UserVa(va) ==> st == Step(-E_INVAL, s)
    ensures UserVa(va) && EnvLookup(s, envid, true).None? ==> st == Step(-E_BAD_ENV, s)
    ensures st.ret == 0 <==> UserVa(va) && EnvLookup(s, envid, true).Some?
    ensures st.ret == 0 ==> st.post == Remove(s, EnvLookup(s, envid, true).value, va)
  {
    if va >= UTOP || va % PGSIZE != 0 then Step(-E_INVAL, s)
    else match EnvLookup(s, envid, true)
      case None => Step(-E_BAD_ENV, s)
      case Some(e) =>
        RemoveWf(s, e, va);
        SameEnvsReceivers(s, Remove(s, e, va));
        Step(0, Remove(s, e, va))
  }

  // ---------------------------------------------------------------------
  // IPC

  /** A send carries a page only when the sender offers one below UTOP and
      the target named a destination (kern/syscall.c:375). */
  predicate PageWanted(target: Env, srcva: nat) {
    srcva < UTOP && target.ipcDstva != 0
  }

  /** The checks on the page path of sys_ipc_try_send (kern/syscall.c:377-392). */
  predicate SendPageOk(s: KState, srcva: nat, perm: bv32)
    requires s.cur in s.pgdirs
  {
    srcva % PGSIZE == 0 && PermOk(perm) && Grantable(s.pgdirs[s.cur], srcva, perm)
  }

  /** The target's record after a delivery (kern/syscall.c:399-409). */
  function Delivered(t: Env, from: EnvId, value: bv32, perm: bv32): Env {
    t.(ipcPerm := perm, ipcRecving := false, ipcFrom := from, ipcValue := value, status := ENV_RUNNABLE)
  }

  /** sys_ipc_try_send (kern/syscall.c:357-412). The lookup of the target does
      no permission check. */
  function IpcTrySend(s: KState, envid: EnvId, value: bv32, srcva: nat, perm: bv32, insertFails: bool): (st: Step)
    requires Wf(s)
    ensures Keeps(s, st.post) && NewReceivers(s, st.post) == {}
    // the checks, in order; a failed send changes nothing
    ensures EnvLookup(s, envid, false).None? ==> st == Step(-E_BAD_ENV, s)
    ensures EnvLookup(s, envid, false).Some? && !s.envs[EnvLookup(s, envid, false).value].ipcRecving ==>
      st == Step(-E_IPC_NOT_RECV, s)
    ensures st.ret != 0 ==> st.post == s
    ensures st.ret == -E_INVAL <==>
      var t := EnvLookup(s, envid, false);
      t.Some? && s.envs[t.value].ipcRecving && PageWanted(s.envs[t.value], srcva) && !SendPageOk(s, srcva, perm)
    ensures st.ret == -E_NO_MEM <==>
      var t := EnvLookup(s, envid, false);
      t.Some? && s.envs[t.value].ipcRecving && PageWanted(s.envs[t.value], srcva) && SendPageOk(s, srcva, perm)
      && insertFails
    ensures st.ret == 0 <==>
      var t := EnvLookup(s, envid, false);
      t.Some? && s.envs[t.value].ipcRecving
      && (!PageWanted(s.envs[t.value], srcva) || (SendPageOk(s, srcva, perm) && !insertFails))
    ensures st.ret == 0 || st.ret == -E_BAD_ENV || st.ret == -E_IPC_NOT_RECV || st.ret == -E_INVAL
      || st.ret == -E_NO_MEM
    // a successful send: the target stops receiving, becomes runnable and
    // holds the sender, the value and the granted permission
    ensures st.ret == 0 ==>
      var t := EnvLookup(s, envid, false).value;
      var wanted := PageWanted(s.envs[t], srcva);
      && s.envs[t].ipcRecving
      && st.post.envs == s.envs[t := Delivered(s.envs[t], s.cur, value, if wanted then perm else 0)]
      && st.post.free == s.free
      && (!wanted ==> st.post.pgdirs == s.pgdirs)
      && (wanted ==> st.post == Insert(s, t, s.envs[t].ipcDstva, s.pgdirs[s.cur][srcva].page, perm)
                                .(envs := st.post.envs))
  {
    match EnvLookup(s, envid, false)
    case None => Step(-E_BAD_ENV, s)
    case Some(t) =>
      var target := s.envs[t];
      if !target.ipcRecving then Step(-E_IPC_NOT_RECV, s)
      else if srcva < UTOP && target.ipcDstva != 0 then
        if srcva % PGSIZE != 0 || !PermOk(perm) then Step(-E_INVAL, s)
        else match PageLookup(s.pgdirs[s.cur], srcva)
          case None => Step(-E_INVAL, s)
          case Some(m) =>
            if perm & PTE_W != 0 && m.perm & PTE_W == 0 then Step(-E_INVAL, s)
            else if insertFails then Step(-E_NO_MEM, s)
            else
              var s1 := Insert(s, t, target.ipcDstva, m.page, perm);
              InsertWf(s, t, target.ipcDstva, m.page, perm);
              SetEnvWf(s1, t, Delivered(target, s.cur, value, perm));
              SetEnvReceivers(s, t, Delivered(target, s.cur, value, perm));
              Step(0, s1.(envs := s.envs[t := Delivered(target, s.cur, value, perm)]))
      else
        SetEnvWf(s, t, Delivered(target, s.cur, value, 0));
        SetEnvReceivers(s, t, Delivered(target, s.cur, value, 0));
        Step(0, s.(envs := s.envs[t := Delivered(target, s.cur, value, 0)]))
  }

  /** The running environment's record after sys_ipc_recv: receiving, at
      dstva or at NULL for "no page", not runnable, and with 0 as the value
      its system call will return (kern/syscall.c:428-442). */
  function Receiving(e: Env, dstva: nat): Env {
    e.(ipcDstva := if dstva < UTOP then dstva else 0, ipcRecving := true,
       status := ENV_NOT_RUNNABLE, tf := e.tf.(eax := 0))
  }

  /** sys_ipc_recv (kern/syscall.c:425-445), up to the point where it gives
      up the processor. */
  function IpcRecv(s: KState, dstva: nat): (st: Step)
    requires Wf(s)
    ensures Keeps(s, st.post) && NewReceivers(s, st.post) <= {s.cur}
    ensures dstva < UTOP && dstva % PGSIZE != 0 ==> st == Step(-E_INVAL, s)
    ensures !(dstva < UTOP && dstva % PGSIZE != 0) ==>
      && st.ret == 0
      && st.post.envs[s.cur].ipcRecving
      && st.post.envs[s.cur].status == ENV_NOT_RUNNABLE
      && st.post.envs[s.cur].tf.eax == 0
      && st.post.envs[s.cur].ipcDstva == (if dstva < UTOP then dstva else 0)
      && st.post == s.(envs := s.envs[s.cur := Receiving(s.envs[s.cur], dstva)])
  {
    if dstva < UTOP && dstva % PGSIZE != 0 then Step(-E_INVAL, s)
    else
      SetEnvWf(s, s.cur, Receiving(s.envs[s.cur], dstva));
      SetEnvReceivers(s, s.cur, Receiving(s.envs[s.cur], dstva));
      Step(0, s.(envs := s.envs[s.cur := Receiving(s.envs[s.cur], dstva)]))
  }

  // ---------------------------------------------------------------------
  // Packet system calls

  /** sys_tx_packet (kern/syscall.c:454-461): a NULL buffer or a size <= 0 is
      refused before the driver is asked; otherwise the driver's answer. */
  function TxPacket(buf: nat, size: int, drvRc: int): (r: int)
    ensures buf == 0 || size <= 0 ==> r == -E_INVAL
    ensures buf != 0 && size > 0 ==> r == drvRc
  {
    if buf == 0 || size <= 0 then -E_INVAL else drvRc
  }

  /** sys_rx_packet (kern/syscall.c:463-470). */
  function RxPacket(buf: nat, drvRc: int): (r: int)
    ensures buf == 0 ==> r == -E_INVAL
    ensures buf != 0 ==> r == drvRc
  {
    if buf == 0 then -E_INVAL else drvRc
  }

  // ---------------------------------------------------------------------
  // Dispatch

  /** (envid_t)a and (int)a: the two's-complement reading of a 32-bit word
      given as its unsigned value. */
  function Signed(n: Word): (r: int)
    ensures -0x8000_0000 <= r < 0x8000_0000
    ensures r >= 0 ==> r == n
    ensures r < 0 ==> r + 0x1_0000_0000 == n
  {
    if n < 0x8000_0000 then n else n - 0x1_0000_0000
  }

  function Decode(no: Word): Option<Sysno> {
    if no in SyscallTable then Some(SyscallTable[no]) else None
  }

  /** syscall (kern/syscall.c:473-518): an unknown number is refused with
      -E_INVAL and changes nothing. The arguments are the five argument
      registers, cast as the switch casts them. sys_cputs, sys_cgetc and
      sys_time_msec are console and clock I/O and leave the kernel state as
      it is; sys_env_destroy's effect (kern/env.c) is not part of this
      model. */
  function Dispatch(s: KState, no: Word, a1: Word, a2: Word, a3: Word, a4: Word, a5: Word, x: Ext): (st: Step)
    requires Wf(s) && ExtOk(s, x)
    ensures Keeps(s, st.post)
    ensures Decode(no).None? ==> st == Step(-E_INVAL, s)
    ensures NewReceivers(s, st.post) <= (if Decode(no) == Some(SysIpcRecv) then {s.cur} else {})
  {
    SameEnvsReceivers(s, s);
    match Decode(no)
    case None => Step(-E_INVAL, s)
    case Some(SysCputs) => Step(0, s)
    case Some(SysCgetc) => Step(x.console, s)
    case Some(SysGetenvid) => Step(s.envs[s.cur].id, s)
    case Some(SysEnvDestroy) => Step(if EnvLookup(s, Signed(a1), true).None? then -E_BAD_ENV else 0, s)
    case Some(SysYield) => Step(0, s)
    case Some(SysExofork) => Exofork(s, x.allocRc, x.childId)
    case Some(SysEnvSetStatus) => EnvSetStatus(s, Signed(a1), Signed(a2))
    case Some(SysPageAlloc) => PageAlloc(s, Signed(a1), a2, a3 as bv32, x.noMem, x.insertFails)
    case Some(SysPageMap) => PageMap(s, Signed(a1), a2, Signed(a3), a4, a5 as bv32, x.insertFails)
    case Some(SysPageUnmap) => PageUnmap(s, Signed(a1), a2)
    case Some(SysEnvSetPgfaultUpcall) => EnvSetPgfaultUpcall(s, Signed(a1), a2)
    case Some(SysIpcTrySend) => IpcTrySend(s, Signed(a1), a2 as bv32, a3, a4 as bv32, x.insertFails)
    case Some(SysIpcRecv) => IpcRecv(s, a1)
    case Some(SysEnvSetTrapframe) => EnvSetTrapframe(s, Signed(a1), if a2 == 0 then None else Some(x.userTf))
    case Some(SysTimeMsec) => Step(x.timeMsec, s)
    case Some(SysTxPacket) => Step(TxPacket(a1, Signed(a2), x.drvRc), s)
    case Some(SysRxPacket) => Step(RxPacket(a1, x.drvRc), s)
  }
}
