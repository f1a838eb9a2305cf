/** The kernel of kern/syscall.c as an object whose fields the system calls
    update in place: the environments, their page tables, the free-page list
    and the running environment. Each system call is proved to leave exactly
    the state, and return exactly the value, of its function in Syscall. */
module Kern {
  import opened Inc
  import opened KernelState
  import opened Syscall

  class Kernel {
    var envs: map<EnvId, Env>
    var pgdirs: map<EnvId, PageTable>
    var free: seq<PageId>
    var curenv: EnvId

    function State(): KState
      reads this
    {
      KState(envs, pgdirs, free, curenv)
    }

    ghost predicate Valid()
      reads this
    {
      Wf(State())
    }

    constructor (s: KState)
      requires Wf(s)
      ensures Valid() && State() == s
    {
      envs, pgdirs, free, curenv := s.envs, s.pgdirs, s.free, s.cur;
    }

    // -------------------------------------------------------------------
    // kern/pmap.c and kern/env.c, as the system calls use them

    /** page_alloc: the head of the free list, or nothing when memory is
        exhausted. */
    method PageAllocate(noMem: bool) returns (pp: Option<PageId>)
      requires Valid()
      modifies this
      ensures Valid()
      ensures noMem || old(free) == [] ==> pp.None? && State() == old(State())
      ensures !noMem && old(free) != [] ==>
        pp == Some(old(free)[0]) && !InUse(State(), pp.value) && pp.value !in free
        && State() == old(State()).(free := old(free)[1..])
    {
      if noMem || free == [] {
        return None;
      }
      PopWf(State());
      pp := Some(free[0]);
      free := free[1..];
    }

    /** page_free: the page goes back at the head of the free list. */
    method PageFree(pg: PageId)
      requires Valid() && pg !in free && !InUse(State(), pg)
      modifies this
      ensures Valid() && State() == old(State()).(free := [pg] + old(free))
    {
      free := [pg] + free;
    }

    /** page_insert: maps pg at va with perm | PTE_P, or fails with -E_NO_MEM
        and changes nothing. */
    method PageInsert(e: EnvId, pg: PageId, va: nat, perm: bv32, fails: bool) returns (rc: int)
      requires Valid() && e in pgdirs && UserVa(va) && PermOk(perm) && pg !in free
      modifies this
      ensures Valid()
      ensures fails ==> rc == -E_NO_MEM && State() == old(State())
      ensures !fails ==> rc == 0 && State() == Insert(old(State()), e, va, pg, perm)
    {
      if fails {
        return -E_NO_MEM;
      }
      InsertWf(State(), e, va, pg, perm);
      var pt: PageTable := pgdirs[e][va := Mapping(pg, perm | PTE_P)];
      pgdirs := pgdirs[e := pt];
      return 0;
    }

    /** page_remove: va is no longer mapped in e. */
    method PageRemove(e: EnvId, va: nat)
      requires Valid() && e in pgdirs
      modifies this
      ensures Valid() && State() == Remove(old(State()), e, va)
    {
      RemoveWf(State(), e, va);
      var pt: PageTable := pgdirs[e] - {va};
      pgdirs := pgdirs[e := pt];
    }

    /** env_alloc: on success a fresh child of the running environment. */
    method EnvAlloc(allocRc: int, childId: EnvId) returns (rc: int)
      requires Valid() && AllocOk(State(), allocRc, childId)
      modifies this
      ensures Valid() && rc == allocRc
      ensures rc != 0 ==> State() == old(State())
      ensures rc == 0 ==>
        State() == old(State()).(envs := old(envs)[childId := Allocated(childId, curenv)],
                                 pgdirs := old(pgdirs)[childId := map[]])
    {
      if allocRc != 0 {
        return allocRc;
      }
      AddEnvWf(State(), childId, Allocated(childId, curenv));
      envs := envs[childId := Allocated(childId, curenv)];
      pgdirs := pgdirs[childId := map[]];
      return 0;
    }

    // -------------------------------------------------------------------
    // System calls

    method SysEnvSetStatus(envid: EnvId, status: int) returns (r: int)
      requires Valid()
      modifies this
      ensures Valid() && Step(r, State()) == EnvSetStatus(old(State()), envid, status)
    {
      if status != ENV_RUNNABLE && status != ENV_NOT_RUNNABLE {
        return -E_INVAL;
      }
      var e := EnvLookup(State(), envid, true);
      if e.None? {
        return -E_BAD_ENV;
      }
      envs := envs[e.value := envs[e.value].(status := status)];
      return 0;
    }

    method SysEnvSetTrapframe(envid: EnvId, tf: Option<Trapframe>) returns (r: int)
      requires Valid()
      modifies this
      ensures Valid() && Step(r, State()) == EnvSetTrapframe(old(State()), envid, tf)
    {
      if tf.None? {
        return -E_INVAL;
      }
      var e := EnvLookup(State(), envid, true);
      if e.None? {
        return -E_BAD_ENV;
      }
      var id := e.value;
      var env := SetTrapframe(envs[id], tf.value);
      SetEnvWf(State(), id, env);
      envs := envs[id := env];
      return 0;
    }

    /** e->env_tf = *tf and the field writes that follow it. */
    static method SetTrapframe(e: Env, tf: Trapframe) returns (env: Env)
      ensures env == e.(tf := Sanitize(tf))
    {
      var t := tf;
      t := t.(eflags := t.eflags & !FL_IOPL_MASK);
      t := t.(eflags := t.eflags | FL_IF);
      t := t.(ds := GD_UD | 3, es := GD_UD | 3, ss := GD_UD | 3);
      t := t.(cs := GD_UT | 3);
      env := e.(tf := t);
    }

    method SysEnvSetPgfaultUpcall(envid: EnvId, func: nat) returns (r: int)
      requires Valid()
      modifies this
      ensures Valid() && Step(r, State()) == EnvSetPgfaultUpcall(old(State()), envid, func)
    {
      var e := EnvLookup(State(), envid, true);
      if e.None? {
        return -E_BAD_ENV;
      }
      envs := envs[e.value := envs[e.value].(pgfaultUpcall := func)];
      return 0;
    }

    method SysExofork(allocRc: int, childId: EnvId) returns (r: int)
      requires Valid() && AllocOk(State(), allocRc, childId)
      modifies this
      ensures Valid() && Step(r, State()) == Exofork(old(State()), allocRc, childId)
    {
      var rc := EnvAlloc(allocRc, childId);
      if rc != 0 {
        return rc;
      }
      var child := envs[childId].(status := ENV_NOT_RUNNABLE);
      child := child.(tf := envs[curenv].tf);
      child := child.(tf := child.tf.(eax := 0));
      ghost var s0 := old(State());
      assert child == ForkedChild(s0, childId);
      AddEnvWf(s0, childId, child);
      envs := envs[childId := child];
      assert envs == old(envs)[childId := child];
      return childId;
    }

    method SysPageAlloc(envid: EnvId, va: nat, perm: bv32, noMem: bool, insertFails: bool) returns (r: int)
      requires Valid()
      modifies this
      ensures Valid() && Step(r, State()) == PageAlloc(old(State()), envid, va, perm, noMem, insertFails)
    {
      if !PermOk(perm) || va >= UTOP || va % PGSIZE != 0 {
        return -E_INVAL;
      }
      var e := EnvLookup(State(), envid, true);
      if e.None? {
        return -E_BAD_ENV;
      }
      var p := PageAllocate(noMem);
      if p.None? {
        return -E_NO_MEM;
      }
      var rc := PageInsert(e.value, p.value, va, perm, insertFails);
      if rc < 0 {
        PageFree(p.value);
        assert [p.value] + old(free)[1..] == old(free);
        return rc;
      }
      return 0;
    }

    method SysPageMap(srcenvid: EnvId, srcva: nat, dstenvid: EnvId, dstva: nat, perm: bv32, insertFails: bool)
      returns (r: int)
      requires Valid()
      modifies this
      ensures Valid()
      ensures Step(r, State()) == PageMap(old(State()), srcenvid, srcva, dstenvid, dstva, perm, insertFails)
    {
      var src := EnvLookup(State(), srcenvid, true);
      var dst := EnvLookup(State(), dstenvid, true);
      if src.None? || dst.None? {
        return -E_BAD_ENV;
      }
      if srcva >= UTOP || srcva % PGSIZE != 0 || dstva >= UTOP || dstva % PGSIZE != 0 || !PermOk(perm) {
        return -E_INVAL;
      }
      var pp := PageLookup(pgdirs[src.value], srcva);
      if pp.None? || (perm & PTE_W != 0 && pp.value.perm & PTE_W == 0) {
        return -E_INVAL;
      }
      r := PageInsert(dst.value, pp.value.page, dstva, perm, insertFails);
    }

    method SysPageUnmap(envid: EnvId, va: nat) returns (r: int)
      requires Valid()
      modifies this
      ensures Valid() && Step(r, State()) == PageUnmap(old(State()), envid, va)
    {
      if va >= UTOP || va % PGSIZE != 0 {
        return -E_INVAL;
      }
      var e := EnvLookup(State(), envid, true);
      if e.None? {
        return -E_BAD_ENV;
      }
      PageRemove(e.value, va);
      return 0;
    }

    method SysIpcTrySend(envid: EnvId, value: bv32, srcva: nat, perm: bv32, insertFails: bool) returns (r: int)
      requires Valid()
      modifies this
      ensures Valid() && Step(r, State()) == IpcTrySend(old(State()), envid, value, srcva, perm, insertFails)
    {
      var target := EnvLookup(State(), envid, false);
      if target.None? {
        return -E_BAD_ENV;
      }
      var t := target.value;
      if !envs[t].ipcRecving {
        return -E_IPC_NOT_RECV;
      }
      // the target's record, written back once its fields are set
      var env := envs[t];
      if srcva < UTOP && env.ipcDstva != 0 {
        if srcva % PGSIZE != 0 || !PermOk(perm) {
          return -E_INVAL;
        }
        var pp := PageLookup(pgdirs[curenv], srcva);
        if pp.None? {
          return -E_INVAL;
        }
        if perm & PTE_W != 0 && pp.value.perm & PTE_W == 0 {
          return -E_INVAL;
        }
        ghost var s1 := Insert(State(), t, env.ipcDstva, pp.value.page, perm);
        var rc := PageInsert(t, pp.value.page, env.ipcDstva, perm, insertFails);
        if rc < 0 {
          return -E_NO_MEM;
        }
        env := Deliver(env, curenv, value, perm);
        assert State() == s1;
      } else {
        env := Deliver(env, curenv, value, 0);
      }
      SetEnvWf(State(), t, env);
      envs := envs[t := env];
      return 0;
    }

    /** The writes to the target's IPC fields and status that end a
        successful send. */
    static method Deliver(e: Env, from: EnvId, value: bv32, perm: bv32) returns (env: Env)
      ensures env == Delivered(e, from, value, perm)
    {
      env := e.(ipcPerm := perm);
      env := env.(ipcRecving := false);
      env := env.(ipcFrom := from);
      env := env.(ipcValue := value);
      env := env.(status := ENV_RUNNABLE);
    }

    /** sys_ipc_recv up to sched_yield; the 0 it returns on the error-free
        path is the eax it leaves for when the environment next runs. */
    method SysIpcRecv(dstva: nat) returns (r: int)
      requires Valid()
      modifies this
      ensures Valid() && Step(r, State()) == IpcRecv(old(State()), dstva)
    {
      var env := envs[curenv];
      if dstva < UTOP {
        if dstva % PGSIZE != 0 {
          return -E_INVAL;
        }
        env := env.(ipcDstva := dstva);
      } else {
        env := env.(ipcDstva := 0);
      }
      env := env.(ipcRecving := true);
      env := env.(status := ENV_NOT_RUNNABLE);
      env := env.(tf := env.tf.(eax := 0));
      SetEnvWf(State(), curenv, env);
      envs := envs[curenv := env];
      return 0;
    }

    /** syscall: the switch on the system-call number. */
    method Syscall(no: Word, a1: Word, a2: Word, a3: Word, a4: Word, a5: Word, x: Ext) returns (r: int)
      requires Valid() && ExtOk(State(), x)
      modifies this
      ensures Valid() && Step(r, State()) == Dispatch(old(State()), no, a1, a2, a3, a4, a5, x)
    {
      match Decode(no)
      case None =>
        return -E_INVAL;
      case Some(SysCputs) =>
        return 0;
      case Some(SysCgetc) =>
        return x.console;
      case Some(SysGetenvid) =>
        return envs[curenv].id;
      case Some(SysEnvDestroy) =>
        var e := EnvLookup(State(), Signed(a1), true);
        return if e.None? then -E_BAD_ENV else 0;
      case Some(SysYield) =>
        return 0;
      case Some(SysExofork) =>
        r := SysExofork(x.allocRc, x.childId);
      case Some(SysEnvSetStatus) =>
        r := SysEnvSetStatus(Signed(a1), Signed(a2));
      case Some(SysPageAlloc) =>
        r := SysPageAlloc(Signed(a1), a2, a3 as bv32, x.noMem, x.insertFails);
      case Some(SysPageMap) =>
        r := SysPageMap(Signed(a1), a2, Signed(a3), a4, a5 as bv32, x.insertFails);
      case Some(SysPageUnmap) =>
        r := SysPageUnmap(Signed(a1), a2);
      case Some(SysEnvSetPgfaultUpcall) =>
        r := SysEnvSetPgfaultUpcall(Signed(a1), a2);
      case Some(SysIpcTrySend) =>
        r := SysIpcTrySend(Signed(a1), a2 as bv32, a3, a4 as bv32, x.insertFails);
      case Some(SysIpcRecv) =>
        r := SysIpcRecv(a1);
      case Some(SysEnvSetTrapframe) =>
        r := SysEnvSetTrapframe(Signed(a1), if a2 == 0 then None else Some(x.userTf));
      case Some(SysTimeMsec) =>
        return x.timeMsec;
      case Some(SysTxPacket) =>
        return TxPacket(a1, Signed(a2), x.drvRc);
      case Some(SysRxPacket) =>
        return RxPacket(a1, x.drvRc);
    }
  }
}
