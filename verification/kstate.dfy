/** Kernel state touched by kern/syscall.c: the environments and their IPC
    fields, one user page table per environment, and the free-page list.
    kern/env.c and kern/pmap.c are not part of this model; envid2env,
    page_lookup, page_insert, page_remove, page_alloc and page_free are given
    here as operations on these values, as their callers in kern/syscall.c
    use them. */
module KernelState {
  import opened Inc

  type EnvId = int
  type PageId = nat

  /** The flag bits of a present page-table entry as the system calls leave
      it: PTE_P set, nothing outside PTE_SYSCALL. */
  type Pte = p: bv32 | p & PTE_P == PTE_P && p & !PTE_SYSCALL == 0 witness 1

  /** A present page-table entry: the physical page and the PTE's flag bits. */
  datatype Mapping = Mapping(page: PageId, perm: Pte)

  /** A user page table, keyed by page-aligned virtual address. */
  type PageTable = map<nat, Mapping>

  /** The saved user registers; `regs` holds the general registers other than eax. */
  datatype Trapframe = Trapframe(
    eax: bv32, regs: seq<bv32>, eip: bv32, esp: bv32, eflags: bv32,
    cs: bv16, ds: bv16, es: bv16, ss: bv16)

  /** struct Env, restricted to the fields the modelled code reads or writes. */
  datatype Env = Env(
    id: EnvId, parentId: EnvId, status: int, tf: Trapframe, pgfaultUpcall: nat,
    ipcRecving: bool, ipcDstva: nat, ipcFrom: EnvId, ipcValue: bv32, ipcPerm: bv32)

  /** The kernel: live environments, their page tables, the free pages (head
      first, as page_alloc takes them) and the running environment. */
  datatype KState = KState(
    envs: map<EnvId, Env>, pgdirs: map<EnvId, PageTable>, free: seq<PageId>, cur: EnvId)

  /** What a system call returns and the state it leaves. */
  datatype Step = Step(ret: int, post: KState)

  /** A user page address: below UTOP and page-aligned. */
  predicate UserVa(va: nat) { va < UTOP && va % PGSIZE == 0 }

  /** No bit outside PTE_SYSCALL (kern/syscall.c:221, 279, 377). */
  predicate PermOk(perm: bv32) { perm & !PTE_SYSCALL == 0 }

  predicate TableOk(pt: PageTable) {
    forall va :: va in pt ==> UserVa(va)
  }

  predicate Distinct(ps: seq<PageId>) {
    forall i, j :: 0 <= i < j < |ps| ==> ps[i] != ps[j]
  }

  /** The kernel invariant: the running environment exists, every environment
      has a page table, a positive id equal to its key and a page-aligned user
      receive address (0 when none), every mapping is at a user page address,
      and no free page is mapped. */
  predicate Wf(s: KState) {
    && s.cur in s.envs
    && s.envs.Keys == s.pgdirs.Keys
    && (forall e :: e in s.envs ==> e > 0 && s.envs[e].id == e && UserVa(s.envs[e].ipcDstva))
    && (forall e :: e in s.pgdirs ==> TableOk(s.pgdirs[e]))
    && Distinct(s.free)
    && (forall e, va :: e in s.pgdirs && va in s.pgdirs[e] ==> s.pgdirs[e][va].page !in s.free)
  }

  /** envid2env: 0 names the running environment; any other id must name a
      live environment and, when checkperm is set, the caller itself or one
      of its children. */
  function EnvLookup(s: KState, envid: EnvId, checkperm: bool): (r: Option<EnvId>)
    requires Wf(s)
    ensures r.Some? ==> r.value in s.envs
    ensures r.Some? && envid != 0 ==> r.value == envid
  {
    if envid == 0 then Some(s.cur)
    else if envid !in s.envs then None
    else if checkperm && envid != s.cur && s.envs[envid].parentId != s.cur then None
    else Some(envid)
  }

  /** page_lookup: the present entry at va, if any. */
  function PageLookup(pt: PageTable, va: nat): Option<Mapping> {
    if va in pt then Some(pt[va]) else None
  }

  /** page_insert's effect: env e maps va to page pg with perm | PTE_P. */
  function Insert(s: KState, e: EnvId, va: nat, pg: PageId, perm: bv32): (s': KState)
    requires e in s.pgdirs && PermOk(perm)
    ensures e in s'.pgdirs && va in s'.pgdirs[e] && s'.pgdirs[e][va] == Mapping(pg, perm | PTE_P)
    ensures s'.envs == s.envs && s'.free == s.free && s'.cur == s.cur
  {
    PresentPerm(perm);
    PresentPermOk(perm);
    var pt: PageTable := s.pgdirs[e][va := Mapping(pg, perm | PTE_P)];
    s.(pgdirs := s.pgdirs[e := pt])
  }

  /** page_remove's effect: env e no longer maps va. */
  function Remove(s: KState, e: EnvId, va: nat): (s': KState)
    requires e in s.pgdirs
    ensures e in s'.pgdirs && va !in s'.pgdirs[e]
    ensures s'.envs == s.envs && s'.free == s.free && s'.cur == s.cur
  {
    var pt: PageTable := s.pgdirs[e] - {va};
    s.(pgdirs := s.pgdirs[e := pt])
  }

  /** What env_alloc hands back: a runnable child of `parent` with an empty
      address space, no upcall and no IPC state. The registers env_alloc sets
      up are not part of this model (sys_exofork replaces them all); they
      start as zeros here. */
  function Allocated(id: EnvId, parent: EnvId): (env: Env)
    ensures env.id == id && env.parentId == parent && !env.ipcRecving && env.ipcDstva == 0
  {
    Env(id, parent, ENV_RUNNABLE, Trapframe(0, [], 0, 0, 0, 0, 0, 0, 0), 0, false, 0, 0, 0, 0)
  }

  /** The environments that are receiving in s' but were not in s. */
  function NewReceivers(s: KState, s': KState): set<EnvId> {
    set e | e in s'.envs && s'.envs[e].ipcRecving && !(e in s.envs && s.envs[e].ipcRecving)
  }

  /** A page is in use when some environment maps it. */
  predicate InUse(s: KState, pg: PageId) {
    exists e, va :: e in s.pgdirs && va in s.pgdirs[e] && s.pgdirs[e][va].page == pg
  }

  /** The PTE word that uvpt shows the running environment for page pn
      (0 when not present). Only the flag bits are kept; the address bits play
      no part in the modelled tests. */
  function Uvpt(s: KState, pn: nat): bv32
    requires s.cur in s.pgdirs
  {
    var va := pn * PGSIZE;
    if va in s.pgdirs[s.cur] then s.pgdirs[s.cur][va].perm else 0
  }

  // ---------------------------------------------------------------------
  // The invariant across the state changes the system calls make

  /** page_insert stores perm | PTE_P: present, and still syscall-legal. */
  lemma PresentPerm(perm: bv32)
    ensures (perm | PTE_P) & PTE_P == PTE_P
  {
  }

  lemma PresentPermOk(perm: bv32)
    requires PermOk(perm)
    ensures PermOk(perm | PTE_P)
  {
    OrInside(perm, PTE_P, PTE_SYSCALL);
  }

  lemma OrInside(a: bv32, b: bv32, m: bv32)
    requires a & !m == 0 && b & !m == 0
    ensures (a | b) & !m == 0
  {
  }

  lemma InsertWf(s: KState, e: EnvId, va: nat, pg: PageId, perm: bv32)
    requires Wf(s) && e in s.pgdirs && UserVa(va) && PermOk(perm) && pg !in s.free
    ensures Wf(Insert(s, e, va, pg, perm))
  {
    var s' := Insert(s, e, va, pg, perm);
    var pt := s'.pgdirs[e];
    assert pt == s.pgdirs[e][va := Mapping(pg, perm | PTE_P)];
    assert TableOk(pt);
    forall d, v | d in s'.pgdirs && v in s'.pgdirs[d] ensures s'.pgdirs[d][v].page !in s'.free {
      if d != e || v != va {
        assert s'.pgdirs[d][v] == s.pgdirs[d][v];
      }
    }
  }

  lemma RemoveWf(s: KState, e: EnvId, va: nat)
    requires Wf(s) && e in s.pgdirs
    ensures Wf(Remove(s, e, va))
  {
  }

  /** Replacing an environment's record by one with the same id keeps Wf. */
  lemma SetEnvWf(s: KState, e: EnvId, env: Env)
    requires Wf(s) && e in s.envs && env.id == e && UserVa(env.ipcDstva)
    ensures Wf(s.(envs := s.envs[e := env]))
  {
  }

  /** Adding an environment with a fresh positive id, its own id and an
      empty address space keeps Wf. */
  lemma AddEnvWf(s: KState, e: EnvId, env: Env)
    requires Wf(s) && e !in s.envs && e > 0 && env.id == e && UserVa(env.ipcDstva)
    ensures Wf(s.(envs := s.envs[e := env], pgdirs := s.pgdirs[e := map[]]))
  {
    var s' := s.(envs := s.envs[e := env], pgdirs := s.pgdirs[e := map[]]);
    forall d | d in s'.envs ensures d > 0 && s'.envs[d].id == d && UserVa(s'.envs[d].ipcDstva) {
      if d != e {
        assert s'.envs[d] == s.envs[d];
      }
    }
    forall d | d in s'.pgdirs ensures TableOk(s'.pgdirs[d]) {
      if d != e {
        assert s'.pgdirs[d] == s.pgdirs[d];
      }
    }
    forall d, va | d in s'.pgdirs && va in s'.pgdirs[d] ensures s'.pgdirs[d][va].page !in s'.free {
      assert d != e;
      assert s'.pgdirs[d] == s.pgdirs[d];
    }
  }

  /** page_alloc takes the head of the free list; it is mapped nowhere. */
  lemma PopWf(s: KState)
    requires Wf(s) && s.free != []
    ensures Wf(s.(free := s.free[1..])) && s.free[0] !in s.free[1..] && !InUse(s, s.free[0])
  {
  }

  /** Replacing one record changes the receivers by at most that one. */
  lemma SetEnvReceivers(s: KState, e: EnvId, env: Env)
    ensures NewReceivers(s, s.(envs := s.envs[e := env])) ==
      (if env.ipcRecving && !(e in s.envs && s.envs[e].ipcRecving) then {e} else {})
  {
    var s' := s.(envs := s.envs[e := env]);
  }

  lemma SameEnvsReceivers(s: KState, s': KState)
    requires s'.envs == s.envs
    ensures NewReceivers(s, s') == {}
  {
  }
}
