/** User-level copy-on-write fork (lib/fork.c): the permission duppage
    computes, the order of its mappings, the page-selection loop of fork and
    the set-up that follows it, and the copy-on-write gate of pgfault. The
    environment running these functions is the kernel's running environment;
    every system call is the corresponding method of Kern.Kernel. A panic
    ends the function with `panicked` set. */
module Fork {
  import opened Inc
  import opened KernelState
  import opened Syscall
  import opened Kern

  /** The address of _pgfault_upcall (lib/pfentry.S, not part of this
      model). */
  const PGFAULT_UPCALL: nat

  // ---------------------------------------------------------------------
  // duppage's permission

  /** The PTE is writable or copy-on-write, and not shared (lib/fork.c:87). */
  predicate CowCandidate(pte: bv32) {
    (pte & PTE_COW != 0 || pte & PTE_W != 0) && pte & PTE_SHARE == 0
  }

  /** The permission duppage passes to sys_page_map (lib/fork.c:89, 100). */
  function DupPerm(pte: bv32): bv32 {
    if CowCandidate(pte) then ((pte & !PTE_W) | PTE_COW) & PTE_SYSCALL
    else pte & PTE_SYSCALL
  }

  lemma MaskedInside(x: bv32)
    ensures (x & PTE_SYSCALL) & !PTE_SYSCALL == 0
  {
  }

  /** duppage never passes a bit outside PTE_SYSCALL. */
  lemma DupPermLegal(pte: bv32)
    ensures PermOk(DupPerm(pte))
  {
    if CowCandidate(pte) {
      MaskedInside((pte & !PTE_W) | PTE_COW);
    } else {
      MaskedInside(pte);
    }
  }

  lemma CowClearsWrite(pte: bv32)
    ensures (((pte & !PTE_W) | PTE_COW) & PTE_SYSCALL) & PTE_W == 0
  {
  }

  lemma CowSetsCow(pte: bv32)
    ensures (((pte & !PTE_W) | PTE_COW) & PTE_SYSCALL) & PTE_COW == PTE_COW
  {
  }

  lemma CowKeepsOthers(pte: bv32)
    ensures (((pte & !PTE_W) | PTE_COW) & PTE_SYSCALL) & !(PTE_W | PTE_COW)
         == pte & PTE_SYSCALL & !(PTE_W | PTE_COW)
  {
  }

  /** A writable or copy-on-write private page is passed on copy-on-write:
      PTE_W cleared, PTE_COW set, every other PTE_SYSCALL bit of the PTE
      kept (lib/fork.c:87-89). */
  lemma {:induction false} DupPermCow(pte: bv32)
    requires CowCandidate(pte)
    ensures DupPerm(pte) & PTE_W == 0
    ensures DupPerm(pte) & PTE_COW == PTE_COW
    ensures DupPerm(pte) & !(PTE_W | PTE_COW) == pte & PTE_SYSCALL & !(PTE_W | PTE_COW)
  {
    CowClearsWrite(pte);
    CowSetsCow(pte);
    CowKeepsOthers(pte);
  }

  lemma SharedWrite(pte: bv32)
    requires !CowCandidate(pte)
    ensures (pte & PTE_SYSCALL) & PTE_W != 0 ==> pte & PTE_SHARE != 0
  {
  }

  /** Otherwise the PTE's own PTE_SYSCALL bits are passed on, so write access
      survives only on a page marked PTE_SHARE (lib/fork.c:98-100). */
  lemma {:induction false} DupPermWriteOnlyShared(pte: bv32)
    ensures DupPerm(pte) & PTE_W != 0 ==> pte & PTE_SHARE != 0 && pte & PTE_W != 0
  {
    if CowCandidate(pte) {
      CowClearsWrite(pte);
    } else {
      SharedWrite(pte);
    }
  }

  // ---------------------------------------------------------------------
  // duppage

  /** The entry both sides get for a duplicated mapping: the same physical
      page with DupPerm, made present by page_insert. */
  function DupMapping(m: Mapping): (d: Mapping)
    ensures d.page == m.page
  {
    DupPermLegal(m.perm);
    PresentPerm(DupPerm(m.perm));
    PresentPermOk(DupPerm(m.perm));
    Mapping(m.page, DupPerm(m.perm) | PTE_P)
  }

  /** A parent entry after the loop: remapped copy-on-write when duppage
      reached it and it is a candidate, untouched otherwise. */
  function Remark(m: Mapping, done: bool): Mapping {
    if done && CowCandidate(m.perm) then DupMapping(m) else m
  }

  /** What one of duppage's sys_page_map calls does: the caller passes on
      its own mapping at va to dst, at the same address. */
  lemma {:induction false} MapOwnPage(s: KState, dst: EnvId, va: nat, perm: bv32, fails: bool)
    requires Wf(s) && dst in s.envs && (dst == s.cur || s.envs[dst].parentId == s.cur)
    requires va in s.pgdirs[s.cur] && PermOk(perm)
    requires perm & PTE_W != 0 ==> s.pgdirs[s.cur][va].perm & PTE_W != 0
    ensures PageMap(s, s.cur, va, dst, va, perm, fails)
         == if fails then Step(-E_NO_MEM, s) else Step(0, Insert(s, dst, va, s.pgdirs[s.cur][va].page, perm))
  {
    assert EnvLookup(s, s.cur, true) == Some(s.cur);
    assert EnvLookup(s, dst, true) == Some(dst);
  }

  /** duppage(envid, pn) (lib/fork.c:79-108). The child is mapped first; in
      the copy-on-write case the parent's own entry is then remapped with the
      same permission. childFails and selfFails say whether page_insert
      fails in each sys_page_map. */
  method DupPage(k: Kernel, envid: EnvId, pn: nat, childFails: bool, selfFails: bool) returns (panicked: bool)
    requires k.Valid() && envid in k.envs && envid != k.curenv && k.envs[envid].parentId == k.curenv
    requires pn * PGSIZE in k.pgdirs[k.curenv]
    modifies k
    ensures k.Valid() && k.curenv == old(k.curenv) && k.envs == old(k.envs) && k.free == old(k.free)
    ensures var va: nat := pn * PGSIZE; var m := old(k.pgdirs[k.curenv][va]);
      var child: PageTable := old(k.pgdirs[envid])[va := DupMapping(m)];
      var parent: PageTable := old(k.pgdirs[k.curenv])[va := Remark(m, true)];
      && panicked == (childFails || (CowCandidate(m.perm) && selfFails))
      && (childFails ==> k.pgdirs == old(k.pgdirs))
      && (!childFails && panicked ==> k.pgdirs == old(k.pgdirs)[envid := child])
      && (!panicked ==>
          && k.pgdirs == old(k.pgdirs)[envid := child][k.curenv := parent])
  {
    ghost var s0 := k.State();
    var pte := Uvpt(k.State(), pn);
    var addr := pn * PGSIZE;
    var srcid := k.curenv;
    var perm := DupPerm(pte);
    ghost var m := s0.pgdirs[s0.cur][addr];
    assert pte == m.perm;
    DupPermLegal(pte);
    DupPermWriteOnlyShared(pte);
    MapOwnPage(s0, envid, addr, perm, childFails);
    var r := k.SysPageMap(srcid, addr, envid, addr, perm, childFails);
    if r != 0 {
      return true;
    }
    ghost var s1 := k.State();
    ghost var child: PageTable := s0.pgdirs[envid][addr := DupMapping(m)];
    assert s1.pgdirs == s0.pgdirs[envid := child];
    if CowCandidate(pte) {
      assert s1.pgdirs[srcid] == s0.pgdirs[srcid];
      MapOwnPage(s1, srcid, addr, perm, selfFails);
      r := k.SysPageMap(srcid, addr, srcid, addr, perm, selfFails);
      if r != 0 {
        return true;
      }
    } else {
      assert s0.pgdirs[srcid][addr := Remark(m, true)] == s0.pgdirs[srcid];
    }
    return false;
  }

  // ---------------------------------------------------------------------
  // fork's page-selection loop

  /** The present bit of a directory or table entry. */
  predicate Present(w: bv32) { w & PTE_P != 0 }

  /** Every page the running environment maps lies under a present
      directory entry of uvpd (a page table exists wherever a page is
      mapped). */
  predicate DirCovers(s: KState, uvpd: seq<bv32>)
    requires s.cur in s.pgdirs && TableOk(s.pgdirs[s.cur])
  {
    |uvpd| == NPDENTRIES && forall va :: va in s.pgdirs[s.cur] ==> Present(uvpd[PGNUM(va) / NPDENTRIES])
  }

  /** fork's loop calls duppage for page number pn (lib/fork.c:146-159):
      pn is one the loop visits, its directory entry is present, it is not
      the exception stack, it lies below UTOP - PGSIZE and its page-table
      entry is present. */
  predicate Selected(s: KState, uvpd: seq<bv32>, pn: nat)
    requires s.cur in s.pgdirs && |uvpd| == NPDENTRIES
  {
    && pn < NPDENTRIES * NPTENTRIES
    && Present(uvpd[pn / NPDENTRIES])
    && pn != PGNUM(UXSTACKTOP - PGSIZE)
    && pn < PGNUM(UTOP - PGSIZE)
    && Present(Uvpt(s, pn))
  }

  /** The loop has duplicated the mapping at va once it has passed the page
      numbers below n. */
  predicate Done(s: KState, uvpd: seq<bv32>, n: nat, va: nat)
    requires s.cur in s.pgdirs && |uvpd| == NPDENTRIES
  {
    PGNUM(va) < n && Selected(s, uvpd, PGNUM(va))
  }

  /** What the loop relies on in s1, the state just after sys_exofork
      created `child`. */
  predicate Base(s1: KState, child: EnvId, uvpd: seq<bv32>) {
    && Wf(s1) && child in s1.envs && child != s1.cur && s1.envs[child].parentId == s1.cur
    && s1.pgdirs[child] == map[] && |uvpd| == NPDENTRIES
  }

  /** The child's table once the loop has passed the page numbers below n:
      exactly the passed, selected pages of the parent, with DupMapping. */
  function ChildTable(s1: KState, uvpd: seq<bv32>, n: nat): PageTable
    requires s1.cur in s1.pgdirs && |uvpd| == NPDENTRIES
  {
    map va | va in s1.pgdirs[s1.cur] && Done(s1, uvpd, n, va) :: DupMapping(s1.pgdirs[s1.cur][va])
  }

  /** The parent's table at the same point: its passed copy-on-write
      candidates remapped, every other entry as it was. */
  function ParentTable(s1: KState, uvpd: seq<bv32>, n: nat): PageTable
    requires s1.cur in s1.pgdirs && |uvpd| == NPDENTRIES
  {
    map va | va in s1.pgdirs[s1.cur] :: Remark(s1.pgdirs[s1.cur][va], Done(s1, uvpd, n, va))
  }

  /** The page tables once fork's loop has passed the page numbers below n,
      starting from s1, in closed form: only the child's and the parent's
      change. */
  function Copied(s1: KState, child: EnvId, uvpd: seq<bv32>, n: nat): map<EnvId, PageTable>
    requires Base(s1, child, uvpd)
  {
    s1.pgdirs[child := ChildTable(s1, uvpd, n)][s1.cur := ParentTable(s1, uvpd, n)]
  }

  lemma UvptPresent(s: KState, pn: nat)
    requires s.cur in s.pgdirs
    ensures Present(Uvpt(s, pn)) <==> pn * PGSIZE in s.pgdirs[s.cur]
  {
  }

  lemma {:induction false} CopiedStart(s1: KState, child: EnvId, uvpd: seq<bv32>)
    requires Base(s1, child, uvpd)
    ensures Copied(s1, child, uvpd, 0) == s1.pgdirs
  {
    assert ChildTable(s1, uvpd, 0) == map[];
    assert ParentTable(s1, uvpd, 0) == s1.pgdirs[s1.cur];
    assert s1.pgdirs[child := map[]][s1.cur := s1.pgdirs[s1.cur]] == s1.pgdirs;
  }

  /** Stages that agree on which pages are done are the same state. */
  lemma {:induction false} CopiedSame(s1: KState, child: EnvId, uvpd: seq<bv32>, n: nat, n': nat)
    requires Base(s1, child, uvpd)
    requires forall va :: va in s1.pgdirs[s1.cur] ==> Done(s1, uvpd, n', va) == Done(s1, uvpd, n, va)
    ensures Copied(s1, child, uvpd, n') == Copied(s1, child, uvpd, n)
  {
    assert ChildTable(s1, uvpd, n') == ChildTable(s1, uvpd, n);
    assert ParentTable(s1, uvpd, n') == ParentTable(s1, uvpd, n);
  }

  /** While the loop is at n, the entry it reads for n is the parent's
      original one. */
  lemma {:induction false} CopiedUvpt(s: KState, s1: KState, child: EnvId, uvpd: seq<bv32>, n: nat)
    requires Base(s1, child, uvpd) && s.cur == s1.cur && s.pgdirs == Copied(s1, child, uvpd, n)
    ensures Uvpt(s, n) == Uvpt(s1, n)
  {
    var va := n * PGSIZE;
    if va in s1.pgdirs[s1.cur] {
      assert PGNUM(va) == n;
      assert !Done(s1, uvpd, n, va);
    }
  }

  lemma {:induction false} DoneNext(s1: KState, uvpd: seq<bv32>, n: nat, va: nat)
    requires s1.cur in s1.pgdirs && |uvpd| == NPDENTRIES
    requires va % PGSIZE == 0
    ensures Done(s1, uvpd, n + 1, va) == (Done(s1, uvpd, n, va) || (va == n * PGSIZE && Selected(s1, uvpd, n)))
  {
    if PGNUM(va) == n {
      assert va == n * PGSIZE;
    }
  }

  /** A page number the loop skips changes nothing. */
  lemma {:induction false} CopiedSkip(s1: KState, child: EnvId, uvpd: seq<bv32>, n: nat, n': nat)
    requires Base(s1, child, uvpd) && n' == n + 1 && !Selected(s1, uvpd, n)
    ensures Copied(s1, child, uvpd, n') == Copied(s1, child, uvpd, n)
  {
    forall va | va in s1.pgdirs[s1.cur] ensures Done(s1, uvpd, n + 1, va) == Done(s1, uvpd, n, va) {
      DoneNext(s1, uvpd, n, va);
    }
    CopiedSame(s1, child, uvpd, n, n');
  }

  /** A directory entry that is not present: the loop skips its page
      numbers, and nothing changes. */
  lemma {:induction false} CopiedSkipDirectory(s1: KState, child: EnvId, uvpd: seq<bv32>, i: nat, n: nat, n': nat)
    requires Base(s1, child, uvpd) && i < NPDENTRIES && !Present(uvpd[i])
    requires n == i * NPDENTRIES && n' == n + NPTENTRIES
    ensures Copied(s1, child, uvpd, n') == Copied(s1, child, uvpd, n)
  {
    forall va | va in s1.pgdirs[s1.cur]
      ensures Done(s1, uvpd, n', va) == Done(s1, uvpd, n, va)
    {
      if n <= PGNUM(va) < n' {
        assert PGNUM(va) / NPDENTRIES == i;
      }
    }
    CopiedSame(s1, child, uvpd, n, n');
  }

  lemma {:induction false} DoneStep(s1: KState, uvpd: seq<bv32>, n: nat, n': nat)
    requires Wf(s1) && |uvpd| == NPDENTRIES && n' == n + 1 && Selected(s1, uvpd, n)
    ensures n * PGSIZE in s1.pgdirs[s1.cur] && !Done(s1, uvpd, n, n * PGSIZE)
    ensures forall v :: v in s1.pgdirs[s1.cur] ==> Done(s1, uvpd, n', v) == (Done(s1, uvpd, n, v) || v == n * PGSIZE)
  {
    UvptPresent(s1, n);
    assert PGNUM(n * PGSIZE) == n;
    forall v | v in s1.pgdirs[s1.cur] ensures Done(s1, uvpd, n', v) == (Done(s1, uvpd, n, v) || v == n * PGSIZE) {
      DoneNext(s1, uvpd, n, v);
    }
  }

  lemma {:induction false} ChildTableStep(s1: KState, uvpd: seq<bv32>, n: nat, n': nat)
    requires Wf(s1) && |uvpd| == NPDENTRIES && n' == n + 1 && Selected(s1, uvpd, n)
    ensures n * PGSIZE in s1.pgdirs[s1.cur]
    ensures var va: nat := n * PGSIZE;
      ChildTable(s1, uvpd, n') == ChildTable(s1, uvpd, n)[va := DupMapping(s1.pgdirs[s1.cur][va])]
  {
    DoneStep(s1, uvpd, n, n');
    var va: nat := n * PGSIZE;
    assert ChildTable(s1, uvpd, n') == ChildTable(s1, uvpd, n)[va := DupMapping(s1.pgdirs[s1.cur][va])];
  }

  lemma {:induction false} ParentTableStep(s1: KState, uvpd: seq<bv32>, n: nat, n': nat)
    requires Wf(s1) && |uvpd| == NPDENTRIES && n' == n + 1 && Selected(s1, uvpd, n)
    ensures n * PGSIZE in s1.pgdirs[s1.cur]
    ensures var va: nat := n * PGSIZE;
      && ParentTable(s1, uvpd, n)[va] == s1.pgdirs[s1.cur][va]
      && ParentTable(s1, uvpd, n') == ParentTable(s1, uvpd, n)[va := Remark(s1.pgdirs[s1.cur][va], true)]
  {
    DoneStep(s1, uvpd, n, n');
    var va: nat := n * PGSIZE;
    assert ParentTable(s1, uvpd, n') == ParentTable(s1, uvpd, n)[va := Remark(s1.pgdirs[s1.cur][va], true)];
  }

  /** duppage on the selected page n advances the loop by one: the child
      gains the page, the parent's entry is remarked. */
  lemma {:induction false} CopiedDup(s1: KState, child: EnvId, uvpd: seq<bv32>, n: nat, n': nat)
    requires Base(s1, child, uvpd) && n' == n + 1 && Selected(s1, uvpd, n)
    ensures n * PGSIZE in s1.pgdirs[s1.cur]
    ensures
      var va: nat := n * PGSIZE; var m := s1.pgdirs[s1.cur][va];
      var st := Copied(s1, child, uvpd, n);
      var c: PageTable := st[child][va := DupMapping(m)];
      var p: PageTable := st[s1.cur][va := Remark(m, true)];
      && st[s1.cur][va] == m
      && Copied(s1, child, uvpd, n') == st[child := c][s1.cur := p]
  {
    ChildTableStep(s1, uvpd, n, n');
    ParentTableStep(s1, uvpd, n, n');
  }

  /** What the loop does for page number n to the page tables st: duppage
      when n is selected (the child gains the entry with DupMapping, the
      parent's entry is remarked), nothing otherwise. */
  function StageStep(s1: KState, child: EnvId, uvpd: seq<bv32>, st: map<EnvId, PageTable>, n: nat)
    : map<EnvId, PageTable>
    requires Base(s1, child, uvpd)
  {
    var va: nat := n * PGSIZE;
    if Selected(s1, uvpd, n) && child in st && s1.cur in st && va in st[s1.cur] then
      var m := st[s1.cur][va];
      var c: PageTable := st[child][va := DupMapping(m)];
      var p: PageTable := st[s1.cur][va := Remark(m, true)];
      st[child := c][s1.cur := p]
    else st
  }

  /** The page tables once fork's loop has passed the page numbers below n,
      starting from s1, step by step. */
  function Stage(s1: KState, child: EnvId, uvpd: seq<bv32>, n: nat): map<EnvId, PageTable>
    requires Base(s1, child, uvpd)
  {
    if n == 0 then s1.pgdirs else StageStep(s1, child, uvpd, Stage(s1, child, uvpd, n - 1), n - 1)
  }

  lemma {:induction false} StageNext(s1: KState, child: EnvId, uvpd: seq<bv32>, n: nat, n': nat)
    requires Base(s1, child, uvpd) && n' == n + 1
    ensures Stage(s1, child, uvpd, n') == StageStep(s1, child, uvpd, Stage(s1, child, uvpd, n), n)
  {
  }

  /** A page number the loop does not select changes nothing. */
  lemma {:induction false} StageSkipStep(s1: KState, child: EnvId, uvpd: seq<bv32>, n: nat, n': nat)
    requires Base(s1, child, uvpd) && n' == n + 1 && !Selected(s1, uvpd, n)
    ensures Stage(s1, child, uvpd, n') == Stage(s1, child, uvpd, n)
  {
    StageNext(s1, child, uvpd, n, n');
  }

  /** A selected page number present in the parent's current table is
      duppage's effect on it. */
  lemma {:induction false} StageDupStep(s1: KState, child: EnvId, uvpd: seq<bv32>, n: nat, n': nat)
    requires Base(s1, child, uvpd) && n' == n + 1 && Selected(s1, uvpd, n)
    requires var st := Stage(s1, child, uvpd, n); child in st && s1.cur in st && n * PGSIZE in st[s1.cur]
    ensures
      var va: nat := n * PGSIZE; var st := Stage(s1, child, uvpd, n); var m := st[s1.cur][va];
      var c: PageTable := st[child][va := DupMapping(m)];
      var p: PageTable := st[s1.cur][va := Remark(m, true)];
      Stage(s1, child, uvpd, n') == st[child := c][s1.cur := p]
  {
    StageNext(s1, child, uvpd, n, n');
  }

  /** The step-by-step tables are the closed-form ones. */
  lemma {:induction false} StageCopied(s1: KState, child: EnvId, uvpd: seq<bv32>, n: nat)
    requires Base(s1, child, uvpd)
    ensures Stage(s1, child, uvpd, n) == Copied(s1, child, uvpd, n)
    decreases n
  {
    if n == 0 {
      CopiedStart(s1, child, uvpd);
    } else {
      StageCopied(s1, child, uvpd, n - 1);
      if Selected(s1, uvpd, n - 1) {
        CopiedDup(s1, child, uvpd, n - 1, n);
        assert (n - 1) * PGSIZE in Copied(s1, child, uvpd, n - 1)[s1.cur];
      } else {
        CopiedSkip(s1, child, uvpd, n - 1, n);
      }
    }
  }

  /** While the loop is at n, the entry it reads for n is the parent's
      original one. */
  lemma {:induction false} StageUvpt(s: KState, s1: KState, child: EnvId, uvpd: seq<bv32>, n: nat)
    requires Base(s1, child, uvpd) && s.cur == s1.cur && s.cur in s.pgdirs
    requires s.pgdirs == Stage(s1, child, uvpd, n)
    ensures Uvpt(s, n) == Uvpt(s1, n)
  {
    StageCopied(s1, child, uvpd, n);
    CopiedUvpt(s, s1, child, uvpd, n);
  }

  /** A directory entry that is not present: the loop skips its page
      numbers, and nothing changes. */
  lemma {:induction false} StageSkipDirectory(s1: KState, child: EnvId, uvpd: seq<bv32>, i: nat, n: nat, n': nat)
    requires Base(s1, child, uvpd) && i < NPDENTRIES && !Present(uvpd[i])
    requires n == i * NPDENTRIES && n' == n + NPTENTRIES
    ensures Stage(s1, child, uvpd, n') == Stage(s1, child, uvpd, n)
  {
    StageCopied(s1, child, uvpd, n);
    StageCopied(s1, child, uvpd, n');
    CopiedSkipDirectory(s1, child, uvpd, i, n, n');
  }

  /** With every mapped page under a present directory entry, the loop
      selects exactly the pages the parent maps below UTOP - PGSIZE: all of
      them but the exception stack (UXSTACKTOP - PGSIZE is UTOP - PGSIZE). */
  lemma {:induction false} DoneAll(s1: KState, uvpd: seq<bv32>, va: nat)
    requires Wf(s1) && DirCovers(s1, uvpd) && va in s1.pgdirs[s1.cur]
    ensures Done(s1, uvpd, NPDENTRIES * NPTENTRIES, va) <==> va < UTOP - PGSIZE
  {
    var pn := PGNUM(va);
    assert pn * PGSIZE == va;
    UvptPresent(s1, pn);
    assert pn < PGNUM(UTOP - PGSIZE) <==> va < UTOP - PGSIZE;
  }

  /** No page number below n that the loop selects is one whose child
      mapping fails. */
  ghost predicate NoneFailed(s1: KState, uvpd: seq<bv32>, mapFails: set<nat>, n: nat)
    requires s1.cur in s1.pgdirs && |uvpd| == NPDENTRIES
  {
    forall pn :: pn < n && pn in mapFails ==> !Selected(s1, uvpd, pn)
  }

  lemma {:induction false} NoneFailedStep(s1: KState, uvpd: seq<bv32>, mapFails: set<nat>, n: nat, n': nat)
    requires s1.cur in s1.pgdirs && |uvpd| == NPDENTRIES && n' == n + 1
    requires NoneFailed(s1, uvpd, mapFails, n) && (n in mapFails ==> !Selected(s1, uvpd, n))
    ensures NoneFailed(s1, uvpd, mapFails, n')
  {
  }

  lemma {:induction false} NoneFailedSkipDirectory(s1: KState, uvpd: seq<bv32>, mapFails: set<nat>, i: nat, n: nat, n': nat)
    requires s1.cur in s1.pgdirs && |uvpd| == NPDENTRIES && i < NPDENTRIES && !Present(uvpd[i])
    requires n == i * NPDENTRIES && n' == n + NPTENTRIES
    requires NoneFailed(s1, uvpd, mapFails, n)
    ensures NoneFailed(s1, uvpd, mapFails, n')
  {
    forall pn | pn < n' && pn in mapFails ensures !Selected(s1, uvpd, pn) {
      if pn >= n {
        assert pn / NPDENTRIES == i;
      }
    }
  }

  /** Some page fork must duplicate is one whose child mapping fails. */
  predicate SomeMapFails(p0: PageTable, mapFails: set<nat>) {
    exists va :: va in p0 && va < UTOP - PGSIZE && PGNUM(va) in mapFails
  }

  /** The state a successful fork leaves, from s0, the parent's state when it
      called fork (lib/fork.c:126-174): a new runnable child of the parent
      with the parent's registers except eax = 0, so that the child sees
      fork return 0, and the copy-on-write upcall; the child maps every page
      the parent maps below UTOP - PGSIZE, at the same address, to the same
      physical page with DupPerm, plus a fresh exception-stack page; the
      parent's own copy-on-write candidates below UTOP - PGSIZE are remapped
      with the same permission; nothing else changes. */
  ghost predicate Forked(s0: KState, s: KState, child: EnvId)
    requires Wf(s0)
  {
    Wf(s) && s.cur == s0.cur && ForkedEnvs(s0, s, child) && ForkedPages(s0, s, child)
  }

  /** The environments after fork: only the child is new. */
  ghost predicate ForkedEnvs(s0: KState, s: KState, child: EnvId)
    requires Wf(s0)
  {
    && child !in s0.envs && s.envs.Keys == s0.envs.Keys + {child}
    && s.envs[child] == ForkedChild(s0, child).(status := ENV_RUNNABLE, pgfaultUpcall := PGFAULT_UPCALL)
    && (forall e :: e in s0.envs ==> s.envs[e] == s0.envs[e])
  }

  /** The page tables and the free list after fork. */
  ghost predicate ForkedPages(s0: KState, s: KState, child: EnvId)
    requires Wf(s0) && Wf(s) && s0.envs.Keys + {child} <= s.envs.Keys
  {
    var p0 := s0.pgdirs[s0.cur];
    && (forall e :: e in s0.pgdirs && e != s0.cur ==> s.pgdirs[e] == s0.pgdirs[e])
    && s0.free != [] && s.free == s0.free[1..]
    && (forall va :: va in s.pgdirs[child] <==> va == UXSTACKTOP - PGSIZE || (va in p0 && va < UTOP - PGSIZE))
    && (forall va :: va in p0 && va < UTOP - PGSIZE ==> s.pgdirs[child][va] == DupMapping(p0[va]))
    && s.pgdirs[child][UXSTACKTOP - PGSIZE] == Mapping(s0.free[0], PTE_U | PTE_W | PTE_P)
    && s.pgdirs[s0.cur].Keys == p0.Keys
    && (forall va :: va in p0 ==> s.pgdirs[s0.cur][va] == Remark(p0[va], va < UTOP - PGSIZE))
  }

  /** page_insert's PTE_P does not touch PTE_W or PTE_COW. */
  lemma PresentKeepsWrite(x: bv32)
    ensures (x | PTE_P) & PTE_W == x & PTE_W
  {
  }

  lemma PresentKeepsCow(x: bv32)
    ensures (x | PTE_P) & PTE_COW == x & PTE_COW
  {
  }

  /** After fork, parent and child map each duplicated page to the same
      physical page; either side may write it only when the parent's
      original entry was shared, and a private writable or copy-on-write
      page is copy-on-write on both sides. */
  lemma {:induction false} ForkedSharing(s0: KState, s: KState, child: EnvId, va: nat)
    requires Wf(s0) && Forked(s0, s, child) && va in s.pgdirs[child] && va != UXSTACKTOP - PGSIZE
    ensures var p0 := s0.pgdirs[s0.cur];
      && va in p0 && va in s.pgdirs[s0.cur]
      && s.pgdirs[child][va].page == p0[va].page && s.pgdirs[s0.cur][va].page == p0[va].page
      && (s.pgdirs[child][va].perm & PTE_W != 0 || s.pgdirs[s0.cur][va].perm & PTE_W != 0 ==>
            p0[va].perm & PTE_SHARE != 0)
      && (CowCandidate(p0[va].perm) ==>
            s.pgdirs[child][va].perm & PTE_COW != 0 && s.pgdirs[s0.cur][va].perm & PTE_COW != 0)
  {
    var m := s0.pgdirs[s0.cur][va];
    var d := DupMapping(m);
    assert s.pgdirs[child][va] == d;
    assert s.pgdirs[s0.cur][va] == Remark(m, true);
    PresentKeepsWrite(DupPerm(m.perm));
    DupPermWriteOnlyShared(m.perm);
    if CowCandidate(m.perm) {
      PresentKeepsCow(DupPerm(m.perm));
      DupPermCow(m.perm);
    } else {
      SharedWrite(m.perm);
      assert m.perm & !PTE_SYSCALL == 0;
    }
  }

  /** fork() (lib/fork.c:126-174), as run by the parent. set_pgfault_handler
      (lib/pgfault.c) is not part of this model. allocRc and childId are
      env_alloc's outcome for sys_exofork; mapFails holds the page numbers
      whose child mapping fails for want of a page table (the parent's own
      remapping never needs one); noMem and insertFails are the outcome of
      the exception-stack sys_page_alloc. */
  method Fork(k: Kernel, allocRc: int, childId: EnvId, uvpd: seq<bv32>, mapFails: set<nat>,
              noMem: bool, insertFails: bool) returns (r: EnvId, panicked: bool)
    requires k.Valid() && AllocOk(k.State(), allocRc, childId) && DirCovers(k.State(), uvpd)
    modifies k
    ensures k.Valid() && k.curenv == old(k.curenv)
    ensures allocRc != 0 ==> panicked && k.State() == old(k.State())
    ensures panicked <==>
      allocRc != 0 || SomeMapFails(old(k.pgdirs[k.curenv]), mapFails) || noMem || old(k.free) == [] || insertFails
    ensures !panicked ==> r == childId && Forked(old(k.State()), k.State(), childId)
  {
    ghost var s0 := k.State();
    var envid := k.SysExofork(allocRc, childId);
    if envid < 0 {
      return envid, true;
    }
    ghost var s1 := k.State();
    assert envid == childId && Base(s1, envid, uvpd);
    assert s1.pgdirs[s1.cur] == s0.pgdirs[s0.cur] && s1.free == s0.free;
    panicked := DupAll(k, s1, envid, uvpd, mapFails);
    if panicked {
      return envid, true;
    }
    ForkCopied(s0, s1, k.State(), envid, uvpd, mapFails);
    panicked := SetUpChild(k, s0, envid, noMem, insertFails);
    return envid, panicked;
  }

  /** What the page-selection loop leaves from s0, the parent's state when
      it called fork: the child, as sys_exofork made it, maps every page the
      parent maps below UTOP - PGSIZE with DupMapping, the parent its own
      pages re-marked, and nothing else has changed. */
  ghost predicate DupDone(s0: KState, s2: KState, child: EnvId)
    requires Wf(s0) && AllocOk(s0, 0, child)
  {
    var p0 := s0.pgdirs[s0.cur];
    && s2.cur == s0.cur && s2.free == s0.free && s2.envs == Exofork(s0, 0, child).post.envs
    && s2.pgdirs.Keys == s0.pgdirs.Keys + {child}
    && (forall e :: e in s0.pgdirs && e != s0.cur ==> s2.pgdirs[e] == s0.pgdirs[e])
    && (forall va :: va in s2.pgdirs[child] <==> va in p0 && va < UTOP - PGSIZE)
    && (forall va :: va in p0 && va < UTOP - PGSIZE ==> s2.pgdirs[child][va] == DupMapping(p0[va]))
    && s2.pgdirs[s0.cur].Keys == p0.Keys
    && (forall va :: va in p0 ==> s2.pgdirs[s0.cur][va] == Remark(p0[va], va < UTOP - PGSIZE))
  }

  /** fork's set-up of the child after the loop (lib/fork.c:162-174): the
      copy-on-write upcall, a fresh exception stack, and ENV_RUNNABLE. It
      panics exactly when the exception-stack page cannot be had; otherwise
      fork is complete. */
  method SetUpChild(k: Kernel, ghost s0: KState, child: EnvId, noMem: bool, insertFails: bool)
    returns (panicked: bool)
    requires k.Valid() && Wf(s0) && AllocOk(s0, 0, child) && DupDone(s0, k.State(), child)
    modifies k
    ensures k.Valid() && k.curenv == old(k.curenv)
    ensures panicked <==> noMem || old(k.free) == [] || insertFails
    ensures !panicked ==> Forked(s0, k.State(), child)
  {
    ghost var s2 := k.State();
    // The child is the caller's, so neither this call nor the status
    // change below can fail.
    assert EnvLookup(s2, child, true) == Some(child);
    var rc := k.SysEnvSetPgfaultUpcall(child, PGFAULT_UPCALL);
    assert rc == 0;
    ghost var s3 := k.State();
    assert s3.free == s2.free && EnvLookup(s3, child, true) == Some(child);
    ExStackOk();
    rc := k.SysPageAlloc(child, UXSTACKTOP - PGSIZE, PTE_U | PTE_W, noMem, insertFails);
    if rc < 0 {
      return true;
    }
    ghost var s4 := k.State();
    assert EnvLookup(s4, child, true) == Some(child);
    rc := k.SysEnvSetStatus(child, ENV_RUNNABLE);
    assert rc == 0;
    ForkSetUp(s0, s2, s3, s4, k.State(), child);
    return false;
  }

  /** The exception-stack page passes sys_page_alloc's checks. */
  lemma ExStackOk()
    ensures PermOk(PTE_U | PTE_W) && UserVa(UXSTACKTOP - PGSIZE)
  {
  }

  /** After the loop: the child holds the duplicated pages, the parent its
      remapped ones. */
  lemma {:induction false} ForkCopied(s0: KState, s1: KState, s2: KState, child: EnvId, uvpd: seq<bv32>, mapFails: set<nat>)
    requires Wf(s0) && DirCovers(s0, uvpd) && AllocOk(s0, 0, child)
    requires s1 == Exofork(s0, 0, child).post
    requires Base(s1, child, uvpd) && s2.pgdirs == Stage(s1, child, uvpd, NPDENTRIES * NPDENTRIES)
    requires s2.envs == s1.envs && s2.free == s1.free && s2.cur == s1.cur
    requires NoneFailed(s1, uvpd, mapFails, NPDENTRIES * NPDENTRIES)
    ensures DupDone(s0, s2, child)
    ensures !SomeMapFails(s0.pgdirs[s0.cur], mapFails)
  {
    var p0 := s0.pgdirs[s0.cur];
    assert s1.pgdirs[s1.cur] == p0;
    StageCopied(s1, child, uvpd, NPDENTRIES * NPDENTRIES);
    forall va | va in p0 ensures Done(s1, uvpd, NPDENTRIES * NPDENTRIES, va) <==> va < UTOP - PGSIZE {
      DoneAll(s1, uvpd, va);
    }
    forall va | va in p0 && va < UTOP - PGSIZE ensures PGNUM(va) !in mapFails {
      assert Done(s1, uvpd, NPDENTRIES * NPDENTRIES, va);
    }
  }

  /** The set-up after the loop completes Forked. */
  lemma {:induction false} ForkSetUp(s0: KState, s2: KState, s3: KState, s4: KState, s5: KState, child: EnvId)
    requires Wf(s0) && AllocOk(s0, 0, child) && Wf(s2) && DupDone(s0, s2, child)
    requires Step(0, s3) == EnvSetPgfaultUpcall(s2, child, PGFAULT_UPCALL)
    requires Step(0, s4) == PageAlloc(s3, child, UXSTACKTOP - PGSIZE, PTE_U | PTE_W, false, false)
    requires Step(0, s5) == EnvSetStatus(s4, child, ENV_RUNNABLE)
    ensures Forked(s0, s5, child)
  {
    ExStackOk();
    assert EnvLookup(s2, child, true) == Some(child);
    assert s3 == s2.(envs := s2.envs[child := s2.envs[child].(pgfaultUpcall := PGFAULT_UPCALL)]);
    assert s4.envs == s3.envs;
    assert s5 == s4.(envs := s4.envs[child := s4.envs[child].(status := ENV_RUNNABLE)]);
    SetUpEnvs(s0, s2, s5, child);
    SetUpPages(s0, s2, s3, s4, s5, child);
  }

  /** The set-up adds the upcall and ENV_RUNNABLE to the child only. */
  lemma SetUpEnvs(s0: KState, s2: KState, s5: KState, child: EnvId)
    requires Wf(s0) && AllocOk(s0, 0, child) && Wf(s2) && DupDone(s0, s2, child)
    requires child in s2.envs
    requires s5.envs == s2.envs[child := s2.envs[child].(pgfaultUpcall := PGFAULT_UPCALL, status := ENV_RUNNABLE)]
    ensures ForkedEnvs(s0, s5, child)
  {
  }

  /** The set-up adds the exception stack to the child's pages only. */
  lemma SetUpPages(s0: KState, s2: KState, s3: KState, s4: KState, s5: KState, child: EnvId)
    requires Wf(s0) && AllocOk(s0, 0, child) && Wf(s2) && DupDone(s0, s2, child)
    requires Wf(s5) && child in s5.envs && child in s2.pgdirs
    requires s3.pgdirs == s2.pgdirs && s3.free == s2.free && s5.pgdirs == s4.pgdirs && s5.free == s4.free
    requires s3.free != [] && s4.free == s3.free[1..]
    requires var stack: PageTable := s3.pgdirs[child][UXSTACKTOP - PGSIZE := Mapping(s3.free[0], PTE_U | PTE_W | PTE_P)];
      s4.pgdirs == s3.pgdirs[child := stack]
    ensures ForkedPages(s0, s5, child)
  {
  }

  /** fork's page-selection loop (lib/fork.c:146-160), over the directory
      entries. */
  method DupAll(k: Kernel, ghost s1: KState, envid: EnvId, uvpd: seq<bv32>, mapFails: set<nat>)
    returns (panicked: bool)
    requires k.Valid() && Base(s1, envid, uvpd) && k.State() == s1
    modifies k
    ensures k.Valid() && k.curenv == s1.cur
    ensures panicked ==> SomeMapFails(s1.pgdirs[s1.cur], mapFails)
    ensures !panicked ==>
      && k.envs == s1.envs && k.free == s1.free
      && k.pgdirs == Stage(s1, envid, uvpd, NPDENTRIES * NPDENTRIES)
      && NoneFailed(s1, uvpd, mapFails, NPDENTRIES * NPDENTRIES)
  {
    ghost var n: nat := 0;
    for i := 0 to NPDENTRIES
      invariant n == i * NPDENTRIES
      invariant k.Valid() && k.envs == s1.envs && k.free == s1.free && k.curenv == s1.cur
      invariant k.pgdirs == Stage(s1, envid, uvpd, n)
      invariant NoneFailed(s1, uvpd, mapFails, n)
    {
      if !Present(uvpd[i]) {
        StageSkipDirectory(s1, envid, uvpd, i, n, n + NPTENTRIES);
        NoneFailedSkipDirectory(s1, uvpd, mapFails, i, n, n + NPTENTRIES);
        n := n + NPTENTRIES;
        continue;
      }
      panicked := DupDirectory(k, s1, envid, uvpd, mapFails, i, n);
      if panicked {
        return true;
      }
      n := n + NPTENTRIES;
    }
    return false;
  }

  /** One page number of fork's loop (lib/fork.c:150-158): duppage when
      the page-table entry is present, the page is not the exception stack
      and it lies below UTOP - PGSIZE. */
  method DupEntry(k: Kernel, ghost s1: KState, envid: EnvId, uvpd: seq<bv32>, mapFails: set<nat>,
                  pn: nat, ghost n: nat)
    returns (panicked: bool)
    requires Base(s1, envid, uvpd) && pn == n && pn < NPDENTRIES * NPTENTRIES && Present(uvpd[pn / NPDENTRIES])
    requires k.Valid() && k.envs == s1.envs && k.free == s1.free && k.curenv == s1.cur
    requires k.pgdirs == Stage(s1, envid, uvpd, n)
    requires NoneFailed(s1, uvpd, mapFails, n)
    modifies k
    ensures k.Valid() && k.curenv == s1.cur
    ensures panicked ==> SomeMapFails(s1.pgdirs[s1.cur], mapFails)
    ensures !panicked ==>
      && k.envs == s1.envs && k.free == s1.free
      && k.pgdirs == Stage(s1, envid, uvpd, n + 1)
      && NoneFailed(s1, uvpd, mapFails, n + 1)
  {
    StageUvpt(k.State(), s1, envid, uvpd, n);
    if pn == PGNUM(UXSTACKTOP - PGSIZE) || pn >= PGNUM(UTOP - PGSIZE) || !Present(Uvpt(k.State(), pn)) {
      assert !Selected(s1, uvpd, pn);
      StageSkipStep(s1, envid, uvpd, pn, n + 1);
      NoneFailedStep(s1, uvpd, mapFails, n, n + 1);
      return false;
    }
    assert Selected(s1, uvpd, pn);
    StageDupStep(s1, envid, uvpd, pn, n + 1);
    panicked := DupPage(k, envid, pn, pn in mapFails, false);
    if panicked {
      assert SomeMapFails(s1.pgdirs[s1.cur], mapFails) by {
        assert PGNUM(pn * PGSIZE) == pn;
      }
      return true;
    }
    NoneFailedStep(s1, uvpd, mapFails, n, n + 1);
  }

  /** The inner loop of fork (lib/fork.c:148-159), over the page-table
      entries under the present directory entry i. */
  method DupDirectory(k: Kernel, ghost s1: KState, envid: EnvId, uvpd: seq<bv32>, mapFails: set<nat>,
                      i: nat, ghost n0: nat)
    returns (panicked: bool)
    requires Base(s1, envid, uvpd) && i < NPDENTRIES && Present(uvpd[i]) && n0 == i * NPDENTRIES
    requires k.Valid() && k.envs == s1.envs && k.free == s1.free && k.curenv == s1.cur
    requires k.pgdirs == Stage(s1, envid, uvpd, n0)
    requires NoneFailed(s1, uvpd, mapFails, n0)
    modifies k
    ensures k.Valid() && k.curenv == s1.cur
    ensures panicked ==> SomeMapFails(s1.pgdirs[s1.cur], mapFails)
    ensures !panicked ==>
      && k.envs == s1.envs && k.free == s1.free
      && k.pgdirs == Stage(s1, envid, uvpd, n0 + NPTENTRIES)
      && NoneFailed(s1, uvpd, mapFails, n0 + NPTENTRIES)
  {
    ghost var n: nat := n0;
    for j := 0 to NPTENTRIES
      invariant n == n0 + j
      invariant k.Valid() && k.envs == s1.envs && k.free == s1.free && k.curenv == s1.cur
      invariant k.pgdirs == Stage(s1, envid, uvpd, n)
      invariant NoneFailed(s1, uvpd, mapFails, n)
    {
      panicked := DupEntry(k, s1, envid, uvpd, mapFails, i * NPDENTRIES + j, n);
      if panicked {
        return true;
      }
      n := n + 1;
    }
    return false;
  }

  // ---------------------------------------------------------------------
  // The copy-on-write fault handler

  /** pgfault's test on the faulting page's entry (lib/fork.c:31-36): it
      refuses every fault on a page whose entry lacks PTE_COW, whatever the
      other bits. The kind of access (utf_err) is not tested. */
  function CowRefused(pte: bv32): (refused: bool)
    ensures refused <==> pte & PTE_COW == 0
  {
    ((pte & PTE_COW) | PTE_W) != (PTE_COW | PTE_W)
  }

  /** The permission pgfault gives the private copy. */
  const COPY_PERM: bv32 := PTE_P | PTE_U | PTE_W

  /** The state a handled copy-on-write fault at va leaves: the head of the
      free list, a copy of the faulting page, is mapped writable at the
      faulting page, and PFTEMP is unmapped. */
  function CowCopied(s: KState, va: nat): (s': KState)
    requires Wf(s) && s.free != [] && RoundDown(va) in s.pgdirs[s.cur]
    ensures Wf(s') && s'.cur == s.cur && s'.envs == s.envs && s'.free == s.free[1..]
    ensures forall e :: e in s.pgdirs && e != s.cur ==> s'.pgdirs[e] == s.pgdirs[e]
    ensures forall v :: v in s'.pgdirs[s.cur] <==> v != PFTEMP && (v == RoundDown(va) || v in s.pgdirs[s.cur])
    ensures forall v :: v in s'.pgdirs[s.cur] && v != RoundDown(va) ==> s'.pgdirs[s.cur][v] == s.pgdirs[s.cur][v]
    ensures RoundDown(va) != PFTEMP ==> s'.pgdirs[s.cur][RoundDown(va)] == Mapping(s.free[0], COPY_PERM)
  {
    PopWf(s);
    var s1 := s.(free := s.free[1..]);
    assert COPY_PERM | PTE_P == COPY_PERM;
    InsertWf(s1, s.cur, RoundDown(va), s.free[0], COPY_PERM);
    var s2 := Insert(s1, s.cur, RoundDown(va), s.free[0], COPY_PERM);
    RemoveWf(s2, s.cur, PFTEMP);
    Remove(s2, s.cur, PFTEMP)
  }

  /** The copy is private: after the fault, no other mapping of any
      environment shares the page now at the faulting address. */
  lemma {:induction false} CowCopyPrivate(s: KState, va: nat)
    requires Wf(s) && s.free != [] && RoundDown(va) in s.pgdirs[s.cur] && RoundDown(va) != PFTEMP
    ensures var s' := CowCopied(s, va); var a := RoundDown(va);
      && a in s'.pgdirs[s.cur] && s'.pgdirs[s.cur][a].perm & PTE_W != 0
      && forall e, v :: e in s'.pgdirs && v in s'.pgdirs[e] && (e, v) != (s.cur, a) ==>
           s'.pgdirs[e][v].page != s'.pgdirs[s.cur][a].page
  {
    var s' := CowCopied(s, va);
    var a := RoundDown(va);
    PopWf(s);
    forall e, v | e in s'.pgdirs && v in s'.pgdirs[e] && (e, v) != (s.cur, a)
      ensures s'.pgdirs[e][v].page != s'.pgdirs[s.cur][a].page
    {
      assert s'.pgdirs[e][v] == s.pgdirs[e][v];
      assert !InUse(s, s.free[0]);
    }
  }

  /** The parent's first write to one of its copy-on-write pages after
      fork (its stack page, say) faults, and pgfault gives the parent a
      private writable copy on a fresh page. The child keeps the original
      physical page with DupMapping, so the two no longer share it. */
  lemma {:induction false} ParentCowFault(s0: KState, s: KState, child: EnvId, va: nat)
    requires Wf(s0) && Forked(s0, s, child) && s.free != []
    requires var a := RoundDown(va);
      a in s0.pgdirs[s0.cur] && a < UTOP - PGSIZE && a != PFTEMP && CowCandidate(s0.pgdirs[s0.cur][a].perm)
    ensures var s' := CowCopied(s, va); var a := RoundDown(va); var m := s0.pgdirs[s0.cur][a];
      && a in s'.pgdirs[child] && a in s'.pgdirs[s0.cur]
      && s'.pgdirs[child][a] == DupMapping(m)
      && s'.pgdirs[s0.cur][a] == Mapping(s.free[0], COPY_PERM)
      && s'.pgdirs[s0.cur][a].page != s'.pgdirs[child][a].page
  {
    var a := RoundDown(va);
    assert a in s.pgdirs[s.cur];
    assert child != s.cur;
    var s' := CowCopied(s, va);
    assert s'.pgdirs[child] == s.pgdirs[child];
    assert s.pgdirs[child][a].page !in s.free;
  }

  /** The three system calls of a handled fault, composed: page_alloc at
      PFTEMP, the map to the faulting page, the unmap of PFTEMP. */
  lemma {:induction false} CowFaultSteps(s0: KState, s1: KState, s2: KState, s3: KState, va: nat)
    requires Wf(s0) && s0.free != [] && RoundDown(va) in s0.pgdirs[s0.cur]
    requires s1 == Insert(s0.(free := s0.free[1..]), s0.cur, PFTEMP, s0.free[0], COPY_PERM)
    requires s2 == Insert(s1, s0.cur, RoundDown(va), s0.free[0], COPY_PERM)
    requires s3 == Remove(s2, s0.cur, PFTEMP)
    ensures s3 == CowCopied(s0, va)
  {
    var pt := s0.pgdirs[s0.cur];
    var m := Mapping(s0.free[0], COPY_PERM | PTE_P);
    var a := RoundDown(va);
    assert s3.pgdirs[s0.cur] == pt[PFTEMP := m][a := m] - {PFTEMP};
    assert pt[PFTEMP := m][a := m] - {PFTEMP} == pt[a := m] - {PFTEMP};
  }

  /** pgfault (lib/fork.c:18-66), the handler the child and the parent run
      on a page fault at faultVa. noMem and allocFails are the outcome of
      sys_page_alloc, mapFails that of sys_page_map. memmove's copy of the
      page contents is not part of this model. */
  method PgFault(k: Kernel, faultVa: Word, noMem: bool, allocFails: bool, mapFails: bool)
    returns (panicked: bool)
    requires k.Valid()
    modifies k
    ensures k.Valid() && k.curenv == old(k.curenv)
    ensures Uvpt(old(k.State()), PGNUM(faultVa)) & PTE_COW == 0 ==> panicked && k.State() == old(k.State())
    ensures panicked <==>
      Uvpt(old(k.State()), PGNUM(faultVa)) & PTE_COW == 0 || noMem || old(k.free) == [] || allocFails || mapFails
    ensures !panicked ==> RoundDown(faultVa) in old(k.pgdirs[k.curenv]) && k.State() == CowCopied(old(k.State()), faultVa)
  {
    ghost var s0 := k.State();
    var envid := k.curenv;
    var pte := Uvpt(k.State(), PGNUM(faultVa));
    if CowRefused(pte) {
      return true;
    }
    var addr := RoundDown(faultVa);
    assert addr == PGNUM(faultVa) * PGSIZE;
    var r := k.SysPageAlloc(envid, PFTEMP, COPY_PERM, noMem, allocFails);
    if r != 0 {
      return true;
    }
    ghost var s1 := k.State();
    r := k.SysPageMap(envid, PFTEMP, envid, addr, COPY_PERM, mapFails);
    if r != 0 {
      return true;
    }
    ghost var s2 := k.State();
    r := k.SysPageUnmap(envid, PFTEMP);
    if r != 0 {
      return true;
    }
    CowFaultSteps(s0, s1, s2, k.State(), faultVa);
    return false;
  }
}
