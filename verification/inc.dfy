/** Constants of the JOS headers (inc/mmu.h, inc/memlayout.h, inc/error.h,
    inc/env.h, inc/syscall.h, inc/ns.h, kern/e1000.h); those headers are not
    part of this model. The layout, page-table and EFLAGS bits are the i386
    JOS values. The error codes, status values and message tags are abstract
    constants: declared without a value, with a type that states what the
    model assumes of them (positive, pairwise distinct). The address of the
    user global nsipcbuf is chosen by the linker and is abstract too.
    PTE_COW is lib/fork.c:8. */
module Inc {

  datatype Option<T> = None | Some(value: T)

  /** A 32-bit register or memory word, as an unsigned number. */
  type Word = n: nat | n < 0x1_0000_0000

  const PGSIZE: nat := 4096
  const UTOP: nat := 0xEEC0_0000
  const UXSTACKTOP: nat := 0xEEC0_0000
  const PFTEMP: nat := 0x007F_F000
  const NPDENTRIES: nat := 1024
  const NPTENTRIES: nat := 1024
  /** offsetof(struct jif_pkt, jp_data): jp_data follows the int jp_len. */
  const JP_DATA: nat := 4
  /** The largest frame the e1000 transmits in one descriptor. */
  const E1000_PACKET_SIZE_BYTES: nat := 1518

  /** nsipcbuf is a page-aligned user page. */
  type UserPage = va: nat | va % PGSIZE == 0 && 0 < va < UTOP witness PGSIZE

  const NSIPCBUF: UserPage

  const PTE_P: bv32 := 0x001
  const PTE_W: bv32 := 0x002
  const PTE_U: bv32 := 0x004
  const PTE_SHARE: bv32 := 0x400
  const PTE_COW: bv32 := 0x800
  /** The bits a user may pass to the page system calls. */
  const PTE_SYSCALL: bv32 := 0xE07
  const FL_IOPL_MASK: bv32 := 0x3000
  const FL_IF: bv32 := 0x200
  const GD_UT: bv16 := 0x18
  const GD_UD: bv16 := 0x20

  /** Error codes (positive; the kernel returns their negations), environment
      status values and network-server message tags. */
  datatype Codes = Codes(
    eBadEnv: int, eInval: int, eNoMem: int, eNoFreeEnv: int,
    eIpcNotRecv: int, eNicBusy: int, eRxEmpty: int,
    envRunnable: int, envNotRunnable: int,
    nsreqInput: int, nsreqOutput: int, nresInvalidReq: int)

  predicate CodesOk(c: Codes) {
    && c.eBadEnv > 0 && c.eInval > 0 && c.eNoMem > 0 && c.eNoFreeEnv > 0
    && c.eIpcNotRecv > 0 && c.eNicBusy > 0 && c.eRxEmpty > 0
    && c.eBadEnv != c.eInval && c.eBadEnv != c.eNoMem && c.eBadEnv != c.eNoFreeEnv
    && c.eBadEnv != c.eIpcNotRecv && c.eBadEnv != c.eNicBusy && c.eBadEnv != c.eRxEmpty
    && c.eInval != c.eNoMem && c.eInval != c.eNoFreeEnv && c.eInval != c.eIpcNotRecv
    && c.eInval != c.eNicBusy && c.eInval != c.eRxEmpty
    && c.eNoMem != c.eNoFreeEnv && c.eNoMem != c.eIpcNotRecv && c.eNoMem != c.eNicBusy
    && c.eNoMem != c.eRxEmpty
    && c.eNoFreeEnv != c.eIpcNotRecv && c.eNoFreeEnv != c.eNicBusy && c.eNoFreeEnv != c.eRxEmpty
    && c.eIpcNotRecv != c.eNicBusy && c.eIpcNotRecv != c.eRxEmpty
    && c.eNicBusy != c.eRxEmpty
    && c.envRunnable != c.envNotRunnable
  }

  type ValidCodes = c: Codes | CodesOk(c)
    witness Codes(2, 3, 4, 5, 7, 17, 18, 2, 4, 10, 11, 12)

  const Errs: ValidCodes

  const E_BAD_ENV: int := Errs.eBadEnv
  const E_INVAL: int := Errs.eInval
  const E_NO_MEM: int := Errs.eNoMem
  const E_NO_FREE_ENV: int := Errs.eNoFreeEnv
  const E_IPC_NOT_RECV: int := Errs.eIpcNotRecv
  const E_NIC_BUSY: int := Errs.eNicBusy
  const E_RX_EMPTY: int := Errs.eRxEmpty
  const ENV_RUNNABLE: int := Errs.envRunnable
  const ENV_NOT_RUNNABLE: int := Errs.envNotRunnable
  const NSREQ_INPUT: int := Errs.nsreqInput
  const NSREQ_OUTPUT: int := Errs.nsreqOutput
  const NRES_INVALID_REQ: int := Errs.nresInvalidReq

  /** The system-call numbers of inc/syscall.h. */
  datatype Sysno =
    | SysCputs | SysCgetc | SysGetenvid | SysEnvDestroy | SysYield | SysExofork
    | SysEnvSetStatus | SysPageAlloc | SysPageMap | SysPageUnmap
    | SysEnvSetPgfaultUpcall | SysIpcTrySend | SysIpcRecv | SysEnvSetTrapframe
    | SysTimeMsec | SysTxPacket | SysRxPacket

  /** Which handler each syscall number names; a number outside the table
      names none. */
  const SyscallTable: map<Word, Sysno>

  /** PGNUM and ROUNDDOWN(_, PGSIZE). */
  function PGNUM(va: nat): nat { va / PGSIZE }

  function RoundDown(va: nat): (r: nat)
    ensures r <= va && r % PGSIZE == 0 && va - r < PGSIZE
  {
    (va / PGSIZE) * PGSIZE
  }
}
