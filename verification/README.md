# A verified model of the JOS network path: system calls, copy-on-write fork and the network daemons

This project models, in Dafny, the part of a JOS-derived teaching kernel
that user processes lean on to move Ethernet frames between the network
card and a user-level network server:

- **The system-call layer** (`kern/syscall.c`). This is the environment
  calls (`sys_exofork`, `sys_env_set_status`, `sys_env_set_trapframe`,
  `sys_env_set_pgfault_upcall`), the page calls (`sys_page_alloc`,
  `sys_page_map`, `sys_page_unmap`), the IPC rendezvous (`sys_ipc_try_send`,
  `sys_ipc_recv`), the packet gates (`sys_tx_packet`, `sys_rx_packet`) and
  the `syscall` dispatcher.
  - Each call is a pure function from a kernel state to the value returned
    and the state left behind (module `Syscall`).
  - The same calls run in place on `class Kernel` (module `Kern`). Each of
    its methods is proved to return exactly the value, and leave exactly
    the state, of its function.
- **User-level copy-on-write fork** (`lib/fork.c`). This covers:
  - the permission `duppage` computes and the order of its two mappings;
  - `fork`'s page-selection loop over `uvpd`/`uvpt` and the set-up after it
    (upcall, exception stack, runnable);
  - the copy-on-write gate of the `pgfault` handler and its three system
    calls.

  These are methods over a `Kernel`, proved against closed-form
  descriptions of the address spaces they leave behind.
- **The output and input helper environments** (`net/output.c`,
  `net/input.c`). Each is modelled as one pass of its `while (true)` body.
  - The calls that leave the daemon's own address space are recorded as a
    trace: `sys_tx_packet`, `sys_rx_packet`, `sys_yield` and `ipc_send`.
  - The card's answers are an input sequence, consumed one per call that
    reaches the driver.

The kernel state (module `KernelState`) holds four things:

- the live environments;
- a page table per environment, a map from page-aligned user address to
  physical page and PTE permission;
- the free-page list, last freed first;
- the running environment.

Its invariant `Wf` says these hold:

- every environment has a page table;
- every mapping lies page-aligned below `UTOP`, with `PTE_P` set and no bit
  outside `PTE_SYSCALL`;
- the free list has no duplicates and shares no page with a mapping.

Every system call keeps `Wf`.

The layout and bit constants are the i386 JOS header values (module `Inc`):

- `PGSIZE` is 4096;
- `UTOP` and `UXSTACKTOP` are `0xEEC00000`;
- `PFTEMP` is `0x7FF000`;
- `NPDENTRIES` and `NPTENTRIES` are 1024;
- the PTE bits are `PTE_P`, `PTE_W`, `PTE_U`, `PTE_SHARE` = `0x400`,
  `PTE_COW` = `0x800` and `PTE_SYSCALL` = `0xE07`.

The frame size `E1000_PACKET_SIZE_BYTES` is 1518, the maximum Ethernet frame
size, which is what the transmit buffers of kern/e1000.c:12, 31 are sized by.
The header that defines it is not part of this model.

Some values come from headers that are not part of this model. These are
abstract constants constrained only by what the code relies on:

- the error numbers, which are positive and pairwise distinct;
- the `ENV_*` status values;
- the `NSREQ_*` request tags and `NRES_INVALID_REQ`;
- the address of `nsipcbuf`, which is page-aligned below `UTOP`.

Where the repository's prose and its code disagree, the model follows the
code:

- `pgfault` does not test `utf_err`. The comment at lib/fork.c:25-26 asks
  for a check that the access was a write, but the handler refuses or
  handles a fault on the PTE bits alone.
- `sys_page_alloc` does not require `PTE_U | PTE_P` in `perm`, although its
  comment at kern/syscall.c:197 says it must. It only refuses bits outside
  `PTE_SYSCALL`.
- The output daemon's frame size is modelled as written (see Findings).
  The description of the output loop asks for a 3000-byte frame to go out
  as 1518 + 1482 bytes. As written, the daemon panics on that frame.

## Model

| member | source | states |
|---|---|---|
| Syscall.EnvSetStatus | kern/syscall.c:107-129 | A status other than runnable or not runnable gives -E_INVAL, and an envid that envid2env refuses gives -E_BAD_ENV. A failure changes nothing. Success happens exactly when both checks pass, and sets that environment's status and nothing else. |
| Syscall.SanitizeSecures | kern/syscall.c:155-165 | The installed trap frame runs with IOPL 0 and interrupts enabled. Every segment selector has privilege level 3: the code segment GD_UT, the data segments GD_UD. Every other flag and register is the caller's. |
| Syscall.EnvSetTrapframe | kern/syscall.c:138-168 | A NULL frame gives -E_INVAL, and a refused envid gives -E_BAD_ENV. A failure changes nothing. Success sets the target's registers to the sanitised frame and changes nothing else. |
| Syscall.EnvSetPgfaultUpcall | kern/syscall.c:178-189 | Succeeds exactly when envid2env (with the permission check) accepts envid, and then sets only that environment's upcall. Otherwise it returns -E_BAD_ENV and changes nothing. |
| Syscall.Exofork | kern/syscall.c:74-98 | An env_alloc failure is returned unchanged, with no effect. On success it returns the new id, which is positive. The child is not runnable, is the caller's child, has the caller's registers except eax = 0 (so that fork returns 0 in the child) and an empty address space. Every other environment and page table is unchanged. The free list is unchanged too, because the child's page-directory page is not modelled (see Left out). |
| Syscall.PageAlloc | kern/syscall.c:207-240 | The checks come in the source's order: permission and address first (-E_INVAL), then envid (-E_BAD_ENV), then memory (-E_NO_MEM). A failure changes nothing, including when page_insert fails after the page was taken. Success happens exactly when all checks pass. It maps the head of the free list, a page no environment maps, at va with perm \| PTE_P. |
| Syscall.PageMap | kern/syscall.c:258-291 | Either envid refused gives -E_BAD_ENV. A misaligned or high address, a bad perm, an unmapped source or a write request on a read-only source gives -E_INVAL. Success happens exactly when all checks pass and page_insert succeeds. The destination then maps the source's physical page with perm \| PTE_P. |
| Syscall.PageUnmap | kern/syscall.c:300-317 | A bad address gives -E_INVAL and a refused envid gives -E_BAD_ENV. Otherwise it succeeds, also when nothing is mapped at va, and removes exactly that mapping. |
| Syscall.IpcTrySend | kern/syscall.c:357-412 | The checks come in order: no target (-E_BAD_ENV, with no permission check), target not receiving (-E_IPC_NOT_RECV), then the page checks (-E_INVAL, -E_NO_MEM). Each error holds exactly in its case and changes nothing. A success clears the target's receiving flag, makes it runnable and records sender, value and perm. When a page is wanted it maps the sender's page at the target's dstva. Otherwise perm is 0 and no page table changes. |
| Syscall.IpcRecv | kern/syscall.c:425-445 | A misaligned dstva below UTOP gives -E_INVAL. Otherwise the caller becomes receiving and not runnable, with eax 0. Its dstva is recorded, or NULL when dstva is at or above UTOP. |
| Syscall.TxPacket | kern/syscall.c:454-461 | A NULL buffer or a size <= 0 is refused with -E_INVAL before the driver is consulted. Otherwise the driver's answer is returned unchanged. |
| Syscall.RxPacket | kern/syscall.c:463-470 | A NULL buffer is refused with -E_INVAL. Otherwise the driver's answer is returned unchanged. |
| Syscall.Dispatch | kern/syscall.c:473-518 | An unknown number gives -E_INVAL and changes nothing. Every call keeps the invariant, the running environment and every live environment. Only sys_ipc_recv can make an environment receiving, and only the caller. |
| Kern.Kernel.SysExofork | kern/syscall.c:74-98 | The in-place call returns and leaves exactly what Syscall.Exofork gives, and keeps the kernel invariant. |
| Kern.Kernel.SysEnvSetStatus | kern/syscall.c:107-129 | Returns and leaves exactly what Syscall.EnvSetStatus gives. |
| Kern.Kernel.SysEnvSetTrapframe | kern/syscall.c:138-168 | Returns and leaves exactly what Syscall.EnvSetTrapframe gives. |
| Kern.Kernel.SysEnvSetPgfaultUpcall | kern/syscall.c:178-189 | Returns and leaves exactly what Syscall.EnvSetPgfaultUpcall gives. |
| Kern.Kernel.SysPageAlloc | kern/syscall.c:207-240 | Returns and leaves exactly what Syscall.PageAlloc gives. A failed page_insert puts the page back on the free list. |
| Kern.Kernel.SysPageMap | kern/syscall.c:258-291 | Returns and leaves exactly what Syscall.PageMap gives. |
| Kern.Kernel.SysPageUnmap | kern/syscall.c:300-317 | Returns and leaves exactly what Syscall.PageUnmap gives. |
| Kern.Kernel.SysIpcTrySend | kern/syscall.c:357-412 | Returns and leaves exactly what Syscall.IpcTrySend gives. |
| Kern.Kernel.SysIpcRecv | kern/syscall.c:425-445 | Returns and leaves exactly what Syscall.IpcRecv gives. |
| Kern.Kernel.Syscall | kern/syscall.c:473-518 | Returns and leaves exactly what Syscall.Dispatch gives. |
| Rendezvous.StaysNotReceiving | kern/syscall.c:425-445 | Over any sequence of system calls by any environments, an environment that is not receiving stays that way unless it calls sys_ipc_recv itself. |
| Rendezvous.SendIsExclusive | kern/syscall.c:370-406 | After one successful send to t, every later send that names t fails with -E_IPC_NOT_RECV and changes nothing. This holds whoever sends and whatever calls come between, until t calls sys_ipc_recv again. |
| Rendezvous.RecvThenSendDelivers | kern/syscall.c:395-409 | A receive followed by a send that offers no page succeeds. The receiver is runnable, no longer receiving, and holds the sender, the value and perm 0. No page table changes. |
| Rendezvous.RecvThenSendMapsPage | kern/syscall.c:375-398 | After a receive at a page address, a send of a page the sender maps, with rights it holds, succeeds. It maps the sender's physical page at the receiver's dstva with perm \| PTE_P, and records perm. |
| Rendezvous.RecvNullWantsNoPage | kern/syscall.c:430-438 | sys_ipc_recv(0) leaves the same state as a receive at any address at or above UTOP: the receiver wants no page. |
| Rendezvous.SendGrantsNoMoreThanSenderHolds | kern/syscall.c:382-392 | A page delivered by IPC is the sender's physical page. The receiver gets it writable only when the sender's own mapping is writable. |
| Rendezvous.MapGrantsNoMoreThanSourceHolds | kern/syscall.c:283-288 | sys_page_map gives the destination the source's physical page, and write access only when the source has it. |
| Rendezvous.SanitizeIdempotent | kern/syscall.c:155-165 | Sanitising an already sanitised trap frame changes nothing. |
| Fork.DupPermCow | lib/fork.c:87-89 | For a writable or copy-on-write page that is not shared, duppage's permission clears PTE_W, sets PTE_COW and keeps every other PTE_SYSCALL bit of the PTE. |
| Fork.DupPermWriteOnlyShared | lib/fork.c:87-100 | duppage passes on write access only for a writable page marked PTE_SHARE. |
| Fork.MapOwnPage | lib/fork.c:90-101 | Each of duppage's sys_page_map calls either fails with -E_NO_MEM and changes nothing, or maps the caller's own physical page at the same address in the destination. |
| Fork.DupPage | lib/fork.c:79-108 | The child is mapped first, with DupPerm. Only for a copy-on-write candidate is the parent then remapped with the same permission. duppage panics exactly when a mapping it makes fails. A failed child mapping changes nothing. A failed parent remap leaves the child's new entry in place. On success exactly those two entries change. |
| Fork.DupEntry | lib/fork.c:153-158 | One page number of the loop. It calls duppage exactly for a page that is present in uvpt, not the exception stack and below UTOP - PGSIZE. Otherwise nothing changes. Afterwards the tables are those of the loop's next stage. |
| Fork.DupDirectory | lib/fork.c:151-159 | The inner loop over one present directory entry takes the tables from stage i·1024 to stage i·1024 + 1024, unless a child mapping fails. |
| Fork.DupAll | lib/fork.c:146-160 | The whole loop. It skips non-present directory entries, and ends in the last stage or in a panic. It panics only when a page that must be duplicated has a failing child mapping. |
| Fork.StageCopied | lib/fork.c:146-159 | Stage n of the loop, built step by step, equals the closed form. The child holds DupMapping of every selected parent page below n. The parent holds its copy-on-write candidates below n remapped, and everything else unchanged. |
| Fork.ForkCopied | lib/fork.c:146-160 | After the loop the child maps exactly the parent's pages below UTOP - PGSIZE, each with DupMapping. The parent's candidates there are remapped copy-on-write. No other environment, no environment record and the free list change. |
| Fork.SetUpChild | lib/fork.c:162-174 | After the loop, the set-up of the child panics exactly when the exception-stack page cannot be allocated. Otherwise fork is complete: the state is Forked. The upcall and status calls cannot fail, since the child is the caller's. |
| Fork.ForkSetUp | lib/fork.c:162-174 | The upcall, the fresh exception-stack page and the runnable status complete the post-fork state Forked. |
| Fork.Fork | lib/fork.c:126-174 | An exofork failure panics with no effect. fork panics exactly when exofork fails, some page to duplicate has a failing child mapping, or the exception-stack allocation fails. Otherwise it returns the child's id and leaves Forked: a runnable child with eax 0 and the upcall; every parent page below UTOP - PGSIZE is shared with DupPerm, plus a fresh writable exception stack; the parent's private writable pages are copy-on-write; nothing else changes. This leaves out the parent's own writes during fork (see Left out). |
| Fork.ForkedSharing | lib/fork.c:87-104 | After fork, parent and child map each duplicated page to the same physical page. Either side can write it only if the parent's original entry was PTE_SHARE. A private writable or copy-on-write page is copy-on-write on both sides. Fork.ParentCowFault covers the parent's first write after fork. |
| Fork.ParentCowFault | lib/fork.c:44-65 | A fault on one of the parent's copy-on-write pages after fork gives the parent a fresh private P\|U\|W page. The child keeps the original physical page with DupMapping, so the two no longer share it. |
| Fork.CowRefused | lib/fork.c:31-36 | pgfault's test refuses a fault exactly when the faulting page's PTE lacks PTE_COW, whatever its other bits. |
| Fork.CowCopied | lib/fork.c:44-65 | A handled fault takes the head of the free list and maps it with P\|U\|W at the rounded-down faulting address, and leaves PFTEMP unmapped. Every other mapping, environment and page table is unchanged. |
| Fork.CowCopyPrivate | lib/fork.c:44-65 | After a handled fault, the faulting page is writable and no other mapping of any environment shares its physical page. |
| Fork.CowFaultSteps | lib/fork.c:47-65 | sys_page_alloc at PFTEMP, the map to the faulting page and the unmap of PFTEMP compose to CowCopied. |
| Fork.PgFault | lib/fork.c:18-66 | A fault on a page without PTE_COW panics and changes nothing. The handler panics exactly when PTE_COW is clear or one of its system calls fails. Otherwise the page was mapped and the state is CowCopied. |
| Ns.RetryMeans | net/output.c:34-40 | The retry loop stops at the first driver answer that is not busy, and returns it. Every answer before it was busy. It returns no answer exactly when all answers were busy, and then it has consumed them all. |
| Ns.TriesShape | net/input.c:23-28 | The calls of the retry loop are only the call and sys_yield. The first is the call, and the last is sys_yield exactly when the last answer was busy. |
| Ns.TriesCalls | net/input.c:23-28 | n attempts make the call exactly n times. |
| NetOutput.ChunkRunOutcome | net/output.c:34-40 | A size <= 0 is refused by sys_tx_packet with -E_INVAL: the daemon panics after one call, without consuming a driver answer. Otherwise the frame is served exactly when the card answers 0 after only busy answers, the daemon panics with the card's answer on any other non-busy value, and it is still retrying exactly when every answer is busy. |
| NetOutput.ChunkRunCalls | net/output.c:34-40 | One frame's loop calls only that frame and sys_yield, the frame once per driver answer consumed, or once when sys_tx_packet refuses its size. |
| NetOutput.TransmitChunk | net/output.c:34-40 | The busy-retry loop for one frame computes exactly ChunkRun, whose outcome and calls ChunkRunOutcome and ChunkRunCalls characterise. |
| NetOutput.TransmitPacket | net/output.c:31-41 | The frame loop over offsets 0, S, 2S, … below jp_len computes exactly Transmit: each frame by the busy-retry loop, stopping at the first frame that is not served. |
| NetOutput.ServeOutput | net/output.c:24-46 | A request that is NSREQ_OUTPUT, from the server and carrying a page is sent frame by frame. Any other request is answered with NRES_INVALID_REQ and no page. Unless the daemon panicked, nsipcbuf is then unmapped. On a panic the state is unchanged. |
| NetOutput.TransmitSendsFrames | net/output.c:31-34 | The loop only sends frames at offsets below jp_len that are multiples of S, each with the chunk size of its offset, and sys_yield. With jp_len <= 0 it sends nothing. |
| NetOutput.OutputOneFrame | net/output.c:31-40 | A packet of 1 to S bytes goes out as one frame of jp_len bytes from the start of jp_data. |
| NetOutput.OutputSecondFrameRefused | net/output.c:33-39 | As written, a packet of S+1 to S·S bytes asks for a second frame of jp_len - S·S <= 0 bytes. Once the first frame is out, the daemon panics with -E_INVAL. |
| NetOutput.OutputPanicsOn3000 | net/output.c:33 | As written, a 3000-byte packet sends 1518 bytes and then a frame of 3000 - 1518·1518 bytes, and panics. |
| NetOutput.IntendedFramesTile | net/output.c:31-33 | With the intended size, the frames are each 1 to S bytes and consecutive in jp_data, and together they cover exactly jp_len bytes. |
| NetOutput.IntendedTransmitServes | net/output.c:31-41 | With the intended size, a card that takes every frame at once receives exactly those frames and the packet is served. |
| NetOutput.IntendedServes3000 | net/output.c:31-41 | With the intended size, a 3000-byte packet goes out as frames of 1518 and 1482 bytes. |
| NetInput.InputStart | net/input.c:18 | Before the loop, nsipcbuf is unmapped. |
| NetInput.InputFreshPage | net/input.c:22 | The page allocation succeeds exactly when a page is free and the insert does not fail. It then maps at nsipcbuf, with P\|U\|W, a page no environment mapped before. |
| NetInput.ReceivePacket | net/input.c:23-28 | The receive loop calls sys_rx_packet on jp_data again, after sys_yield, exactly while the card answers -E_RX_EMPTY. It computes Retry and Tries. |
| NetInput.ServeInput | net/input.c:22-36 | One pass allocates the page. A negative answer other than -E_RX_EMPTY panics. Otherwise jp_len is the byte count, the page goes to the server as NSREQ_INPUT with P\|W\|U, and nsipcbuf is unmapped. The state is the allocation followed, when served, by the unmap. |

## Left out

- set_pgfault_handler and `_pgfault_upcall` (lib/pgfault.c, lib/pfentry.S)
  are not part of this model. The kernel-side recording of the upcall is
  modelled; the address of `_pgfault_upcall` is an abstract constant.
- Only the parent's side of `fork` is modelled. The child's `thisenv` fix-up
  (lib/fork.c:138-143) runs in another address space; the child's zero
  return is the eax = 0 that `sys_exofork` sets.
- Page contents are not modelled, so `memmove` in `pgfault` (lib/fork.c:53)
  and the packet bytes are left out. The copy is a fresh page; the packet is
  its length and address.
- The PTE words `uvpt` shows carry the permission bits of the mapping only.
  The physical-address bits and the accessed and dirty bits are left out.
  `uvpd` is an input; it covers every mapped page.
- Page-table allocation inside `page_insert` is an input: `insertFails`, or
  the set `mapFails` in `fork`. The parent's own remap in `duppage` is given
  no failure, since its page table exists already.
- Syscall.Exofork, Fork.DupPage, Fork.ForkCopied, Fork.Fork, Fork.CowCopied:
  the free list records only the pages `sys_page_alloc` takes. These
  contracts pin exact free-list values that the real allocator would not
  give. Three kinds of page traffic are not modelled:
  - the page `env_alloc` takes for a new page directory;
  - the pages `page_insert` takes for new page tables;
  - the frees of `page_decref` when a replaced or unmapped page loses its
    last reference.

  Page reference counts are not modelled either. A page is in use when some
  environment maps it. NetInput.InputFreshPage's fresh page on every pass
  relies on this: a page handed to the server is neither mapped nor free.
- Fork.Fork, Fork.ForkCopied, Fork.ForkedSharing: the parent's own memory
  writes during fork, and the copy-on-write faults they raise, are not
  modelled. These contracts describe the address spaces as if the parent
  wrote nothing after duppage remapped its pages. In fact the parent's stack
  page is remapped copy-on-write at lib/fork.c:87-95, and the next call
  faults on it. pgfault then gives the parent a private writable copy. So
  when fork returns, that page is on a fresh physical page in the parent
  and is not shared with the child. Fork.ParentCowFault states the effect
  of such a fault after fork: the child keeps the original page with
  DupMapping, and the parent holds the fresh copy.
- The e1000 driver (kern/e1000.c, its rings and registers) is not part of
  this model. Its answers to `sys_tx_packet` and `sys_rx_packet` are input
  sequences.
- A daemon whose driver answers run out while it is still retrying ends
  `Starved`. The real loop would keep retrying.
- The daemons' `while (true)` loops are modelled one body pass at a time.
- The calls in the daemons' bodies are modelled in three ways:
  - `ipc_recv` in the output daemon is an input: value, sender, perm and
    `jp_len`.
  - `ipc_send` is an event in the trace; its own retry loop (lib/ipc.c) is
    not part of this model.
  - `sys_yield` and the scheduler are trace events.
- NetInput.ServeInput: when the daemon's `sys_page_alloc` fails, the real
  daemon would fault writing into the unmapped page. The model goes on
  without that fault, and the failure shows only in the state.
- NetOutput.ChunkSize: the int32 overflow of `i * E1000_PACKET_SIZE_BYTES`
  for byte offsets past 2^31 / 1518 is not modelled. Integers are
  unbounded.
- Syscall.Dispatch: `sys_env_destroy`'s effect (kern/env.c) is not part of
  this model; only its return value is. `sys_cputs`, `sys_cgetc` and
  `sys_time_msec` are console and clock I/O. They leave the state as it is,
  and their results are inputs. `user_mem_assert` is not modelled.
- `sfork` is not modelled.

## Findings

| source | as written | input that shows it | evidently intended | confidence | as-written member | corrected member |
|---|---|---|---|---|---|---|
| net/output.c:33 | `tx_size = MIN(jp_len - i * E1000_PACKET_SIZE_BYTES, E1000_PACKET_SIZE_BYTES)`, where `i` is already a byte offset (the loop steps it by 1518) | `jp_len = 3000`, card accepting at once. The first frame is 1518 bytes; the second asks for 3000 - 1518·1518 < 0 bytes, which `sys_tx_packet` refuses with -E_INVAL, so the daemon panics. Every packet of 1519 to 1518·1518 bytes fails this way. | `MIN(jp_len - i, E1000_PACKET_SIZE_BYTES)`: frames of 1518 and 1482 bytes for 3000 | not executed | NetOutput.OutputPanicsOn3000 | NetOutput.IntendedTransmitServes |
