# Verification of egos

A Dafny model of the parts of the egos teaching operating system that keep state, with proofs
of what they promise. The build modelled is the one the Makefile selects: the naive
round-robin scheduler, software-timer system calls, the software TLB instead of page tables,
networking on, and the SiFive-U memory map (`Makefile:2-14`).

Run `dafny verify dfyconfig.toml` to check everything.

## What is modelled

**Treedisk** (`TreeLayout`, `TreeOwnership`, `TreeWrite`, `TreeDisk`). The file system keeps
many sparse files in one flat store of 512-byte blocks: each inode has a tree of indirect
blocks that gains levels as the file grows, and free blocks form a stack of list blocks. Class
`Treedisk` has the loops and block writes of the code. A ghost ownership map gives every block
behind the inode blocks exactly one role: list node, list entry, position in one file's tree,
or in flight between allocation and linking. The main result is `Treedisk.Write`: the store
refines a map from inode to a sequence of blocks, a write changes one block of one file (with
null blocks up to it if the file was shorter), takes exactly the missing tree positions from
the free list, and runs out of blocks exactly when there are too few.

**Kernel** (`PageAlloc`, `Mmu`, `Kernel`, `KernelRuns`, `Messages`, `Fairness`). Processes
run at the same addresses and are copied in and out on every switch. `Mmu.SoftTlb.Views` is the memory of every process wherever it
currently is; switching leaves it unchanged. Class `Kernel.System` has the process table, the
saved stacks and program counters and the message logs; every entry point keeps `UserMode`:
exactly the current process is running, no sender waits for a receiver that waits for it,
every blocked sender's message is intact, every suspended process's context is saved as it
was, and the log of completed sends is the log of completed receives, with true sender and
receiver.

`KernelRuns` is about runs of interrupts, user code and the life cycle of processes in any
order: the invariant holds throughout, a process that is left alone keeps its memory and its
saved context, and one that is selected again resumes where it was and not as a new one.
`Messages` says what system calls do in terms of what the processes' records hold when the
interrupt arrives: what a receive delivers is what the sender's record held when its own system
call arrived, however long it has waited. `Fairness` shows that a process that can run gets its
turn.

**Program loading** (`Loader`) uses the same memory: after `load_app` and a switch, the
application region holds the file and zeros behind it, byte for byte. `LifeCycle` puts kernel
and loader together: boot reaches the kernel's invariant, and starting or ending a program
keeps it and is noticed by no other process.

**TCP and the web server** (`SeqNumbers`, `Httpd`, `Tcp`, `TcpSafety`, `TcpRuns`,
`TcpReplies`, `TcpPhases`, `TcpPieces`, `TcpProgress`, `TcpEngine`). `Tcp` states one connection as a state
machine (segment arrival, timer tick), `TcpEngine.Uip` is the engine that updates connection
record, flags and packet buffer in place and is proved to follow it, and the other modules prove
properties over whole runs: events are arbitrary segments, in any order and number, ticks, and
overwriting of the packet buffer, which all connections share. The sequence numbers count what
has been exchanged whatever the windows are (`TcpRuns.SequenceCounts`); that the server's own
record agrees with them depends on the windows, and so do the properties of the data sent.

`ConnTable` has the table of connections, and `TcpNet` puts both together: forty connections in
one table, with one packet buffer. Identities stay distinct, and each connection's part of a run
is a run of the state machine, so all that is proved of such runs holds for it.

**Checksums and ping** (`Checksum`, `IcmpEcho`), **ARP cache** (`Arp`), **Sv32 identity mapping** (`PageTable`).

**Ethernet receive ring** (`RxRing`). The hardware goes round the ring with a pointer of its own,
which the driver never sees. `Ring.Valid` says that the driver stays in step with it: what has
been handed out are the complete frames of all that was ever stored, in order, up to those
still in the ring.

## Where the code does not do what one would expect

- A response segment may carry the wrong bytes. When an in-sequence segment arrives while a
  piece is in transit, or a retransmission is due, the server cuts the piece to the segment
  size of the moment, while the engine sends as many bytes as it sent before. The server's
  record and the transport stay in agreement exactly when the piece is the same
  (`TcpSafety.ArriveExactly`, `TcpSafety.TickExactly`); windows of zero or at least the initial
  segment size guarantee that for whole runs (`TcpRuns.ResponseSafe`). When the piece is shorter,
  what is left in the buffer goes out behind it (`TcpPieces.StaleBytes` for a segment,
  `TcpPieces.TickStale` for a retransmission); when it is longer, the server's position runs
  ahead, and what it sends next is not what the sequence number stands for
  (`TcpPieces.LongerArrives`, `TcpPieces.LongerResent`, `TcpPieces.RunsAhead`).
  `TcpPieces.ShrunkWindowIsUnsafe` gives a run from the SYN on.
- Data that arrives together with the acknowledgement of our FIN is taken but not
  acknowledged; the two other cases without an answer are the intended ones
  (`TcpReplies.AnsweredExactly`).
- A request is always taken, but not always answered. The response starts if and only if the
  connection was established before, the request does not end the peer's stream, and a segment
  size is known (`TcpProgress.RequestAnsweredExactly`). So a request that rides on the
  acknowledgement of the SYN gets none, short of new data (`TcpProgress.EarlyRequestUnanswered`);
  and when the SYN has no segment size option and its slot never had one, no packet of any run
  carries data (`TcpProgress.NoMssNoData`, `TcpProgress.MuteFromListen`).
- The size of a file is returned as a signed number: it is the length if and only if that is
  below 2^31, and a length of 2^32 - 1 looks like a failure (`TreeDisk.Treedisk.GetSize`).
- Treedisk's size law fails at offset 2^32 - 1 only (`TreeWrite.SizeLawExactly`).
- The ARP timer removes an entry that is not renewed after 120 ticks if and only if it was
  stamped before tick 136 (`Arp.GoneAfter`); one stamped later stays however long it runs.
- A correct ping whose contents and code are all zero gets an incorrect reply, no other
  (`IcmpEcho.ReplyCorrectExactly`).
- The branch at `library/file/file.c:260` cannot be taken for offsets below 2^32 - 1, since
  `nblocks` was just set; the model does not have it. An empty file grows from root 0.

## Model

| member | source | states |
|---|---|---|
| TreeLayout.HeightIsLeast | library/file/file.c:185-189 | the number of levels the loop finds is the least after which shifting the last block number by 7 bits a level gives zero |
| TreeLayout.HeightBound | library/file/file.c:185-189 | five levels cover every 32-bit offset |
| TreeLayout.ShiftIsDigits | library/file/file.c:70-75 | shifting by whole levels takes base-128 digits, over-long shifts included |
| TreeOwnership.TakeEntry | library/file/file.c:136-142 | taking the last reference of the top list block keeps the free list well formed, without that block |
| TreeOwnership.TakeNode | library/file/file.c:129-135 | taking the list block itself once it is empty leaves the rest of the list well formed |
| TreeOwnership.AllocPicksFree | library/file/file.c:106-145 | the allocated block, and the block rewritten for it, belong to the free list |
| TreeOwnership.AllocStep | library/file/file.c:106-145 | allocation removes exactly one block from the free blocks and keeps the whole invariant |
| TreeOwnership.NoOrphans | library/file/file.c:193-217 | nothing hangs below a hole |
| TreeOwnership.PlaceNode | library/file/file.c:298-305 | linking a block in flight at an empty tree position keeps every tree |
| TreeOwnership.LinkChild | library/file/file.c:298-305 | filling a hole in an indirect block keeps the invariant and every other offset of every file |
| TreeOwnership.LinkRoot | library/file/file.c:292-302 | the same for a hole that is the root reference in the inode |
| TreeOwnership.GrowTree | library/file/file.c:263-278 | a level inserted above the root keeps the invariant and all contents, for all tree heights |
| TreeOwnership.WriteLeaf | library/file/file.c:323-325 | overwriting a data block changes one offset of one file |
| TreeOwnership.Resize | library/file/file.c:246-248 | raising a recorded size keeps all trees and contents |
| TreeOwnership.NothingBeyondSize | library/file/file.c:193-200 | beyond its size a file holds only null blocks, so offsets skipped by a later write read as zeros |
| TreeOwnership.LookupIsContent | library/file/file.h:15-26 | descending digit by digit through the indirect blocks gives what the ownership map says |
| TreeOwnership.BlocksConserved | library/file/file.c:106-145 | at rest, free blocks plus occupied tree positions are all blocks behind the inode blocks |
| TreeOwnership.PushNode | library/file/file.c:372-383 | a new list block on top of the list, with its entries, keeps the list well formed |
| TreeWrite.SizeLawExactly | library/file/file.c:246-248 | the recorded size becomes the maximum of old size and offset + 1 if and only if the offset is not 2^32 - 1; there it becomes 0 |
| TreeWrite.HoleOnPath | library/file/file.c:195-200 | a hole anywhere on the path means a null block at the offset |
| TreeWrite.AllocDuring | library/file/file.c:298-302 | allocation inside a write leaves one free block in flight and disturbs nothing |
| TreeWrite.StepGrow | library/file/file.c:263-278 | one more level is one step of the write: the invariant of the running write holds with one more position made |
| TreeWrite.StepRoot | library/file/file.c:298-305 | so is filling the root reference |
| TreeWrite.StepChild | library/file/file.c:298-321 | so is filling a hole further down |
| TreeWrite.OutOfBlocks | library/file/file.c:111-112 | if allocation fails, more tree positions were missing than blocks were free |
| TreeWrite.AllMade | library/file/file.c:291-321 | when the walk ends exactly the missing positions have been made |
| TreeWrite.FilesAfter | library/file/file.c:223-326 | after a write each file is as before but for the written block and null padding |
| TreeWrite.WriteEnds | library/file/file.c:323-325 | the last write of the data block completes the promise of the whole operation |
| TreeWrite.NewFileSystem | library/file/file.c:411-428 | the store set up by creation satisfies the invariant, with all files empty |
| TreeDisk.Treedisk.GetSnapshot | library/file/file.c:80-102 | fails exactly for a bad inode number; else gives superblock and the inode's block |
| TreeDisk.Treedisk.CountLevels | library/file/file.c:185-189 | computes the height |
| TreeDisk.Treedisk.AllocBlock | library/file/file.c:106-145 | fails exactly if the list is empty; else returns the block and the disk that `AllocStep` is about |
| TreeDisk.Treedisk.GetSize | library/file/file.c:150-157 | the length of the abstract file, as a signed number, so the length itself if and only if it is below 2^31; -1 exactly for a bad inode number or a length of 2^32 - 1 |
| TreeDisk.Treedisk.Read | library/file/file.c:167-219 | the block of the abstract file at the offset; failure exactly for a bad inode number or an offset beyond the file |
| TreeDisk.Treedisk.AddLevel | library/file/file.c:264-277 | one level more, or a proof that blocks are too few |
| TreeDisk.Treedisk.Grow | library/file/file.c:262-279 | as many levels as the offset needs |
| TreeDisk.Treedisk.Measure | library/file/file.c:234-256 | levels now, levels needed, and the inode with its new size, for every offset |
| TreeDisk.Treedisk.Descend | library/file/file.c:298-320 | one step of the walk reaches the block of the next position, made if it was missing |
| TreeDisk.Treedisk.Walk | library/file/file.c:291-325 | the walk completes the write or finds blocks too few |
| TreeDisk.Treedisk.Write | library/file/file.c:223-326 | fails exactly for a bad inode number and panics exactly when more positions are missing than blocks are free; else the file is the old one with the block put at the offset, all other files are as before, and free plus owned blocks are conserved |
| TreeDisk.Treedisk.SetupFreelist | library/file/file.c:367-385 | chains exactly the given range of blocks into a well-formed free list |
| TreeDisk.Treedisk.Create | library/file/file.c:389-437 | fails exactly when the store is too small; leaves an existing file system alone; else sets up empty files and the free list |
| PageAlloc.BitOps | earth/page_alloc.c:24-34 | setting, clearing and testing a bit of a byte, for all pairs of positions |
| PageAlloc.PageBitmap.Set | earth/page_alloc.c:24-26 | adds one page to the set of used pages |
| PageAlloc.PageBitmap.Clear | earth/page_alloc.c:28-30 | removes one page from it |
| PageAlloc.PageBitmap.Take | earth/page_alloc.c:55-67 | takes the lowest free page; fails exactly when there is none |
| PageAlloc.Supply | earth/page_alloc.c:55-67 | a free page exists exactly when fewer than all are used |
| Mmu.ViewAt | earth/cpu_mmu.c:65-81 | a process's memory at an execution page is the page wherever it currently is |
| Mmu.SavedViews | earth/cpu_mmu.c:83-92 | copying the loaded process out changes nobody's memory |
| Mmu.LoadedViews | earth/cpu_mmu.c:94-97 | copying a process in changes nobody's memory |
| Mmu.SameViews | earth/page_alloc.c:60-62 | zeroing a page that nobody owns, or changing the stack page, changes nobody's memory |
| Mmu.StoredViews | earth/cpu_mmu.c:65-81 | a store to an execution page changes the loaded process's memory and no other |
| Mmu.PatchedViews | library/elf/elf.c:63-76 | a store to a private page changes the memory of its owner and no other |
| Mmu.TableEntered | earth/cpu_mmu.c:53-60 | entering a page that nobody owns keeps private pages unshared and adds exactly that page |
| Mmu.RowCleared | earth/cpu_mmu.c:35-42 | clearing a row gives up exactly that process's pages |
| Mmu.SoftTlb.constructor | earth/cpu_mmu.c:26-27 | at the start nobody has memory |
| Mmu.SoftTlb.Alloc | earth/cpu_mmu.c:29-31 | a zeroed page owned by nobody; fails exactly when no page is free; nobody's memory changes |
| Mmu.SoftTlb.Map | earth/cpu_mmu.c:46-62 | the page becomes the process's memory at the execution page; fails exactly when all six slots are taken |
| Mmu.SoftTlb.MemcopyHelper | earth/cpu_mmu.c:65-81 | all mapped pages of one process are copied one way, nothing else changes |
| Mmu.SoftTlb.Switch | earth/cpu_mmu.c:83-98 | every process's memory is as before |
| Mmu.SoftTlb.Free | earth/cpu_mmu.c:33-44 | returns exactly that process's pages; nobody else's memory changes |
| Mmu.SoftTlb.ClearRow | earth/cpu_mmu.c:35-42 | clears exactly the bits of the pages in the row |
| Kernel.NextIsNearest | grass/scheduler.c:54-60 | the scan picks the nearest process in cyclic order that can run |
| Kernel.YieldApproaches | grass/scheduler.c:52-70 | each yield selects a waiting process or brings the scheduler strictly closer to it |
| Fairness.SyscallLeads | grass/syscall.c:118-149 | every system call ends in the scheduler, and no other process that could run is stopped on the way |
| Fairness.ActionLeads | grass/kernel.c:25-45 | every interrupt, and everything else, leaves the current process as it is or ends in the scheduler |
| Fairness.TurnComes | grass/kernel.c:102-131 | over every run of interrupts, user code and the life cycle of processes, a process that can run all the time is the current one by the time the scheduler has run 16 times |
| KernelRuns.SyscallKeeps | grass/syscall.c:118-149 | a system call, with the scheduling after it, keeps the invariant |
| KernelRuns.StepKeeps | grass/kernel.c:102-131 | so does everything that can happen |
| KernelRuns.RunSafe | grass/kernel.c:102-131 | so over every run exactly the current process is running, no rendezvous is missed, blocked messages and suspended contexts are intact, and the two message logs are equal |
| KernelRuns.StepReady | grass/scheduler.c:66-103 | a process becomes a new one only when it is readied: being preempted or woken makes no process new |
| KernelRuns.NeverNew | grass/scheduler.c:66-103 | so over every run a process that is not new stays so until it is readied again |
| KernelRuns.InterruptSaved | grass/kernel.c:25-45 | an interrupt redirects the saved context of no process but a current one that is killed |
| KernelRuns.InterruptMemory | grass/syscall.c:118-233 | an interrupt writes to nobody's memory but the records of the current process and of the receiver of a message |
| KernelRuns.Isolation | grass/kernel.c:86-131 | over every run in which it is left alone a process keeps its saved stack, program counter and memory, except for the record page, and that too if no message is delivered to it |
| KernelRuns.ResumesWhereSaved | grass/kernel.c:102-131 | a process suspended by an interrupt and left alone until it is selected again is to resume with the context saved when that interrupt arrived, and is not new then, so that it does resume |
| Messages.SendKeepsMessage | grass/syscall.c:171-202 | a send leaves the message in the sender's record as it was when the interrupt arrived, under its true pid; a receiver waiting for it or for anyone gets just that and runs on, and both logs record it; otherwise the sender waits |
| Messages.ReceiveTakesMessage | grass/syscall.c:204-233 | a receive gives the receiver the message in the record of a sender that waits to send to it, the expected one if one is named; if there is none the receiver waits |
| Messages.CallReturns | grass/syscall.c:118-135 | every system call returns with type and return value cleared |
| Messages.NoneMissed | grass/syscall.c:171-233 | nobody waits to send to a process that waits for it or for anyone |
| Messages.StopsOnlyToWait | grass/kernel.c:25-45 | a process that can run goes on being able to, unless its own system call has to wait or it is freed |
| Messages.WaitingKeepsRecord | grass/syscall.c:171-202 | over every run in which a sender waits, its record stays as it is |
| Messages.MessageArrives | grass/syscall.c:160-233 | what a receive delivers is what was in the sender's record when its own system call arrived, whatever has happened meanwhile; and both logs say so |
| Kernel.ScheduledOk | grass/scheduler.c:66-103 | scheduling keeps the process table: at most the current one runs, no rendezvous is missed |
| Kernel.AfterSendOk | grass/syscall.c:183-199 | sending never leaves the sender facing a receiver that waits for it |
| Kernel.AfterRecvOk | grass/syscall.c:207-230 | nor does receiving leave the receiver facing a sender that waits for it |
| Kernel.CopiedMessage | grass/syscall.c:160-166 | copying the message part of a record leaves type and return value of the target |
| Kernel.YieldKeeps | grass/scheduler.c:66-103 | after a yield exactly the chosen process runs, and its context is saved unless it is new |
| Kernel.SendKeeps | grass/syscall.c:171-202 | a send keeps the invariant over messages, memories and contexts |
| Kernel.SendDelivers | grass/syscall.c:192-199 | a delivered message arrives with content and true sender, and both logs get the same entry |
| Kernel.ReceiveKeeps | grass/syscall.c:204-233 | a receive keeps the invariant |
| Kernel.ReceiveTakes | grass/syscall.c:223-230 | a receive takes the message as the blocked sender asked to send it |
| Kernel.PushKeeps | grass/kernel.c:102-109 | saving program counter and stack keeps the invariant |
| Kernel.UserStoreKeeps | grass/kernel.c:102-130 | nothing the running process stores to its own pages breaks it |
| Kernel.LifeCycleKeeps | grass/process.c:22-55 | nor does allocating, readying or freeing a process other than the running one |
| Kernel.ControlC | grass/kernel.c:32-37 | control-C leaves a user process the current one, to go on at its exit code with the stack it had |
| Kernel.SyscallIsolated | grass/syscall.c:118-233 | a system call changes no memory except the caller's record and the record of the receiver it delivers to, which gets the sender's content and true pid |
| Kernel.ReceiveIsolated | grass/syscall.c:204-233 | a receive writes only the receiver's record |
| Kernel.SendIsolated | grass/syscall.c:171-202 | a send writes only the record of the named receiver, if it is waiting |
| Kernel.System.constructor | grass/grass.c:43-56 | the invariant holds at the start |
| Kernel.System.Msgcpy | grass/syscall.c:151-168 | copies the message from one process's memory to the other's through two switches |
| Kernel.System.FindNext | grass/scheduler.c:50-60 | computes the scheduler's choice |
| Kernel.System.ProcYield | grass/scheduler.c:35-104 | halts exactly when nothing can run; else the chosen process is loaded and running, and has its saved context unless it had been readied and not run yet; that no other process becomes new is `KernelRuns.StepReady` |
| Kernel.System.SendOrBlock | grass/syscall.c:171-199 | delivers or blocks, exactly as the receiver's state demands; what that does to the message is `Messages.SendKeepsMessage` |
| Kernel.System.ProcSend | grass/syscall.c:171-202 | the same followed by the scheduler; fails exactly for an unknown receiver or when nothing can run |
| Kernel.System.FindSender | grass/syscall.c:209-219 | the sender a receive takes from |
| Kernel.System.RecvOrBlock | grass/syscall.c:204-230 | takes a waiting message or blocks |
| Kernel.System.ProcRecv | grass/syscall.c:204-233 | the same followed by the scheduler |
| Kernel.System.ProcSyscall | grass/syscall.c:118-149 | dispatches the call in the current record; halts exactly for those the kernel halts on |
| Kernel.System.IntrEntry | grass/kernel.c:25-45 | timer interrupts of system processes are ignored, control-C sends a user process to its exit code, other interrupts are dispatched |
| Kernel.System.ManageUserstack | grass/kernel.c:86-99 | saves the stack to, or restores it from, the slot of the current process, and changes no memory |
| Kernel.System.CtxEntry | grass/kernel.c:102-131 | one trip through the kernel: the process returned to has the program counter and the stack it had when it was suspended, unless it is new, which it is exactly if it was readied and has not run; the timer changes nothing for low system processes, and control-C sends a user process to its exit code; halts for a stack deeper than a page, and otherwise exactly where the kernel does |
| Kernel.System.ProcAlloc | grass/process.c:22-36 | the first unused slot becomes a process being loaded |
| Kernel.System.ProcSetReady | grass/process.c:62 | a loaded process may be scheduled |
| Kernel.System.ProcFree | grass/process.c:38-45 | frees the pages and slot of one process other than the running one, and nothing else |
| Kernel.System.ProcFreeUsers | grass/process.c:47-54 | frees exactly the user processes |
| Kernel.System.UserStore | earth/cpu_mmu.c:65-81 | a store by the running process changes its own memory only and keeps the invariant |
| Kernel.System.UserStack | grass/kernel.c:86-99 | a store to the stack changes nobody's mapped memory |
| Loader.NewPage | library/elf/elf.c:52-58 | a zeroed page becomes the next page of the program; fails exactly when memory is exhausted |
| Loader.CopyBlocks | library/elf/elf.c:60-69 | succeeds exactly if the file fits; then the region holds the file's blocks, and zeros behind them |
| Loader.KeepLowBytes | library/elf/elf.c:71-76 | clearing a word from some byte on keeps the bytes before |
| Loader.TailCleared | library/elf/elf.c:71-76 | with the last page cleared behind the file, the region holds the file and zeros, byte for byte |
| Loader.ClearTail | library/elf/elf.c:71-76 | the method that does so |
| Loader.ArgsHeld | library/elf/elf.c:85-92 | each pointer addresses the copy of its argument |
| Loader.WriteArgs | library/elf/elf.c:85-92 | writes count, arguments and pointers to the argument page and nothing else |
| Loader.LoadApp | library/elf/elf.c:31-96 | succeeds exactly with six free pages and a file of at most 16 KB; then memory is file, zeros, arguments and an empty record page, using six slots and six pages, and nobody else's memory changes |
| Loader.LoadAndSwitch | library/elf/elf.c:31-96 | after a switch to the process its execution pages hold all that |
| LifeCycle.UnusedStays | grass/syscall.c:118-149 | a system call, with the scheduling after it, leaves unused slots unused and takes none into use |
| LifeCycle.SlotsStayEmpty | grass/kernel.c:25-45 | no interrupt gives memory to an unused slot |
| LifeCycle.Boot | grass/grass.c:43-56 | succeeds exactly if the first program fits; then the kernel's invariant holds, the first process runs and its memory is the program |
| LifeCycle.Spawn | apps/system/sys_proc.c:83-93 | succeeds exactly with six free pages and a program that fits; then a formerly unused slot is a ready process whose memory is the program, and every other process's memory and slot are as before |
| LifeCycle.Exit | apps/system/sys_proc.c:65-66 | the slot is unused again, its memory gone, and nobody else's touched |
| PageTable.TableAdded | earth/cpu_vm.c:197-202 | a fresh second-level table leaves every walk as it was |
| PageTable.LeafAdded | earth/cpu_vm.c:204-211 | one second-level entry maps one page to itself and changes no other walk |
| PageTable.RegionsDisjoint | earth/cpu_vm.c:220-230 | the kernel's regions are disjoint, so no entry is written twice |
| PageTable.AllRegions | earth/cpu_vm.c:220-230 | the 14 calls together map exactly the listed pages |
| PageTable.Mapper.SecondLevel | earth/cpu_vm.c:192-202 | finds or makes the second-level table without changing any walk |
| PageTable.Mapper.SetupIdentityRegion | earth/cpu_vm.c:185-212 | succeeds exactly if the address is aligned, a table page is available and every page of the region is unmapped; then adds exactly the region |
| PageTable.Mapper.KernelIdentityMapping | earth/cpu_vm.c:214-232 | with 14 free pages, never fails on an occupied entry; every listed address reaches itself with all permissions, every other address faults |
| SeqNumbers.Combine | library/uip/uip.c:249-274 | upper bytes and lowest byte summed with their own carries form the sum |
| SeqNumbers.SeqArith.Add32 | library/uip/uip.c:249-274 | the byte-wise addition with carries is addition modulo 2^32 |
| SeqNumbers.SeqArith.AddRcvNxt | library/uip/uip.c:672-680 | the same in place |
| SeqNumbers.PlusInjective | library/uip/uip.c:1408-1418 | two distances below 2^32 from one number are told apart |
| SeqNumbers.ValueInjective | library/uip/uip.c:1411-1414 | comparing the four bytes compares the numbers |
| Httpd.AppCall | library/uip/httpd.c:61-140 | one call keeps position plus last piece within the response and asks only for pieces of it that the segment size allows |
| TcpSafety.NotifyExactly | library/uip/httpd.c:103-125 | asked again for a piece in transit, the server stays in agreement with the transport exactly when it offers the same piece |
| TcpSafety.NotifyAcked | library/uip/httpd.c:79-139 | told of an acknowledgement, it sends the next piece, or after the last one closes |
| TcpSafety.ArriveCounts | library/uip/uip.c:1383-1790 | for every segment in every phase and with every window, the sequence numbers go on counting what was exchanged, and len is what is in transit: 1 in the SYN and FIN phases, 0 in the waiting ones |
| TcpSafety.TickCounting | library/uip/uip.c:730-811 | the same for a timer tick |
| TcpSafety.ArriveExactly | library/uip/uip.c:1383-1790 | for every segment in every phase: the server's record stays in agreement with the transport, and then the reply is right, exactly unless the segment makes the server offer a different piece |
| TcpSafety.TickExactly | library/uip/uip.c:730-811 | the same for a timer tick |
| TcpRuns.SeqStep | library/uip/uip.c:708-1790 | every event, the overwriting of the shared buffer included, keeps the counting |
| TcpRuns.SequenceCounts | library/uip/uip.c:708-1790 | so it holds over every run, without any condition on the windows |
| TcpRuns.SteadyStep | library/uip/uip.c:1622-1627 | with a window of zero or at least the initial segment size the segment size stays put, and so does the invariant |
| TcpRuns.HistoryGrows | library/uip/uip.c:1383-1790 | nothing taken or acknowledged is ever taken back |
| TcpRuns.ListenStarts | library/uip/uip.c:1302-1344 | a SYN starts a connection in the invariant |
| TcpRuns.ConnectStarts | library/uip/uip.c:447-468 | so does an active open |
| TcpRuns.ResponseSafe | library/uip/httpd.c:61-140 | over every run with such windows, each data segment carries the piece of the response that its sequence number stands for, and our FIN comes after the whole response unless the peer closed first |
| TcpRuns.ReceiverGetsPrefix | library/uip/httpd.c:61-140 | a receiver of any selection of such packets, in any order, has a prefix of the response |
| TcpRuns.EndToEnd | library/uip/httpd.c:61-140 | both together, from the SYN on |
| TcpRuns.ReceiveStep | library/uip/uip.c:1408-1418 | a step takes nothing, or the whole data of an in-sequence segment; rcvNxt counts bytes and FIN taken |
| TcpRuns.InOrder | library/uip/uip.c:1408-1418 | whatever is lost, repeated or reordered, what the server has taken is a prefix of the peer's stream |
| TcpReplies.AnsweredExactly | library/uip/uip.c:1549-1796 | once established, every segment with data or a FIN is answered with an acknowledgement of all that has been taken, with exactly three exceptions |
| TcpReplies.InTransitIsSent | library/uip/uip.c:1670-1712 | with every window, what a step sends is exactly what is in transit after it, and nothing is counted as in transit without being sent |
| TcpReplies.DueIsResent | library/uip/uip.c:763-800 | with every window, a due retransmission sends again the SYN, FIN or as many bytes as are in transit, at the same sequence number; only with a segment size of zero nothing |
| TcpReplies.NeverReopens | library/uip/uip.c:1464-1790 | over every run a connection never returns to a phase it has left |
| TcpPhases.ResetCloses | library/uip/uip.c:1388-1396 | a reset closes the connection in every phase, tells the server, and is not answered |
| TcpPhases.ClosedForGood | library/uip/uip.c:1188-1196 | over every run a closed connection stays closed and sends nothing |
| TcpPhases.ResetForGood | library/uip/uip.c:1388-1396 | so does one that was reset |
| TcpPhases.SynAnswered | library/uip/uip.c:1290-1381 | a SYN is answered with SYN and acknowledgement of the number after its own, under our initial number, and just that is then in transit; the segment size is the peer's, at most ours |
| TcpPhases.ConnectSends | library/uip/uip.c:763-783 | an active open sends its SYN on the second tick |
| TcpPhases.PassiveOpens | library/uip/uip.c:1469-1486 | the acknowledgement of our SYN, and nothing else, establishes a passive open; data with it is taken and acknowledged |
| TcpPhases.ActiveOpens | library/uip/uip.c:1488-1546 | a SYN that acknowledges ours establishes an active open and is acknowledged; anything else is refused with a reset |
| TcpPhases.PeerEnds | library/uip/uip.c:1561-1590 | the peer's FIN is taken, with the data before it, and ours sent, if nothing is in transit; otherwise the segment is ignored |
| TcpPhases.LastAckEnds | library/uip/uip.c:1723-1730 | the acknowledgement of our FIN ends a connection that the peer closed first |
| TcpPhases.ClosesEitherWay | library/uip/uip.c:1732-1790 | after our FIN, the peer's acknowledgement and its FIN may come in either order or at once: the record ends up the same, waiting, with both streams counted to their ends |
| TcpPhases.AckRestarts | library/uip/uip.c:1424-1461 | an acknowledgement restarts the timer; the round-trip estimate is renewed only if nothing was sent twice |
| TcpPhases.CountsAnew | library/uip/uip.c:1680-1700 | retransmissions are counted anew after every acknowledgement or data in sequence |
| TcpPhases.QuietUntilDue | library/uip/uip.c:743-750 | nothing is sent by itself until the timer has run down |
| TcpPhases.BacksOff | library/uip/uip.c:757-762 | the waits between retransmissions are 3, 6, 12, 24 and then 48 ticks |
| TcpPhases.GivesUp | library/uip/uip.c:743-756 | after the last one the peer is sent a reset and the server told |
| TcpPhases.PollServes | library/uip/uip.c:803-809 | with nothing in transit, a tick brings the next piece, or the FIN behind the last |
| TcpPhases.WindowObeyed | library/uip/uip.c:1622-1627 | new data stays within the window just advertised, zero meaning the initial segment size |
| TcpPieces.StaleBytes | library/uip/uip.c:1688-1712 | when a segment makes the server offer a shorter piece than the one in transit, the packet carries bytes of that segment behind it |
| TcpPieces.TickStale | library/uip/uip.c:785-793 | when a due retransmission does, the packet carries whatever the shared buffer holds behind it |
| TcpPieces.LongerArrives | library/uip/uip.c:1688-1712 | when a segment makes the server offer a longer piece, the packet is right but the server's record counts the longer piece |
| TcpPieces.LongerResent | library/uip/uip.c:785-793 | the same for a due retransmission |
| TcpPieces.RunsAhead | library/uip/httpd.c:79-125 | once that is acknowledged, the next packet carries the response that many bytes further on than its sequence number says |
| TcpPieces.ShrunkWindowIsUnsafe | library/uip/uip.c:1688-1712 | a run from the SYN on in which a packet carries bytes that are not in the response |
| TcpProgress.TickCounts | library/uip/uip.c:743-770 | each tick of silence brings the end one tick nearer |
| TcpProgress.Silence | library/uip/uip.c:743-770 | with something in transit and a silent peer, the connection closes after exactly the ticks left and not before |
| TcpProgress.SilenceBound | library/uip/uipopt.h:280-297 | that is 246 ticks beyond the timer, 99 in the SYN phases |
| TcpProgress.WaitEnds | library/uip/uip.c:730-742 | FIN_WAIT_2 and TIME_WAIT end after an exact number of ticks, at most 256, even if the 8-bit timer wraps |
| TcpProgress.AckMovesOn | library/uip/httpd.c:79-139 | the acknowledgement of a piece brings the next one, or the FIN |
| TcpProgress.Delivery | library/uip/httpd.c:61-140 | a peer that acknowledges every packet has, after one acknowledgement per piece, acknowledged the whole response |
| TcpProgress.RequestAnsweredExactly | library/uip/httpd.c:89-125 | a request is always taken; the response starts if and only if the connection was established before, the request does not end the peer's stream, and a segment size is known |
| TcpProgress.RequestAnswered | library/uip/httpd.c:89-125 | a response that starts is delivered, whatever the window was: one acknowledgement for the first piece, which may be shorter, and one for each full piece of the rest |
| TcpProgress.EarlyRequestUnanswered | library/uip/uip.c:1474-1484 | a request on the acknowledgement of the SYN is taken and acknowledged, and over every run without new data or a FIN no packet carries data |
| TcpProgress.NoMssNoData | library/uip/uip.c:1622-1627 | without a segment size no packet of any run carries data |
| TcpProgress.MuteFromListen | library/uip/uip.c:1314-1344 | a connection starts like that exactly if the SYN brings no segment size, or zero, and the slot has none left from before |
| TcpEngine.Uip.HttpdAppcall | library/uip/httpd.c:61-140 | the in-place callback does what the state machine's application step does |
| TcpEngine.Uip.SendChunk | library/uip/httpd.c:107-125 | copies the next piece to the buffer and records its length |
| TcpEngine.Uip.UipSend | library/uip/uip.c:1890-1899 | the piece is at the front of the buffer and the rest of it unchanged |
| TcpEngine.Uip.AppSend | library/uip/uip.c:1643-1715 | resets, closes, sends new data cut to the segment size, or sends again what is in transit |
| TcpEngine.Uip.TakeAck | library/uip/uip.c:1424-1461 | an acknowledgement of everything in transit advances sndNxt, clears len and restarts the timer |
| TcpEngine.Uip.OpenPassive | library/uip/uip.c:1290-1380 | the SYN fills the record and is answered, with the segment size option in front of the buffer |
| TcpEngine.Uip.OpenActive | library/uip/uip.c:447-468 | follows the state machine |
| TcpEngine.Uip.Input | library/uip/uip.c:1383-1790 | an incoming segment changes record and buffer, and is answered, as the state machine says |
| TcpEngine.Uip.InSynRcvd | library/uip/uip.c:1469-1486 | its SYN_RCVD part |
| TcpEngine.Uip.InSynSent | library/uip/uip.c:1488-1546 | its SYN_SENT part |
| TcpEngine.Uip.InEstablished | library/uip/uip.c:1549-1721 | its ESTABLISHED part |
| TcpEngine.Uip.PeerCloses | library/uip/uip.c:1561-1577 | the peer's FIN with nothing in transit |
| TcpEngine.Uip.InFinWait1 | library/uip/uip.c:1732-1759 | its FIN_WAIT_1 part |
| TcpEngine.Uip.InFinWait2 | library/uip/uip.c:1761-1776 | its FIN_WAIT_2 part |
| TcpEngine.Uip.Timer | library/uip/uip.c:708-811 | a tick changes record and buffer, and sends, as the state machine says |
| TcpEngine.Uip.SendSyn | library/uip/uip.c:1362-1381 | a SYN leaves its segment size option in front of the buffer and the rest unchanged |
| ConnTable.DistinctUpdate | library/uip/uip.c:1190-1198 | a slot whose identity no other connection has keeps identities distinct |
| ConnTable.FreeIsUnique | library/uip/uip.c:1280-1292 | the rule for the slot of a new connection determines it |
| ConnTable.TriedCount | library/uip/uip.c:413-418 | the first 41 ports tried are different |
| ConnTable.SomeFree | library/uip/uip.c:413-429 | so one of them is unused |
| ConnTable.Table.Demux | library/uip/uip.c:1190-1198 | the connection a packet belongs to: there is at most one, and it is found |
| ConnTable.Table.FindFree | library/uip/uip.c:1280-1292 | the first closed slot, else the first of the longest waiting ones, never one in real use |
| ConnTable.Table.Arrive | library/uip/uip.c:1188-1312 | a packet belongs to an existing connection, opens one, is refused exactly if it is no SYN for a port listened to, or finds no room; identities stay distinct |
| ConnTable.Table.NextPort | library/uip/uip.c:411-429 | ends within 41 steps at the first port after the last one that no connection uses |
| ConnTable.Table.Connect | library/uip/uip.c:406-469 | takes that port and a free slot; identities stay distinct |
| ConnTable.Table.Progress | library/uip/uip.c:1464-1790 | phase and timer of a connection change, its identity not |
| TcpNet.TableStep | library/uip/uip.c:1188-1312 | how an event changes the table: the connection that processes it keeps its identity and gets the phase and timer of the state machine, a new one takes a free slot under an identity that no other has, nothing else changes |
| TcpNet.NetKeeps | library/uip/uip.c:708-1790 | every event keeps identities distinct and every connection's counting |
| TcpNet.NetSafe | library/uip/uip.c:708-1790 | so does every run of all connections together |
| TcpNet.StepSeen | library/uip/uip.c:1188-1200 | an event does to a connection what the state machine does with what the connection sees of it |
| TcpNet.Projection | library/uip/uip.c:708-1790 | as long as its slot is not taken by a new one, each connection goes through a run of the state machine, whatever the others do with the shared buffer meanwhile |
| TcpNet.NetEndToEnd | library/uip/httpd.c:61-140 | in the midst of all others, the peer of a connection opened by a SYN assembles a prefix of the response, with windows of zero or at least the initial segment size |
| TcpNet.NetAnswers | library/uip/uip.c:1200-1262 | a connection opened by a packet is answered with SYN and acknowledgement; a packet that belongs to none and is no SYN for a port listened to is answered with a reset, unless it is one |
| TcpNet.NetClosed | library/uip/uip.c:1188-1196 | a closed slot is not in use, and nothing is sent for it, until it is opened again |
| TcpNet.NetReset | library/uip/uip.c:1388-1396 | a reset frees the slot of its connection, for good unless it is opened again |
| ConnTable.Table.Listen | library/uip/uip.c:529-538 | replaces one unused entry by the port |
| ConnTable.Table.Unlisten | library/uip/uip.c:518-527 | replaces one entry with the port by an unused one |
| Checksum.FoldUnique | library/uip/uip.c:280-308 | a 16-bit number congruent to the sum modulo 65535, and zero only for zero, is the one's complement sum |
| Checksum.AddWordFolds | library/uip/uip.c:292-296 | adding a word with end-around carry adds it to the sum |
| Checksum.WordSumSplit | library/uip/uip.c:280-308 | sums of parts split at an even place add up |
| Checksum.Chksum | library/uip/uip.c:280-308 | the loop computes the one's complement sum of the big-endian words, an odd tail padded with zero |
| Checksum.ChksumComposes | library/uip/uip.c:342-350 | computed in two parts split at an even place, the result is the same |
| Checksum.PassesExactly | library/uip/uip.c:941 | the receive test accepts exactly the multiples of 65535 |
| Checksum.FilledPasses | library/uip/uip.c:1844-1863 | a field computed from the rest and stored little-endian makes the whole pass |
| Checksum.IpChksum | library/uip/uip.c:318-326 | what the IP checksum function returns |
| Checksum.FillIpChksum | library/uip/uip.c:1860-1863 | after the send path has filled the field, the header passes the receive test |
| Checksum.TcpSumCovers | library/uip/uip.c:329-353 | length, protocol, addresses and segment as the code adds them up are the sum of the bytes of the pseudo-header of section 3.1 of RFC 793 and of the segment |
| Checksum.UpperLayerChksum | library/uip/uip.c:329-353 | the one's complement sum of the bytes of pseudo-header and segment |
| Checksum.FillTcpChksum | library/uip/uip.c:1844-1846 | after the send path has filled the field, the bytes of pseudo-header and segment sum up to a multiple of 65535, and pass the receive test |
| IcmpEcho.ZeroEitherWay | library/uip/uip.c:999-1003 | a sum is a multiple of 65535 in one byte order exactly if it is in the other |
| IcmpEcho.Reply | library/uip/uip.c:997-1003 | the adjusted field keeps the one's complement sum of the message |
| IcmpEcho.ReplyCorrectExactly | library/uip/uip.c:997-1003 | a correct request gives a correct reply if and only if some byte other than type and checksum is non-zero |
| IcmpEcho.EmptyRequestFails | library/uip/uip.c:997-1003 | the request of eight bytes that fails: it is correct, and its reply is not |
| Arp.UpdateMeans | library/uip/uip_arp.c:157-218 | after an update its own address is found with the new hardware address; every other address is found as before, but for one evicted entry of greatest age in a full table |
| Arp.SweepMeans | library/uip/uip_arp.c:141-155 | after the timer exactly the addresses with expired entries are gone |
| Arp.GoneAfter | library/uip/uip_arp.c:141-155 | over every run of ticks, with any updates of other entries in between, an entry just stamped and not renewed is gone if and only if 120 ticks have passed and the stamp is before 136; until then it is unchanged |
| Arp.Cache.Timer | library/uip/uip_arp.c:141-155 | removes exactly the entries in use whose age has reached 120 |
| Arp.Cache.FindVictim | library/uip/uip_arp.c:164-211 | the entry an update overwrites |
| Arp.Cache.Update | library/uip/uip_arp.c:157-218 | overwrites that entry and no other; at most one entry per address |
| Arp.Cache.ArpIn | library/uip/uip_arp.c:277-324 | records whoever asks for our address or answers us, and answers requests |
| Arp.Cache.ArpOut | library/uip/uip_arp.c:358-420 | sends to the hardware address found for the next hop, or asks for it |
| Arp.Cache.NextHopIs | library/uip/uip_arp.c:368-377 | a destination is resolved itself exactly if it differs from our address in no bit of the netmask; the router is, otherwise |
| Arp.Exchange | library/uip/uip_arp.c:277-420 | two hosts: what one asks for the other answers, then both know each other and the first sends to the second |
| RxRing.FrameArrives | earth/macb.c:332-380 | a frame stored behind the others, even behind one cut short, becomes the last of the queue; the beginning of one adds nothing |
| RxRing.FramesGrow | earth/macb.c:332-380 | whatever the hardware adds, the complete frames already there stay the oldest |
| RxRing.FrameIsFront | earth/macb.c:350-366 | a frame is the front of its buffers, one behind the other |
| RxRing.ScanEof | earth/macb.c:350-352 | the first end of frame found ends the oldest complete frame |
| RxRing.ScanCut | earth/macb.c:344-348 | a start of frame behind an unfinished one drops that one and no complete frame |
| RxRing.ScanOpen | earth/macb.c:340-341 | an unused descriptor means no complete frame |
| RxRing.Ring.constructor | earth/macb.c:213-236 | at the start the hardware owns all descriptors, each with its buffer's address, the last one with the wrap bit |
| RxRing.Ring.ReclaimRxBuffers | earth/macb.c:303-324 | exactly the descriptors up to the new tail go back to the hardware, across the end of the ring too, addresses and wrap bit untouched |
| RxRing.Ring.CopyFrame | earth/macb.c:351-366 | the bytes of the frame in order, in two pieces if it wraps |
| RxRing.ConsumedFrames | earth/macb.c:326-397 | the complete frames of a queue are those taken from its front, in order, and then those left |
| RxRing.ConsumedGrows | earth/macb.c:332-380 | what the hardware adds behind changes nothing about what was taken in front |
| RxRing.ConsumedJoins | earth/macb.c:326-397 | taking and then taking more is taking both |
| RxRing.Fifo | earth/macb.c:326-397 | a driver in step with the hardware has handed out, each once and in the order stored, the frames of all that was ever stored, except those still in the ring |
| RxRing.StaysInStep | earth/macb.c:303-324 | giving descriptors back, of frames cut short or of a frame handed out, keeps driver and hardware in step |
| RxRing.HwGoesOn | earth/macb.c:332-343 | so does the hardware storing one more fragment at its own place |
| RxRing.Ring.StartFrame | earth/macb.c:344-348 | gives back exactly the frame that another one cuts short; the new tail is where that one starts |
| RxRing.Ring.Deliver | earth/macb.c:350-370 | copies the complete frame out and notes its end |
| RxRing.Ring.GiveBack | earth/macb.c:389-391 | exactly the descriptors of the frame just copied go back, and driver and hardware stay in step |
| RxRing.Ring.RecvOnce | earth/macb.c:326-380 | gives back frames cut short at the front and nothing else, and stays in step with the hardware; then the oldest complete frame is at the front and its bytes are in the packet, or at most the beginning of a frame is left, which keeps its descriptors |
| RxRing.Ring.HwReceive | earth/macb.c:332-343 | the hardware stores a fragment in its own next descriptor, unless that is in use: where the address word says, going back to the first descriptor where the wrap bit says so |
| RxRing.Ring.MacbRecv | earth/macb.c:385-397 | of all that was in the ring or is added meanwhile, frames cut short in front go back to the hardware; then either the oldest complete frame is returned byte for byte and goes back too, or every frame stored before the call had been handed out; everything else is still in the ring, and driver and hardware stay in step |

## Left out

- TreeDisk.Treedisk.Write: offset 2^32 - 1 is excluded; the successor does not fit a word, the recorded size becomes 0 there and the walk descends a tree of the wrong height.
- Treedisk: the store below never fails, and what is left on the disk when a write panics halfway is not stated; the original halts then.
- Mmu and Kernel: process identifier 16; the tables indexed by it have 16 rows, so slot 15 of the process table is never used.
- Mmu.SoftTlb.Free: the loaded process is not freed.
- Mmu.SoftTlb.Map: pages are entered for processes that are not loaded, as the loader does, and for execution pages that are not mapped yet.
- Kernel.System.ProcFree: the running process is not freed; system processes free others.
- Kernel.System.ProcFreeUsers: called while a system process runs, which is who calls it.
- ConnTable.Table.Progress: any phase and timer are allowed; which ones the state machine gives is said by `TcpNet.TableStep`.
- Kernel.System.ProcAlloc: without an unused slot the original halts, so one is required.
- Kernel: exceptions halt the kernel; privilege levels, timers, the tty and the boot code are not part of this model.
- Kernel.System.ProcSend: what a process that is killed while it waits was going to send or receive is not logged.
- TcpEngine.Uip.Input: urgent data, and data behind TCP options, which the original leaves further back in the buffer.
- TcpEngine.Uip.InEstablished: urgent data and stopped connections.
- Tcp: urgent data, uip_stop and uip_restart, polls of single connections, malformed header lengths and option lists, and the values of the round-trip estimator (any 8-bit value is allowed).
- Tcp: a segment's data is at the front of the application buffer; for data behind TCP options the original leaves it further back.
- TcpEngine: sequence numbers are 32-bit numbers there; `SeqNumbers` relates them to the bytes.
- Httpd: the response is any text of fewer than 65536 bytes instead of the fixed page.
- TcpNet: the classes `Table` and `Uip` are combined by their specifications, not as objects; the ports listened to, and the port an active open finds, come with the event.
- PageTable.Mapper.SetupIdentityRegion: a region must lie within one second-level table, which the original does not check; the calls it makes do. There is one root table, the kernel's.
- LifeCycle.Spawn: the program is read from a disk given as a value; the original reads it through the file server, with other processes running in between.
- Loader.LoadAndSwitch: at most 16 arguments, as for `LoadApp`.
- Loader.LoadApp: the file starts at a block boundary of the disk, as the original assumes, and there are at most 16 arguments, for which the argument page has room; loading the kernel itself is left out.
- Checksum.UpperLayerChksum: the length plus 6 fits 16 bits, as in a buffer of 420 bytes.
- IcmpEcho.Reply: messages of other types are dropped before; the echo has its eight-byte header.
- RxRing: the hardware contract is assumed: frames of consecutive descriptors, at most four, all buffers but the last one full; control words carry a length only with the end of a frame. The hardware stores fragments between two tries, not while the driver scans.
- Arp: what lookups give once the 8-bit tick counter has wrapped, apart from `GoneAfter`; and addresses with a zero half, which the original stores but never updates.
- IP reassembly, UDP, IPv6, `macb_send`, the disk drivers, the servers and user programs, the unfinished lab exercises and the tools are left out.
