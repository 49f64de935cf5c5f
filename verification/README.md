# Hearth: models and proofs

Hearth is a small KVM virtual machine monitor with a bare-metal Doom guest. These modules model the
protocols between its threads, its devices, KVM and the guest, and the algorithms of the guest's C
library, and prove what they are for. `dafny verify dfyconfig.toml` checks all of it.

Ioctls, signals and mutex sections are steps of state machines; device and guest objects updated in place
are classes whose methods are proved against specification functions; theorems about whole runs are lemmas
about those functions.

| area | modules | main results |
|---|---|---|
| VGA adapter | `VgaRegisters`, `CoalescedRing`, `VgaDisplay`, `VgaDevice` | incremental redraw equals a full one; queued writes are invisible |
| RFB server | `PixelFormats`, `Rfb`, `RemoteDisplay`, `RemoteSession` | the remote picture mirrors the frame, and through it the screen |
| vcpu control | `VmControl`, `NetRx` | no lost stop, kick or received frame |
| virtio | `Virtqueue`, `VringDevice`, `GuestBuffers`, `VirtioBlk` | order and conservation of chains; cuts into descriptors do not matter |
| keyboard | `I8042`, `Keys`, `KeyPath` | FIFO and edges; every mapped key reaches Doom, in order |
| memory | `MemorySlots`, `BootLayout` | splitting slots moves nothing; the guest finds everything and its heap is clear of it |
| guest library | `Qsort`, `NumText`, `Printf`, `Allocator`, `Sleep` | sorting, printing and parsing, truncation, separate blocks, no lost wakeup |
| shared | `Common`, `Arith`, `Bits`, `Endian` | words, division, bit fields, little-endian numbers |

## Conventions

- Bytes and words are bounded integers and bit operations are written with division and remainder. Where
  the code's integers wrap or are checked (ring and queue indices, sizes, timer loads, disk offsets) the
  model does the same; counters that would take 2^64 steps to wrap (frames, ticks) are unbounded.
- `DirtyLog::fetch`, a section under a mutex and the outcome of `KVM_RUN` are single steps with the
  semantics their comments give. The coalesced ring is finer: the end index is read in one step and each
  entry applied in another, while KVM goes on queueing.
- A driver is assumed to keep to the queue size, to use sizes that divide 65536 with at most `num` chains
  outstanding, and to notify after posting a chain and after making a queue with posted chains ready. What a
  chain reads back as, from either side, is stated for buffers that do not overlap. A program is assumed to free and resize only what it holds. A
  `qsort` comparator is assumed to be a total preorder. The tick rate of the guest's timer is assumed positive.

## Where the code promises less than one might think

- `malloc` rounds the size up without a check: a request within 15 bytes of the largest `size_t` wraps to 0
  and is granted. `Allocator.HugeRequestGetsNothing` gives the case, `Allocator.MallocGivesRoomExactly` and
  `Allocator.PayloadHoldsRequest` the exact condition.
- `calloc` and `realloc` of such sizes write past the block they got. `Allocator.CallocOverrunsExactly` and
  `Allocator.ReallocOverrunsExactly` give the exact conditions, `Allocator.HugeCallocOverruns` an input.
- A block request whose last writable buffer is empty panics for want of a status byte, but only after its
  transfer has changed the disk or the data buffers (`VirtioBlk.VirtioBlk.Process`).
- `log_dirty_pages` of an empty range on a page boundary finds no slot to log and panics after the region
  has been split (`MemorySlots.SucceedsExactly`); and for a region that turns out to be shared it returns an
  error only after splitting it (`MemorySlots.SplitKeepsMemory`).
- The boot command line is not written with a terminator. It has one all the same: memory is zero up to
  the next structure, and when its length is a multiple of the page size the memory map's first byte is
  zero (`BootLayout.CmdlineEnds`).
- Queue places are unique exactly for sizes that divide 65536 (`Virtqueue.CollisionFreeSizes`); the device
  accepts any size the driver writes.

## Model

| member | source | states |
|---|---|---|
| `VgaRegisters.ChangesAskForRepaint` | src/arch/x86_64/vga.rs:147-181 | after any trapped accesses, either a repaint is asked for or palette and display-on bit are what they were; no access takes a request back |
| `VgaRegisters.RepaintIsInvisible` | src/arch/x86_64/vga.rs:183-207 | the repaint flag is for frontends: no read and no other register depends on it |
| `VgaRegisters.PerformAllAppend` | src/arch/x86_64/vga.rs:257-272 | the bytes of several accesses act one after another |
| `VgaRegisters.DacLoad` | src/arch/x86_64/vga.rs:164-173 | up to 768 bytes written to the data port land in consecutive palette places from the write cursor on, wrapping after the last colour, six bits each; the cursor ends after them and nothing else changes |
| `VgaRegisters.DacScan` | src/arch/x86_64/vga.rs:183-197 | reading the data port returns consecutive palette bytes from the read cursor on; afterwards the cursor stands after them and every other register is as before |
| `VgaRegisters.LoadedScansBack` | src/arch/x86_64/vga.rs:164-197 | places just loaded scan back as the bytes loaded, cut to six bits |
| `VgaRegisters.DacReadBack` | src/arch/x86_64/vga.rs:164-197 | a palette written through the ports from any colour on is read back through the ports, six bits of each byte |
| `CoalescedRing.QueuedAppend` | src/main.rs:290-311 | an entry stored at the end while there is room comes after what is queued, around the end of the page too |
| `CoalescedRing.QueuedUntouched` | src/main.rs:290-311 | it changes none of the entries before it |
| `CoalescedRing.QueuedHead` | src/main.rs:303-307 | advancing the read index drops exactly the oldest entry |
| `CoalescedRing.EntriesAskForRepaint` | src/arch/x86_64/vga.rs:137-145 | applying queued entries, too, asks for a repaint when it changes the picture |
| `CoalescedRing.QueuedLater` | src/arch/x86_64/vga.rs:137-145 | a write queued behind others and applied later equals one applied at once by a device that is up to date |
| `CoalescedRing.StepKeeps` | src/main.rs:295-311 | each step of guest, KVM, device and frontends keeps: registers plus what waits in the ring equal the device that traps every write |
| `CoalescedRing.CoalescingIsInvisible` | src/main.rs:278-312 | in every run, with any ring-full pattern and a frontend draining at the same time, every reply and every frame is that of a device applying all writes in program order, and the entries applied are a prefix of those queued, each once and in order |
| `VgaDisplay.RowsCoverPages` | src/arch/x86_64/vga.rs:289-291 | the rows drawn for a range of pages hold every pixel of those pages and stay on the screen |
| `VgaDisplay.StoreKeeps` | src/main.rs:254-269 | a guest store leaves every client coherent: the pixel is right or its page is in the log |
| `VgaDisplay.RegistersKeep` | src/arch/x86_64/vga.rs:147-181 | a register change leaves every client coherent if it asks for a repaint when it shows |
| `VgaDisplay.FrameKeeps` | src/arch/x86_64/vga.rs:225-244 | starting a frame passes on to every other client what was owed to it, though it clears log and repaint flag |
| `VgaDisplay.BeginKeeps` | src/arch/x86_64/vga.rs:281-288 | after the locked part of a render all its wrong pixels lie in the rows it will draw |
| `VgaDisplay.PixelKeeps` | src/arch/x86_64/vga.rs:292-297 | drawing one pixel outside the lock keeps the client coherent |
| `VgaDisplay.WrongPixelsAreOwed` | src/arch/x86_64/vga.rs:225-299 | in every interleaving of stores, register writes and renders a pixel that differs from a full redraw is still owed: page dirty or unlogged, repaint set, stamp newer than seen, seen 0, or not read yet in this pass |
| `VgaDisplay.OneMoreRender` | src/arch/x86_64/vga.rs:225-299 | after any history, once the guest is quiet one more render gives exactly the full redraw, whatever other clients do meanwhile |
| `VgaDisplay.FirstRenderDrawsAll` | src/arch/x86_64/vga.rs:239-243 | a client that has seen nothing is drawn every row |
| `VgaDevice.Vga.Write` | src/arch/x86_64/vga.rs:147-181 | a byte written to a port changes the fields as the register function says |
| `VgaDevice.Vga.Read` | src/arch/x86_64/vga.rs:183-207 | a byte read returns the register and moves the DAC cursor or resets the flip-flop |
| `VgaDevice.Vga.WriteEntry` | src/arch/x86_64/vga.rs:139-143 | an entry is written byte by byte to ports one after the other, at most eight bytes |
| `VgaDevice.Vga.ApplyQueuedWrites` | src/arch/x86_64/vga.rs:137-145 | what was queued when the end index was read is applied oldest first; the ring is then empty |
| `VgaDevice.Vga.Handle` | src/arch/x86_64/vga.rs:257-272 | a trapped access first applies what is queued, then its bytes in order, ports counting up within a unit and starting over for the next, replies in place |
| `VgaDevice.Vga.WrittenPages` | src/arch/x86_64/vga.rs:225-244 | a new frame stamps the pages of the bitmap, or all for a repaint, and returns the range from the first changed page to the last |
| `VgaDevice.Draw` | src/arch/x86_64/vga.rs:289-298 | exactly the pixels of the rows are drawn, through the colours copied or black, and the rows are returned |
| `VmControl.PutKeeps` | src/main.rs:619-638 | a step of one thread keeps the invariant of all as long as the thread stays registered, keeps its own part, and does not come back from having left |
| `VmControl.AllSignalled` | src/main.rs:64-69 | signalling every registered thread after storing the flag keeps the invariant with the stop counted as sent |
| `VmControl.KickSendKeeps` | src/main.rs:72-77 | sending the signal of a kick keeps the invariant: until the request is taken the thread it was sent to has yet to look or is summoned |
| `VmControl.ActionKeeps` | src/main.rs:609-638 | every step of every thread, stop, kick and signal delivery keeps the invariant |
| `VmControl.NoLostStop` | src/main.rs:63-69 | after stop() no thread past its check is left without a pending signal or immediate_exit, and one in the guest has a signal |
| `VmControl.StopIsPrompt` | src/main.rs:622-638 | after stop() each step of a thread in the loop brings it nearer the exit and none enters the guest again |
| `VmControl.NoLostKick` | src/main.rs:71-77 | after kick(), until a thread takes the request, every thread a kick signalled and that is past its check has a signal or immediate_exit, and in the guest a signal, whatever stops are stored and threads end meanwhile; the first registered thread, too, has yet to look or is summoned unless a thread has ended |
| `VmControl.SignalsReachRegisteredOnly` | src/main.rs:87-97 | signals go only to registered threads that have not ended and have set their kvm_run pointer |
| `VmControl.Control.Stop` | src/main.rs:64-69 | sets the flag and signals exactly the registered threads |
| `VmControl.Control.Kick` | src/main.rs:72-77 | sets the flag and signals the first registered thread, if any |
| `VmControl.Control.TakeDevicesPending` | src/main.rs:83-85 | returns the flag and clears it |
| `VmControl.Control.UnregisterVcpuThread` | src/main.rs:93-96 | removes the thread from the list and no other |
| `NetRx.TapKeeps` | src/virtio/net.rs:56-66 | a frame appended or dropped at 256, with a kick due if the backlog was empty, keeps order, bound and the wakeup owed |
| `NetRx.ControlKeeps` | src/main.rs:619-638 | vcpu, stop and kick steps keep order and the wakeup owed |
| `NetRx.NotifyKeeps` | src/virtio/mmio.rs:57-73 | a driver notification, now a thread at the queue, keeps the wakeup owed |
| `NetRx.ServeKeeps` | src/virtio/mmio.rs:64-71 | each step of the device loop, its last check included, keeps order and the wakeup owed |
| `NetRx.NoStrandedFrame` | src/virtio/net.rs:44-69 | in every interleaving of tap thread, vcpu threads and a driver that notifies, with returning a chain failing at any point: if a frame is pending, a chain available and the queue ready, a wakeup is owed or the machine is stopping; with nobody looking it is a stored request the first vcpu thread has yet to see or is leaving the guest for |
| `NetRx.DeliveredInOrder` | src/virtio/net.rs:56-66 | frames taken from the backlog are, in order, a prefix of those kept, and all of them are delivered unless the machine is stopping; at most one is in hand, and a frame is dropped only at 256 pending |
| `GuestBuffers.Scatter` | src/virtio/net.rs:117-125 | a frame is poured into the buffers in order, up to their total size, also where a driver let them overlap; where they do not it fills them and leaves every other byte of memory |
| `GuestBuffers.FillStep` | src/virtio/net.rs:118-125 | one more buffer takes its part without disturbing the others |
| `GuestBuffers.PouringFills` | src/virtio/net.rs:117-125 | pouring buffer after buffer into buffers that do not overlap leaves the data readable across them, what was not reached as it was, and all other memory untouched |
| `Virtqueue.Walk` | src/virtio/queue.rs:97-112 | a walk visits at most as many descriptors as the queue has |
| `Virtqueue.WalkFollowsLinks` | src/virtio/queue.rs:96-112 | for any links the walk starts at the head, follows them, and stops at a descriptor without a next one or at the limit |
| `Virtqueue.WalkFindsChain` | src/virtio/queue.rs:96-112 | a chain the driver built, no longer than the queue, is walked whole |
| `Virtqueue.CollisionFreeSizes` | src/virtio/queue.rs:94-121 | any num entries in a row have places of their own exactly when num divides 65536 |
| `Virtqueue.PublishKeeps` | src/virtio/queue.rs:85-95 | publishing a chain keeps the invariant: every chain not yet taken is still in its place |
| `Virtqueue.PopKeeps` | src/virtio/queue.rs:85-115 | taking a chain keeps the invariant: chains taken are a prefix of those published |
| `Virtqueue.PushKeeps` | src/virtio/queue.rs:118-128 | returning a chain keeps the invariant: every used entry the driver has not read is still in its place |
| `Virtqueue.OrderAndConservation` | src/virtio/queue.rs:85-128 | over unbounded runs with 16-bit wrap: chains taken are a prefix of those published, the k-th returned is the k-th taken, the driver reads exactly what was returned, and index comparison says waiting exactly when something waits |
| `VringDevice.ServeIsRun` | src/virtio/mmio.rs:64-71 | what the device loop does to the rings is a run of that system |
| `VringDevice.VringQueue.PopAvail` | src/virtio/queue.rs:85-115 | returns the chain the rings offer next, or that it points outside memory, and advances the index only for a chain |
| `VringDevice.VringQueue.Follow` | src/virtio/queue.rs:93-112 | collects the readable bytes and writable buffers of the walk, in order |
| `VringDevice.VringQueue.PushUsed` | src/virtio/queue.rs:118-128 | stores the element at the wrapped place and then advances the index |
| `VringDevice.VirtioMmio.QueueNotify` | src/virtio/mmio.rs:57-73 | serves chains in order, each returned with the length its processing gave and one interrupt, until none waits or the device has no more work; stops at a chain outside memory, or at one whose processing fails, with that one taken but not returned; nothing on a queue that is not ready or has no size |
| `VirtioBlk.DiskOffset` | src/virtio/blk.rs:35-42 | an offset exactly when sector and length lie within the disk, although every step is checked for 64-bit overflow |
| `VirtioBlk.VirtioBlk.Read` | src/virtio/blk.rs:44-52 | the buffers are filled one after the other from the sector, or nothing changes past the end |
| `VirtioBlk.VirtioBlk.Write` | src/virtio/blk.rs:54-57 | the bytes replace the disk from the sector on, or nothing changes past the end |
| `VirtioBlk.VirtioBlk.Process` | src/virtio/blk.rs:88-114 | a chain without a header or a writable buffer is an error and changes nothing; otherwise disk, data buffers and status byte change as specified, and if the status buffer is empty the transfer has been done when the code panics |
| `VirtioBlk.GuestView` | src/virtio/blk.rs:88-114 | the guest finds its status, the answer across the data buffers with the rest of them as it was, and all other memory untouched |
| `VirtioBlk.CutsDoNotMatter` | src/virtio/blk.rs:88-114 | the same bytes and room cut into descriptors in any two ways give the same disk, status, length and answer |
| `VirtioBlk.ReadsBackWrites` | src/virtio/blk.rs:44-57 | bytes written through any chain are read back through any other after any sequence of requests in between that do not write those sectors |
| `VirtioBlk.AllAvoidedStays` | src/virtio/blk.rs:88-114 | a sequence of requests that do not write a range of the disk leaves it as it was |
| `VirtioBlk.RefusedChangesNothing` | src/virtio/blk.rs:86-113 | a refused request changes neither disk nor data buffers and counts one byte written |
| `PixelFormats.FormatSurvivesTheWire` | src/frontend/rfb.rs:86-109 | a pixel format written is read back |
| `PixelFormats.ReceivedValue` | src/frontend/rfb.rs:121-133 | a client puts the low bits of the pixel value together again in either byte order |
| `PixelFormats.ClientGetsComponent` | src/frontend/rfb.rs:121-133 | for every format with channels of their own a client extracts each component scaled to its channel |
| `PixelFormats.DefaultIsExact` | src/frontend/rfb.rs:80-84 | in the format the server offers a colour comes through unchanged |
| `Rfb.UpdateParses` | src/frontend/rfb.rs:323-332 | a client finds in an update one Raw rectangle of whole rows with the pixels as its data |
| `Rfb.CutEncoded` | src/frontend/rfb.rs:330-332 | the data cut into pixels is the encoded pixels, in order |
| `Rfb.UpdateCompletes` | src/frontend/rfb.rs:320-334 | drawing the changed rows into an encoded old frame gives the whole new frame encoded |
| `Rfb.ActionKeeps` | src/frontend/rfb.rs:299-336 | each request, render and drawn update keeps the mirror |
| `Rfb.PictureMirrorsFrame` | src/frontend/rfb.rs:286-336 | for every sequence of requests, format changes and renders: whenever seen is not 0 the client picture, with what is on the wire drawn, is the whole frame in the current format; updates never outnumber requests |
| `Rfb.Sender.Receive` | src/frontend/rfb.rs:301-314 | a format change makes the client unseen and leaves a request pending; a request is remembered, a full one makes the client unseen |
| `Rfb.Sender.BuildUpdate` | src/frontend/rfb.rs:322-336 | the bytes built are the update of those rows, and the request is answered |
| `RemoteDisplay.RenderKeepsItsPromise` | src/frontend/rfb.rs:42-46 | whatever the guest and other clients do during a render, only the rows returned change, all are drawn for an unseen client, and it has seen a frame afterwards |
| `RemoteDisplay.RenderFinishes` | src/arch/x86_64/vga.rs:281-299 | every render that begins can be finished with the guest quiet |
| `RemoteSession.ConnectionStarts` | src/frontend/rfb.rs:286-300 | a connection made to a machine with any history starts with the sender's frame tied to its display client |
| `RemoteSession.FinishIsEnabled` | src/frontend/rfb.rs:320-336 | a render that has drawn its last pixel has kept what a display promises, so the sender can go on with it |
| `RemoteSession.MoveKeeps` | src/frontend/rfb.rs:299-336 | every step of guest, other clients, network and sender keeps frame and seen of the sender those of its display client, before and during a render |
| `RemoteSession.RemoteWrongPixelsAreOwed` | src/frontend/rfb.rs:299-336 | in every joint run of machine and connection, between renders: once the client has seen a frame its picture, with what is on the wire drawn, encodes a frame of which every pixel that differs from a full redraw is still owed |
| `RemoteSession.RemoteClientSeesScreen` | src/frontend/rfb.rs:286-336 | from any joint history: one more render during which the guest is quiet, whatever else happens meanwhile, and its update make the remote picture an encoding of the whole screen |
| `I8042.PushAllExtends` | src/arch/x86_64/i8042.rs:88-93 | pushing keeps an empty output meaning an empty queue, and appends |
| `I8042.StepIsFifo` | src/arch/x86_64/i8042.rs:206-243 | every access and key event keeps the output filled and the line up to date, appends its answers to the FIFO, and a data read returns the oldest byte |
| `I8042.OneEdgePerByte` | src/arch/x86_64/i8042.rs:95-111 | while interrupts are enabled the line rises once for each byte that becomes the output |
| `I8042.ReadsWhatWasPushed` | src/arch/x86_64/i8042.rs:106-111 | in every run the bytes read and those still there are those pushed, in order, less those a keyboard reset cleared |
| `I8042.EdgesMatchBytes` | src/arch/x86_64/i8042.rs:95-111 | over a run with interrupts enabled edges and bytes that became the output match in number |
| `I8042.Controller.TakeData` | src/arch/x86_64/i8042.rs:106-111 | returns the output or 0, drops the line, and only then loads the next byte |
| `I8042.Controller.RunControllerCommand` | src/arch/x86_64/i8042.rs:127-149 | controller commands change configuration, pending parameter and FIFO as specified |
| `I8042.Controller.RunKeyboardCommand` | src/arch/x86_64/i8042.rs:161-203 | keyboard commands and their parameters are answered as specified; a reset clears the queue but not the output |
| `I8042.Controller.Handle` | src/arch/x86_64/i8042.rs:206-229 | a port access is the step of the specification for its direction and port |
| `I8042.Controller.KeyEvent` | src/arch/x86_64/i8042.rs:232-243 | a key event pushes its codes only when scanning on an enabled port |
| `Keys.EventsAppend` | guests/doom/kvm.c:184-205 | decoding in two parts, carrying the prefix flag over, decodes the whole |
| `Keys.ScancodesDecode` | src/arch/x86_64/i8042.rs:245-311 | the codes of every key event decode to what it means to Doom, nothing for unmapped keys, and leave no prefix behind |
| `Keys.ScancodesInjective` | src/arch/x86_64/i8042.rs:245-311 | two events with the same codes are the same key and direction |
| `Keys.LettersAndDigits` | guests/doom/kvm.c:141-161 | a letter, shifted or not, arrives as the lower-case letter, a digit as itself |
| `KeyPath.NextEventIsFirst` | guests/doom/kvm.c:184-205 | taking events one at a time loses none and invents none |
| `KeyPath.ReadKeeps` | guests/doom/keyboard.c:45-49 | the handler reading a byte keeps what has been got, plus what is on the way, equal to what was typed |
| `KeyPath.KeysArrive` | guests/doom/kvm.c:184-205 | for every sequence of key events with interrupts between guest calls and no ring overflow, the keys Doom got are in order a prefix of those typed and mapped, all of them once nothing is on the way, and a byte in the controller always has an interrupt coming |
| `KeyPath.Keyboard.QueuePush` | guests/doom/keyboard.c:31-35 | the ring is a FIFO of 64 across 32-bit wrap; a byte that finds it full is lost |
| `KeyPath.Keyboard.KeyboardRead` | guests/doom/keyboard.c:37-43 | returns and removes the oldest byte, if any |
| `KeyPath.Keyboard.KeyboardInterrupt` | guests/doom/keyboard.c:45-49 | drains the controller into the ring, in order, as far as it fits |
| `KeyPath.Keyboard.GetKey` | guests/doom/kvm.c:184-205 | returns the next event with a Doom key, keeping the prefix flag between calls |
| `Qsort.Sort` | guests/doom/libc/stdlib.c:169-180 | for every count, element size, contents and total preorder: afterwards the elements are in order, a permutation of those before, and memory after them is untouched |
| `Qsort.Insert` | guests/doom/libc/stdlib.c:173-179 | one element moved down by a gap extends the part in order for that gap |
| `Qsort.ExchangeInserts` | guests/doom/libc/stdlib.c:174-179 | one exchange keeps everything but the moving element in order for the gap |
| `Qsort.ExchangedElements` | guests/doom/libc/stdlib.c:175-179 | swapping the bytes of two elements exchanges them and no other element changes |
| `Qsort.GapOneSorts` | guests/doom/libc/stdlib.c:172-174 | the last pass, with gap 1, is the whole order, and only that |
| `NumText.DigitsFit` | guests/doom/libc/stdio.c:232-237 | a number has at most n digits exactly when it is below the n-th power of its base |
| `NumText.BufferSuffices` | guests/doom/libc/stdio.c:232-237 | 64-bit numbers need at most 22, 20 and 16 digits in base 8, 10 and 16: the buffer of 24 is never exceeded |
| `NumText.NumberWidth` | guests/doom/libc/stdio.c:246-262 | a printed number is as wide as asked, or as wide as without padding if that is more |
| `NumText.PartsRead` | guests/doom/libc/stdlib.c:88-110 | spaces, a sign, an optional 0x and digits read as the value of the digits with the sign, wrapped to 64 bits, stopping where the digits do |
| `NumText.PrintedReadsBack` | guests/doom/libc/stdio.c:228-263 | for every 64-bit value and any sign, flags, width and precision strtoul gives back what was printed, in its own base or in base 0 when the prefix tells it, and reads all but padding |
| `NumText.LongReadsBack` | guests/doom/libc/stdlib.c:112-115 | for every signed long, the most negative included, strtol gives back what was printed |
| `NumText.ReadUnsigned` | guests/doom/libc/stdlib.c:88-110 | the reader loops compute exactly the specification, end position included |
| `NumText.ReadDigits` | guests/doom/libc/stdlib.c:102-109 | the digit loop wraps at 64 bits as the value of all its digits would |
| `Printf.Out.Char` | guests/doom/libc/stdio.c:195-202 | a character is counted, and stored only if it and a NUL still fit |
| `Printf.Out.Pad` | guests/doom/libc/stdio.c:204-208 | prints that many characters, none for a negative count |
| `Printf.Out.Str` | guests/doom/libc/stdio.c:218-226 | prints a string padded on the side the flags say |
| `Printf.Out.Num` | guests/doom/libc/stdio.c:228-263 | prints the sign, prefix, zeros and digits of the number, padded |
| `Printf.CollectDigits` | guests/doom/libc/stdio.c:232-237 | the digit buffer holds the digits backwards and is never overrun |
| `Printf.ReadDirective` | guests/doom/libc/stdio.c:302-337 | flags, width, precision and size letters are read in order, stars taking arguments and a negative width meaning left |
| `Printf.Out.Convert` | guests/doom/libc/stdio.c:339-397 | each conversion prints what the specification says |
| `Printf.Out.Format` | guests/doom/libc/stdio.c:295-399 | the loop prints the whole format, each directive with its own arguments |
| `Printf.Vsnprintf` | guests/doom/libc/stdio.c:401-408 | the buffer holds the first characters that fit, a NUL, and is otherwise as before; the result is the length of the unbounded output as an int |
| `Printf.Vprintf` | guests/doom/libc/stdio.c:415-424 | the console gets the whole output |
| `Printf.StoredIsPrefix` | guests/doom/libc/stdio.c:401-408 | a reader of the buffer finds the first min(length, size - 1) characters, and nothing from size on has changed |
| `Printf.TruncationIsPrefix` | guests/doom/libc/stdio.c:401-408 | printed to two buffers, the smaller holds the start of what the larger holds |
| `Printf.LiteralFormat` | guests/doom/libc/stdio.c:295-301 | a format without percent signs prints itself |
| `Printf.OneDirective` | guests/doom/libc/stdio.c:295-399 | a format that is one directive prints one conversion and nothing else |
| `Printf.LongSurvivesBuffer` | guests/doom/libc/stdio.c:401-408 | a long printed with any flags, width and precision into a buffer it fits is read back by strtol |
| `Allocator.PayloadHoldsRequest` | guests/doom/libc/stdlib.c:28 | a rounded size holds the request exactly when rounding does not wrap |
| `Allocator.MallocGivesRoomExactly` | guests/doom/libc/stdlib.c:26-39 | malloc gives the bytes asked for or nothing, exactly when the size does not wrap or no header fits either |
| `Allocator.HugeRequestGetsNothing` | guests/doom/libc/stdlib.c:26-39 | a request within 15 bytes of the largest size is granted with no room behind it |
| `Allocator.CallocOverrunsExactly` | guests/doom/libc/stdlib.c:50-58 | calloc zeroes past its block exactly when the product fits a size_t, rounding it wraps, and there is room for a header |
| `Allocator.HugeCallocOverruns` | guests/doom/libc/stdlib.c:50-58 | calloc(1, SIZE_MAX) zeroes past its block whenever a header fits |
| `Allocator.ReallocOverrunsExactly` | guests/doom/libc/stdlib.c:60-77 | realloc copies past the new block exactly when rounding the size wraps, the old block has any room, and there is room for a header |
| `Allocator.HugeReallocGetsNothing` | guests/doom/libc/stdlib.c:60-77 | a last block without room is "grown" where it is to such a size, without any room |
| `Allocator.OverflowsExactly` | guests/doom/libc/stdlib.c:52 | calloc refuses exactly the products that do not fit |
| `Allocator.InitIsEmpty` | guests/doom/libc/stdlib.c:20-24 | heap_init gives a usable heap exactly when rounding its start up stays inside it |
| `Allocator.StepKeeps` | guests/doom/libc/stdlib.c:26-77 | malloc, calloc, realloc, free and stores of a program that keeps the rules leave blocks apart and contents as expected |
| `Allocator.BlocksAreSeparate` | guests/doom/libc/stdlib.c:20-77 | after any such sequence every block held is 16-byte aligned, has its header inside the heap and holds what the program put there; any two are disjoint; and the last block, when known, ends at the free space |
| `Allocator.ReallocKeepsContents` | guests/doom/libc/stdlib.c:60-77 | realloc returns a block of the size asked for with the old contents, or nothing and leaves all as it was |
| `Allocator.CallocZeroes` | guests/doom/libc/stdlib.c:50-58 | calloc returns zeroed memory and touches nothing below it |
| `Allocator.FreeUndoesMalloc` | guests/doom/libc/stdlib.c:41-48 | freeing what was allocated last gives its room back: the same request gets the same block |
| `Allocator.Allocator.Allocate` | guests/doom/libc/stdlib.c:26-39 | the globals change as specified |
| `Allocator.Allocator.Release` | guests/doom/libc/stdlib.c:41-48 | only the most recent block is taken back |
| `Allocator.Allocator.AllocateZeroed` | guests/doom/libc/stdlib.c:50-58 | as specified for every count and size, zeroing byte by byte, or telling that this would run past the block |
| `Allocator.Allocator.Reallocate` | guests/doom/libc/stdlib.c:60-77 | as specified for every size: in place, grown in place, or moved and copied, or telling that the copy would run past the block |
| `MemorySlots.KvmMapsRegions` | src/main.rs:363-384 | the guest sees exactly the monitor's regions, each byte where the monitor has it |
| `MemorySlots.GpaToHostFinds` | src/main.rs:331-336 | finds a host address exactly when one region holds the whole range |
| `MemorySlots.TranslationAgrees` | src/main.rs:331-336 | where the monitor finds guest memory is where KVM has mapped it, byte by byte |
| `MemorySlots.AddKeeps` | src/main.rs:363-384 | however memory is added and whatever KVM refuses, regions and slots match |
| `MemorySlots.PieceIsTaken` | src/main.rs:416-424 | KVM has no reason to refuse a piece: it is on whole pages, clear of all slots, and its id is free |
| `MemorySlots.SplitKeepsMemory` | src/main.rs:402-439 | whatever the outcome, unless KVM refuses half way, the guest-to-host map is unchanged; a shared region is split before the error |
| `MemorySlots.LoggingIsExact` | src/main.rs:402-439 | on success slots stay disjoint with distinct ids, writes are logged in exactly the page-rounded range besides those logged before, and the log is of one slot with a bit for each page |
| `MemorySlots.SucceedsExactly` | src/main.rs:402-439 | with a willing kernel it succeeds exactly when a region that is neither split nor shared holds the pages and there is a page; an empty range on a page boundary panics |
| `MemorySlots.Machine.AddRegion` | src/main.rs:363-384 | as specified, a slot number being used up even by a refusal |
| `MemorySlots.Machine.AddInPieces` | src/main.rs:414-428 | the loop adds the non-empty pieces in order, the first in the slot left over |
| `MemorySlots.Machine.LogPages` | src/main.rs:402-439 | as specified, each error where the code returns it |
| `BootLayout.PieceStays` | src/main.rs:474-494 | a piece loaded clear of later ones is all there at the end |
| `BootLayout.StructuresFitExactly` | src/arch/x86_64/init.rs:174-201 | the boot structures stay below 1 MiB exactly for command lines up to 0xee000 bytes, 0xed000 with a module |
| `BootLayout.OthersApart` | src/arch/x86_64/init.rs:143-220 | module, its name and the boot structures are pairwise disjoint |
| `BootLayout.BootSucceedsExactly` | src/arch/x86_64/init.rs:126-220 | a guest that fits is brought up exactly when its image and module do not run over the end of RAM |
| `BootLayout.SmallGuestBoots` | src/arch/x86_64/init.rs:114-221 | a guest with the default memory, a one-page image and no command line fits and is brought up |
| `BootLayout.OthersClearOfImage` | src/arch/x86_64/init.rs:133-220 | they are clear of the image, .bss included |
| `BootLayout.ImageIsThere` | src/util/elf.rs:7-26 | segments that do not overlap are in memory as in the file |
| `BootLayout.CmdlineEnds` | src/arch/x86_64/init.rs:174-177 | the command line is in memory and followed by a zero, although nobody writes one |
| `BootLayout.StartInfoReads` | src/arch/x86_64/init.rs:205-220 | the guest reads from the start info where lists, map and command line are |
| `BootLayout.EntryReads` | src/arch/x86_64/init.rs:165-190 | the guest reads the memory map as it was meant |
| `BootLayout.ModuleReads` | src/arch/x86_64/init.rs:143-163 | the guest reads the module's place and size |
| `BootLayout.RamMapMatchesRegions` | src/arch/x86_64/init.rs:126-173 | RAM in the map is memory that was added, and all of it but the EBDA hole is in the map |
| `BootLayout.GuestHeapIs` | guests/doom/kvm.c:74-105 | the guest finds a heap exactly when image and module leave some of the RAM they are in, and it runs from their end to the end of that RAM |
| `BootLayout.HeapIsClear` | guests/doom/kvm.c:74-105 | every part of image, module, name and boot structures lies below the heap; the heap lies in one region, and is one the allocator can start with |
| `BootLayout.SetupMemory` | guests/doom/kvm.c:76-98 | the loops over modules and map compute that choice |
| `BootLayout.LowMemory.LoadData` | src/main.rs:474-494 | data is copied exactly if it starts and ends in the region; otherwise nothing changes |
| `BootLayout.LowMemory.LoadElf` | src/util/elf.rs:7-26 | loads the segments in order and returns the end of the image, or fails at the first that does not fit |
| `BootLayout.LowMemory.PvhBoot` | src/arch/x86_64/init.rs:114-221 | the step by step placement leaves in memory what the layout says, or fails when a piece does not fit |
| `Sleep.ChunkFits` | guests/doom/idt.c:227 | a chunk is never empty and its load is between 1 and 0xffffffff |
| `Sleep.SleepLoads` | guests/doom/idt.c:224-239 | the loads written to the timer are non-zero, fit 32 bits and add up to exactly the time asked for |
| `Sleep.ActionKeeps` | guests/doom/idt.c:224-239 | each step, tick and interrupt keeps the accounting of ticks and wakeups |
| `Sleep.NeverSleepsForever` | guests/doom/idt.c:221-239 | in every interleaving it never halts with the flag set, nor with neither a running timer nor its interrupt pending; on return exactly the ticks asked for have passed |
| `Sleep.SleepEnds` | guests/doom/idt.c:224-239 | it never gets stuck, and the length of a sleep is bounded by the time asked for and the other interrupts taken |

## Left out

- KVM ioctls, mmap, file descriptors and `Drop`: only their effect, as steps that may fail where the code handles failure.
- Raw pointers: guest memory is a sequence or an array of bytes; `unwrap` panics on descriptors outside memory are the error outcome of the queue model.
- Register decoding of the virtio transport, features, status and interrupt acknowledgement: single register stores.
- Both UARTs, terminal handling, the RFB handshake and thread spawning; the pacing of updates, a render being possible at any time while a request is pending.
- VGA input status: its value is a parameter of the read. Its timing is wall-clock time.
- `render` copies every pixel of the framebuffer in one step each; tearing inside one byte cannot happen and is not modelled.
- `encode` with a shift of 32 or more, which overflows in Rust; here the bits are lost. Formats with overlapping channels are encoded but nothing is proved about decoding them.
- VringDevice.VirtioMmio.QueueNotify: the device's work on a chain is a function giving the used length or failing; its effect on memory and disk is proved with the devices themselves.
- GuestBuffers.PouringFills: not for buffers that overlap, where later ones overwrite what earlier ones got; `GuestBuffers.Scatter` says what memory then is. The same goes for VirtioBlk.GuestView and what follows from it.
- VirtioBlk.VirtioBlk.Process: reads and writes of the disk file that fail for reasons other than the range are not modelled, nor is flushing to stable storage.
- Virtqueue.OrderAndConservation: indirect descriptors and interrupt suppression are not offered by the device and not modelled.
- KeyPath.KeysArrive: interrupts are taken between guest calls, not inside the expression that advances a ring index; a full ring is excluded here and covered by the contract of the push.
- Keys: the numbers behind Doom's key names in doomkeys.h are not part of this model.
- I8042: a guest reset stops the machine; here it only leaves the controller as it is.
- Floating-point conversions: the digits of a double are a parameter of an argument. `strtod`, `sscanf` and `vsprintf` are left out.
- Printf.Out.Convert: `%n` takes its argument without storing, and the digits of a double are given.
- Printf.Vsnprintf: signed overflow of a width or precision near the largest int is undefined in C and not modelled, nor is a `size_t` length that wraps.
- Allocator.ReallocKeepsContents: covers sizes whose rounding does not wrap, like every operation of a run; when the other sizes write past a block is stated exactly beside it, but not what a program finds afterwards. Headers are a map beside the bytes, which is sound because they are shown to lie apart from all blocks.
- VmControl.SignalsReachRegisteredOnly: a vcpu thread that panics in its loop stays registered in the code, as nothing unregisters it; panics of threads are not modelled.
- MemorySlots.SplitKeepsMemory: after a refusal by KVM half way through a split the region is partly unmapped, as in the code; nothing is claimed there. Addresses near 2^64 are not wrapped.
- BootLayout.LowMemory.PvhBoot: the ELF parser, the entry note and the text of the command line are inputs; an unreadable module file panics and is not modelled; registers of the vcpu are left out.
- Sleep: calibration against the clock, and the interrupt controller beyond one pending timer interrupt.
- string.c, ctype.c beyond the classes used, assembly, build scripts and the aarch64 port.
