# node-vmm device layer: a verified model

node-vmm is a small virtual machine monitor whose native back end exists three times, for KVM, HVF and WHP. This
project models the device layer of that back end in Dafny and proves what its parts promise, for all inputs, all runs
and all interleavings. `dafny verify dfyconfig.toml` checks everything.

| module | what it models |
|---|---|
| `OverlayDisk` | the copy-on-write disk: a base file, an overlay file and a packed bitmap of dirty sectors, against one flat byte array |
| `Virtqueue`, `UsedRing`, `Buffers` | descriptor chains, the used ring with its 16-bit index, and lists of guest buffers |
| `Words` | bits of machine words, the bitwise operations on them, powers of two |
| `BlockRequest`, `BlockDevice`, `BlockRun` | one virtio-blk request as a function of RAM and flat disk, the device's loops proved against it, and whole runs of the queue |
| `NetData` | received frames scattered and transmitted packets gathered over descriptor chains |
| `RxBacklog` | the WHP receive backlog under all interleavings of its locked steps |
| `PauseProtocol` | any number of vCPU loops and a controller that share a command word, a state word, a counter and a done flag; every atomic operation is one step |
| `HvfCpus` | PSCI power states and pause flags of the HVF vCPU threads |
| `IoApic` | the WHP IOAPIC: redirection entries, line levels, the pending queue |
| `Aml`, `Dsdt` | the ACPI Machine Language encoders, a decoder for their language, and the DSDT built from them |
| `FdtFormat`, `FdtTree`, `FdtBuild` | the flattened devicetree format with a reader, the intended tree with what a guest reads from it, and the HVF builder |
| `Uart` | console log, marker matcher and terminal-query filter |
| `PageTables`, `ElfLoader` | the identity page tables and the ELF64 loader |
| `Snapshot` | dirty page list, sparse memory file and RAM delta |
| `DiskPair` | the replacement of a persistent disk and its metadata |

Code that changes state is a class or a method with the loops of the source, proved against functions on values; the
properties are then lemmas about those functions. Protocols between threads are state machines over atomic steps.

Where the code does not meet a natural reading of its purpose, the code is kept and the exact condition is proved:
`UsedRing.ConsecutiveSlots` (queue sizes), `PauseProtocol.AwaitedIff` (awaited pause/resume/pause with two or more
vCPUs), `PauseProtocol.SafeIff` and `HvfCpus.SafeIff` (the states from which a pause holds), `Aml.PkgIff`,
`Aml.NameIff` and `Aml.StrIff` (encoder limits), `FdtBuild.BlobIff` (32-bit sizes), `Uart.LatchExactIff` with
`Uart.MarkersDoNotHeal` (a doubled letter in the output can set a marker), `Snapshot.RestoresIff`, and
`DiskPair.InstallPersistentDiskPair` with `DiskPair.LosingCase` (an existence check that fails).

Conventions: machine integers are subset types of `int` with every wrap written out; `Ok`/`Err` stand for a normal return
and for a thrown `std::runtime_error`; guest RAM is an `array<byte>`; files are byte sequences.

## Model

| member | source | states |
|---|---|---|
| OverlayDisk.FlatAt | native/kvm/backend.cc:2033-2037 | the flat disk at a byte is the overlay where that sector is dirty and the base file elsewhere |
| OverlayDisk.CleanFlat | native/kvm/backend.cc:1979-1984 | with no dirty sector the flat disk is the base file |
| OverlayDisk.MarkAddsOne | native/kvm/backend.cc:1986-1991 | setting one bit of the packed bitmap makes exactly one sector dirty |
| OverlayDisk.Disk.MarkDirtyRange | native/kvm/backend.cc:1993-2002 | exactly the sectors that a written range touches become dirty |
| OverlayDisk.Disk.PreparePartial | native/kvm/backend.cc:2004-2022 | preparing a partial write never changes the flat disk; it succeeds exactly when the range ends inside the last whole sector, and afterwards what the write will not cover of its sectors is already in the overlay |
| OverlayDisk.OverlayWrite | native/kvm/backend.cc:2047-2049 | writing a prepared range into the overlay and marking it is one write to the flat disk |
| OverlayDisk.Disk.ReadOverlaid | native/kvm/backend.cc:2031-2040 | the chunked loop over both files returns the slice of the flat disk |
| OverlayDisk.Disk.Read | native/kvm/backend.cc:2024-2041 | a read succeeds exactly inside the disk and then delivers the slice of the flat disk |
| OverlayDisk.Disk.Write | native/kvm/backend.cc:2043-2050 | a write succeeds exactly on a disk that is not read-only, inside it, and with an overlay inside its last whole sector; it changes the flat disk on precisely its range, and never touches the base file of an overlay disk |
| Bytes.LittleEndian | native/kvm/backend.cc:204-214 | 16-, 32- and 64-bit fields are read low byte first |
| Virtqueue.WalkExact | native/kvm/backend.cc:1872-1889 | the walk yields p exactly when p is the NEXT path from the head: in range, acyclic, without indirect descriptors |
| Virtqueue.WalkPath | native/kvm/backend.cc:1872-1889 | it succeeds exactly when such a path exists; the path is then unique and has at most queue-size distinct indices |
| Virtqueue.DistinctBounded | native/hvf/backend.cc:1484-1499 | distinct indices below the queue size number at most the queue size, so the 256-entry chain never overflows |
| Virtqueue.WalkChain | native/kvm/backend.cc:1872-1889 | the loop over guest RAM returns exactly the descriptors of that path, or fails when there is none; the count of unseen indices is its measure |
| Virtqueue.ReadDesc | native/kvm/backend.cc:1866-1870 | a descriptor read by address is the entry of the table |
| Virtqueue.DescriptorRead | native/kvm/backend.cc:1866-1870 | the 16 bytes that a driver writes for a descriptor, address, length, flags and next, are read as that descriptor |
| Words.PowerTest | native/hvf/backend.cc:1465-1467 | the test value != 0 and (value & (value - 1)) == 0 accepts exactly the powers of two |
| UsedRing.PushEffect | native/kvm/backend.cc:1891-1898 | one push advances the index mod 2^16 and replaces exactly the slot at the old index mod size |
| UsedRing.ConsecutiveSlots | native/hvf/backend.cc:1465-1471 | consecutive pushes land in consecutive slots at every index, the 16-bit wrap included, if and only if the size passes the power-of-two test |
| UsedRing.PushAllExact | native/kvm/backend.cc:1891-1898 | after any run of pushes, on a power-of-two ring or on any ring while the index does not wrap, the latest entries lie in consecutive slots in push order and untouched slots keep their entries |
| UsedRing.PushStores | native/kvm/backend.cc:1894-1897 | the three stores of a push are one replacement of the used ring in RAM |
| UsedRing.PushFrame | native/kvm/backend.cc:1891-1898 | a push changes no byte outside the used ring |
| UsedRing.PushUsed | native/kvm/backend.cc:1891-1898 | push_used on RAM has that effect and changes nothing else |
| BlockRequest.Count32IsTotal | native/kvm/backend.cc:1930 | the 32-bit running count of bytes is the total mod 2^32 |
| BlockRequest.PassedPrefix | native/kvm/backend.cc:1925-1940 | the descriptors that were processed before the first error fit in RAM and, run together, on the disk |
| BlockRequest.ParseIff | native/kvm/backend.cc:1913-1923 | which chains are requests, by their descriptors: and then type and sector are the little-endian fields of the header, the last descriptor is the status and the ones between are the data |
| BlockRequest.StatusIff | native/kvm/backend.cc:1924-1971 | the status of every request from its own fields: 0 for a readable read, a writeable write, a flush and a fitting id, 2 for other types, else 1, and 1 when the status byte is not in RAM; and its used entry |
| BlockRequest.ReadableRaw | native/kvm/backend.cc:1925-1931 | a read is readable when every buffer has flag bit 1 set, whole sectors, lies in RAM, and its stretch of the disk exists |
| BlockRequest.WriteableRaw | native/kvm/backend.cc:1934-1939 | a write is writeable when every buffer has flag bit 1 clear, whole sectors, lies in RAM, its stretch of the disk exists, and the disk is not read-only |
| BlockRequest.PassingFrom | native/kvm/backend.cc:1925-1940 | the data descriptors that go through are exactly those before the first that these conditions rule out |
| BlockRequest.IdGiven | native/kvm/backend.cc:1945-1953 | GET_ID puts node-vmm and a NUL into the first buffer, as far as it goes, and changes no other byte |
| BlockRequest.WriteStatus | native/kvm/backend.cc:1933-1971 | write requests: the status byte the guest reads is 0 when all data descriptors were applied to the flat disk and 1 when a prefix was; no other request changes the disk |
| BlockRequest.StatusWritten | native/kvm/backend.cc:1941-1971 | for every kind of request the status byte is the last store to RAM, on the error path too; write, flush and unsupported requests store nothing else; 2 is the status of exactly the unsupported kinds |
| BlockRequest.ScatterGather | native/kvm/backend.cc:1925-1932 | disjoint buffers filled from the disk hold, gathered again, that stretch of the disk |
| BlockRequest.ReadStatus | native/kvm/backend.cc:1925-1971 | read requests into disjoint buffers: status 0 means every buffer holds its part of the flat disk and the used length counts them and the status byte, 1 that exactly the descriptors that passed their checks do |
| BlockRequest.ReadOutcome | native/kvm/backend.cc:1925-1971 | when its chain keeps off the descriptor table, RAM after a read is the scatter of a prefix and then the status byte |
| BlockRequest.FailWritesStatus | native/kvm/backend.cc:1959-1970 | the second walk of the error path finds the same status byte and writes 1 there |
| BlockRequest.ProcessFrame | native/kvm/backend.cc:1909-1971 | a request changes no region that no descriptor of its own chain points into |
| BlockDevice.AdvanceIsMod | native/kvm/backend.cc:1904 | the 16-bit index increments mod 2^16 |
| BlockDevice.HeadBytes | native/kvm/backend.cc:1900-1905 | the head of turn j is the little-endian entry at 4 + 2 * (position mod size) of the available ring in RAM |
| BlockDevice.RunRings | native/kvm/backend.cc:1900-1907 | every turn of a run keeps table and available ring and pushes exactly one used entry, for the head the driver put there |
| BlockDevice.QueueRun | native/kvm/backend.cc:1900-1907 | a whole run consumes exactly (avail_idx - last_avail) mod 2^16 heads and leaves one used entry per head, in order, in consecutive slots of a power-of-two ring, or of any ring while its index does not wrap |
| BlockRun.RunOutcome | native/kvm/backend.cc:1900-1971 | a whole run over chains that keep apart, told from the RAM before it: every request has the status its own fields deserve, every buffer of a read before the first bad one holds its stretch of the disk as of its turn, each used entry has its head and count, and the disk is the fold of the writes |
| BlockRun.RunFrame | native/kvm/backend.cc:1900-1907 | a stretch of turns changes no region that none of its chains points into |
| BlockRun.RunDisk | native/kvm/backend.cc:1900-1940 | the disk after a run is the fold of the passed prefixes, gathered from the RAM before the run |
| BlockRun.TurnAnswers | native/kvm/backend.cc:1909-1971 | what one turn leaves for its head: status byte, filled buffers, or the error status of a chain that is no request |
| BlockDevice.VirtioBlk.ReadData | native/kvm/backend.cc:1924-1932 | the read loop fills RAM, counts bytes and fails exactly as the request function says |
| BlockDevice.VirtioBlk.WriteData | native/kvm/backend.cc:1933-1940 | the write loop updates the flat disk and fails exactly as the request function says |
| BlockDevice.VirtioBlk.CopyId | native/kvm/backend.cc:1945-1953 | GET_ID fills the first data descriptor only |
| BlockDevice.VirtioBlk.Attempt | native/kvm/backend.cc:1912-1958 | the try block: what it did before a throw, and the status byte when there is none |
| BlockDevice.VirtioBlk.ReportError | native/kvm/backend.cc:1959-1970 | the catch block changes at most the status byte |
| BlockDevice.VirtioBlk.Serve | native/kvm/backend.cc:1909-1971 | process_request computes the request function on RAM and the flat disk and the used entry |
| BlockDevice.VirtioBlk.HandleQueue | native/kvm/backend.cc:1900-1907 | handle_queue leaves RAM and disk as the run of the outstanding heads does, and its position at the driver index |
| NetData.FillGather | native/kvm/backend.cc:2384-2404 | disjoint buffers hold the data from their start on and behind it their old bytes |
| NetData.Received | native/kvm/backend.cc:2383-2404 | disjoint buffers with room that a frame was laid over read as 12 zero bytes, the frame, then the old bytes, for every way of splitting lengths |
| NetData.Delivered | native/kvm/backend.cc:2373-2411 | in the RAM that a delivering inject_rx_frame returns, the buffers it took hold the header and the frame, and the used ring has one more entry, for that head and length |
| NetData.InjectedIff | native/kvm/backend.cc:2383-2410 | a frame is delivered exactly when some front of the chain consists of writable buffers in RAM with room for 12 + len bytes; the chain is consumed without delivery exactly when all of it is good and too small |
| NetData.PacketDropsHeader | native/kvm/backend.cc:2424-2451 | the gathered packet is the content of the chain without its first 12 bytes, however it is split |
| NetData.PacketIff | native/kvm/backend.cc:2424-2445 | a packet is gathered exactly when no buffer is writable and what each holds behind the header lies in RAM, at an address that wraps at 2^64 |
| NetData.RoundTrip | native/kvm/backend.cc:2373-2451 | buffers that inject_rx_frame filled exactly, sent back from the RAM it returned, carry exactly that frame |
| NetData.VirtioNet.FillChain | native/kvm/backend.cc:2383-2404 | the scatter loop fills a prefix of the chain, reports how far it got, and fails exactly at a bad descriptor it still needs |
| NetData.VirtioNet.InjectRxFrame | native/kvm/backend.cc:2373-2411 | delivery, no buffer, a chain too small and a bad chain: the new index, RAM and used entry of each |
| NetData.VirtioNet.GatherTx | native/kvm/backend.cc:2424-2451 | the gather loop returns the packet of the chain or fails |
| NetData.VirtioNet.ProcessTx | native/kvm/backend.cc:2424-2464 | the packet that goes to the TAP device, and the used entry of length 0 exactly when nothing failed |
| RxBacklog.StepInv | native/whp/backend.cc:2063-2112 | every locked step keeps the ownership, backlog and order invariants |
| RxBacklog.BacklogOrder | native/whp/backend.cc:2063-2112 | in every interleaving of any number of threads: at most one delivery at a time, at most 256 waiting, and finished frames followed by the backlog are the accepted frames in send order |
| RxBacklog.RefusedFull | native/whp/backend.cc:2063-2085 | over every run, a frame is dropped only where 256 frames wait at that moment |
| RxBacklog.KickFlushes | native/whp/backend.cc:2086-2112 | a guest kick on a backlog that nobody flushes can finish all of it, in order |
| PauseProtocol.CountExact | native/kvm/backend.cc:3740-3750 | paused_count is the number of vCPUs between fetch_add and fetch_sub in every reachable state |
| PauseProtocol.PausedMeansParked | native/kvm/backend.cc:3733-3763 | Pause held from a state with nobody in that window: once Paused is stored every vCPU stays in the wait loop and the state word stays Paused |
| PauseProtocol.PausedMeansQuiet | native/kvm/backend.cc:3733-3763 | from any safe state, once Paused is stored nobody is in the run call or on its way there and no late Running overwrites the word |
| PauseProtocol.SafeIff | native/whp/backend.cc:3938-3971 | a held pause can go wrong if and only if somebody is still counted after leaving the wait loop while another is not waiting, or loose while another is about to store Paused |
| PauseProtocol.LeaverBreaks | native/kvm/backend.cc:3740-3763 | the run by which a vCPU that left the wait loop but is still counted reaches the guest before Paused is stored |
| PauseProtocol.PauseCompletes | native/kvm/backend.cc:3740-3750 | a held pause can always be completed: a run that stores Paused, and parks everybody if nobody had left the wait loop |
| PauseProtocol.Resumes | native/kvm/backend.cc:3746-3763 | a pause can always be left: the run by which a waiting vCPU stores Running and enters the guest |
| PauseProtocol.AwaitedPause | src/kvm.ts:291-323 | one vCPU and awaited calls: whenever the last call was a pause() that saw Paused, the vCPU is in the wait loop, over every sequence of calls |
| PauseProtocol.SeveralEscape | src/kvm.ts:310-323 | for every number of vCPUs from two on, awaited pause(), resume(), pause(): a run in which the last call saw Paused while a vCPU is in the run call |
| PauseProtocol.AwaitedIff | src/kvm.ts:291-323 | over all runs of awaited calls, a pause() that saw Paused finds every vCPU in the wait loop if and only if the machine has at most one vCPU |
| HvfCpus.PoweredCpuCount | native/hvf/backend.cc:3084-3090 | the loop counts the slots that are not Off, and at least one |
| HvfCpus.AffinityInfo | native/hvf/backend.cc:3092-3113 | AFFINITY_INFO for one CPU and for the whole cluster, and its error cases |
| HvfCpus.PsciProtocol | native/hvf/backend.cc:3440-3468 | before stop, at every lock release: a start request is outstanding exactly while a slot is OnPending, a vCPU in the guest is On, and every history repeats CPU_ON, start, off |
| HvfCpus.Cycles | native/hvf/backend.cc:3606-3633 | in such a history each start uses the entry and context of the one successful CPU_ON before it, and two successful CPU_ONs have a CPU_OFF between them |
| HvfCpus.CpuOnTruth | native/hvf/backend.cc:3606-3622 | CPU_ON succeeds exactly for a valid vCPU other than 0 with no unfinished cycle |
| HvfCpus.CpuOnEffect | native/hvf/backend.cc:3606-3622 | an accepted CPU_ON leaves exactly its entry and context in the target and a start request; every other slot stays as it was |
| HvfCpus.StartEffect | native/hvf/backend.cc:3447-3468 | a sleeping vCPU with a start request starts with its next step at the entry and context of its slot |
| HvfCpus.CpuOffEffect | native/hvf/backend.cc:3623-3633 | CPU_OFF turns a vCPU off and takes it out of the guest, and on the boot vCPU stops the machine |
| HvfCpus.HistoryEvent | native/hvf/backend.cc:3440-3468 | every entry of a history was put there by one event of the run: CPU_ON with these arguments, the step of the thread, or CPU_OFF |
| HvfCpus.StartedAsAsked | native/hvf/backend.cc:3606-3622 | over every run, a vCPU only starts with the entry and context of an earlier CPU_ON for it |
| HvfCpus.PauseAccounting | native/hvf/backend.cc:3330-3354 | paused_vcpus counts the raised flags, a flagged slot is powered, and the test for Paused succeeds exactly when every slot that is not Off is flagged |
| HvfCpus.PausedStays | native/hvf/backend.cc:3330-3354 | Pause held from a safe state: once Paused is stored every vCPU stays off or in the pause loop and the state word stays Paused, however CPUs were powered before |
| HvfCpus.SafeIff | native/hvf/backend.cc:3330-3354 | a held pause can end with a vCPU in the guest after Paused was stored if and only if somebody is about to lower its flag while another vCPU is not settled |
| HvfCpus.LeaverBreaks | native/hvf/backend.cc:3330-3354 | the run by which a vCPU that is about to lower its flag reaches the guest after Paused was stored, with CPUs that are off, starting or running |
| HvfCpus.PauseCompletes | native/hvf/backend.cc:3330-3343 | a held pause can always be completed: a run that stores Paused, after which from a safe state everybody is settled |
| HvfCpus.Resumes | native/hvf/backend.cc:3344-3353 | a pause can always be left: the run by which a paused vCPU lowers its flag, stores Running and enters the guest |
| HvfCpus.StepFits | native/hvf/backend.cc:3440-3468 | every locked section and atomic step keeps what each slot must hold where its thread stands |
| IoApic.LowWrittenRirr | native/whp/backend.cc:1384-1390 | a guest write of a low half never sets Remote IRR; it keeps it, or clears it by choosing edge triggering |
| IoApic.LowWrittenLevel | native/whp/backend.cc:1384-1390 | every other bit of a level entry comes from the value |
| IoApic.LowWrittenEdge | native/whp/backend.cc:1384-1390 | every bit of an edge entry but Remote IRR comes from the value |
| IoApic.LowWrittenHigh | native/whp/backend.cc:1384-1390 | a low write keeps the high half |
| IoApic.HighWrittenHalves | native/whp/backend.cc:1381-1383 | a high write replaces the high half and keeps the low one |
| IoApic.OncePerClearing | native/whp/backend.cc:1410-1443 | between two acceptances of a level interrupt of a pin its Remote IRR was cleared |
| IoApic.Guarantees | native/whp/backend.cc:1301-1459 | what every method keeps: Remote IRR only on level pins, delivery in FIFO order of acceptance, at most 65 pending, one acceptance between clearings |
| IoApic.RequestBits | native/whp/backend.cc:1405-1443 | by the bits of the entry: when a request is wanted, that acceptance sets bit 14 of a level entry, and the vector, destination, destination mode and trigger mode of the interrupt |
| IoApic.EndsBits | native/whp/backend.cc:1335-1350 | by the bits of the entry: which entries an end of interrupt for a vector matches |
| IoApic.EoiBits | native/whp/backend.cc:1350-1353 | it changes at most bit 14 of a matching entry, and requests the pin again exactly if its line is high and bit 16 is clear |
| IoApic.AcceptedEnds | native/whp/backend.cc:1335-1443 | the end of interrupt for the vector of an accepted level interrupt matches its pin |
| IoApic.WrittenMeans | native/whp/backend.cc:1377-1403 | by the bits: which writes of a low half request an interrupt, and what the entry is afterwards |
| IoApic.IoApic.Request | native/whp/backend.cc:1410-1443 | a request is accepted exactly when it is wanted and at most 64 are queued, and then offered to the partition behind what waits |
| IoApic.IoApic.Drain | native/whp/backend.cc:1445-1459 | draining delivers exactly the longest front of the queue whose calls all succeed, and keeps the rest in order |
| IoApic.IoApic.SetLine | native/whp/backend.cc:1306-1315 | a line change, and the request that a high line makes |
| IoApic.IoApic.WriteReg | native/whp/backend.cc:1377-1403 | the new entry of a guest write and the one request it may let through |
| IoApic.IoApic.WriteMmio | native/whp/backend.cc:1285-1299 | four-byte writes select a register or write it, with the effect of the register write; everything else is ignored |
| IoApic.IoApic.Eoi | native/whp/backend.cc:1335-1354 | an end of interrupt clears exactly the matching level pins, in pin order, and requests those whose line is still high; a request is dropped only where the queue is full by then |
| Aml.PkgIff | native/kvm/backend.cc:1027-1057 | a PkgLength reads back as the payload plus its own 1 to 4 bytes if and only if the payload is below 2^28 - 4 |
| Aml.PkgShortest | native/kvm/backend.cc:1027-1057 | the shortest width that can state the length is used |
| Aml.NamePath | native/kvm/backend.cc:1059-1076 | a path that is accepted splits into four-byte parts that join to the path again |
| Aml.NameIff | native/kvm/backend.cc:1077-1088 | a NameString reads back if and only if it has at most 255 parts and is not a lone part starting with a slash |
| Aml.EncodePath | native/kvm/backend.cc:1059-1088 | the loop accepts exactly the paths whose parts all have four characters and encodes them |
| Aml.IntRoundTrip | native/kvm/backend.cc:1114-1123 | every 64-bit integer reads back from its shortest form |
| Aml.IntShortest | native/kvm/backend.cc:1114-1123 | the form of an integer is the shortest of 1, 2, 3, 5 and 9 bytes that holds it |
| Aml.StrIff | native/kvm/backend.cc:1090-1096 | a string reads back if and only if it has no NUL in it |
| Aml.BufRoundTrip | native/kvm/backend.cc:1158-1171 | a buffer reads back with its stated size |
| Aml.ValueRoundTrip | native/kvm/backend.cc:1090-1171 | integers, strings and buffers are told apart and read back |
| Aml.TermRoundTrip | native/kvm/backend.cc:1125-1193 | the decoder recovers every tree of Name, Device and Scope, nested to any depth, from its bytes, with whatever follows |
| Dsdt.DsdtReads | native/kvm/backend.cc:1195-1219 | for every permitted device count the DSDT body reads back as the intended tree |
| Dsdt.ResourcesRead | native/kvm/backend.cc:1131-1171 | a resource template reads back as one page of writable memory and one consumed, edge-triggered, active-high, exclusive interrupt |
| Dsdt.GuestReads | native/kvm/backend.cc:82-110 | for every permitted count the guest reads that many devices, device k named V and three digits, with its identifiers, registers at 0xD0000000 + 0x1000 * k and interrupt 5 + k |
| Dsdt.AppendDevice | native/kvm/backend.cc:1173-1182 | the builder of a device computes the encoding of the term |
| Dsdt.AppendScope | native/kvm/backend.cc:1184-1193 | the builder of a scope computes the encoding of the term |
| Dsdt.BuildDsdtBody | native/kvm/backend.cc:1206-1219 | the body is built exactly for 1 to 19 devices, counted in 32 bits, encodes the intended tree, and the guest reads those devices from it |
| Dsdt.FinalizeSdt | native/kvm/backend.cc:1221-1242 | only the checksum byte changes and then the bytes of the table sum to zero mod 256 |
| FdtFormat.NodeRoundTrip | native/hvf/backend.cc:360-670 | BEGIN and END tokens balance: a flattened tree reads back as the tree |
| FdtFormat.NodeSound | native/hvf/backend.cc:360-670 | whatever reads as a node is the token stream of that node |
| FdtFormat.EncodeAligned | native/hvf/backend.cc:704-743 | every token stream keeps 4-byte alignment |
| FdtFormat.LexRoundTrip | native/hvf/backend.cc:704-743 | a structure block reads back as its tokens, each property name found through its offset into the strings block |
| FdtTree.TextOf | native/hvf/backend.cc:721-727 | a C string literal is its characters |
| FdtTree.HexReads | native/hvf/backend.cc:799-809 | a printed address reads back |
| FdtTree.TreeSeen | native/hvf/backend.cc:360-670 | what the guest reads from the intended tree, by 32-bit cells: RAM base and size, command line and seeds, every CPU, the interrupt controller, the registers and interrupts of the devices and of all 32 virtio transports, and the PCI interrupt routes |
| FdtBuild.BlobIff | native/hvf/backend.cc:672-693 | the blob reads back as the tree if and only if the size computed from names, values and children of the tree is below 2^32, and that is then its length |
| FdtFormat.NodeSizes | native/hvf/backend.cc:704-743 | the size of a tree, told from its names and values, is the sum of its tokens |
| FdtFormat.EncodeSize | native/hvf/backend.cc:704-743 | a token stream takes exactly that many bytes when every value length fits in 32 bits |
| FdtBuild.BlobShape | native/hvf/backend.cc:672-693 | where the header fields, the structure block and the strings block lie |
| FdtBuild.BlobMagic | native/hvf/backend.cc:682-684 | the blob starts with D0 0D FE ED |
| FdtBuild.FdtBuilder.Align4 | native/hvf/backend.cc:714-716 | the padding loop appends zeros up to the next multiple of 4 |
| FdtBuild.FdtBuilder.AppendPropRaw | native/hvf/backend.cc:729-738 | a property becomes one more property of the open node; buffer and strings block still encode the partly built tree |
| FdtBuild.FdtBuilder.Cpus | native/hvf/backend.cc:397-416 | the loop writes one cpu node per CPU, with the PSCI enable method when there are several |
| FdtBuild.FdtBuilder.VirtioTransports | native/hvf/backend.cc:592-594 | the loop writes one node per virtio transport slot |
| FdtBuild.FdtBuilder.Pcie | native/hvf/backend.cc:597-660 | the host bridge node with its computed interrupt map |
| FdtBuild.IntxMap | native/hvf/backend.cc:634-648 | the loop over slots and pins routes the four interrupts round-robin |
| FdtBuild.FdtBuilder.Build | native/hvf/backend.cc:347-693 | for every RAM size, CPU count and command line the built blob is that of the intended tree; it reads back exactly under the size condition, and then says what TreeSeen says |
| Uart.AdvanceMatch | native/kvm/backend.cc:1612-1623 | the fallback loop stops one past the last position up to the counter that holds the byte |
| Uart.CountCovers | native/kvm/backend.cc:1612-1638 | the counter is at least the length of every pattern prefix that the stream ends with |
| Uart.NeverMisses | native/kvm/backend.cc:1612-1638 | an occurrence of the pattern in the stream always sets the latch |
| Uart.LatchExactIff | native/kvm/backend.cc:1612-1638 | the latch tells exactly whether the stream contains the pattern, for all streams, if and only if falling back keeps a prefix that was really seen: a check on the pattern alone |
| Uart.MarkersDoNotHeal | native/kvm/backend.cc:1625-1628 | neither of the two markers passes that check |
| Uart.FalseAlarm | native/kvm/backend.cc:1612-1623 | for a pattern that fails the check, a stream that sets the latch without containing it |
| Uart.Uart.EmitTx | native/kvm/backend.cc:1543-1561 | the console log is the front of what was shown up to the limit, and the markers follow all of it |
| Uart.Uart.HandleTxByte | native/kvm/backend.cc:1590-1610 | every guest byte is shown, waits in an unfinished query or belongs to an answered one, in order; the answer goes to the front of the input queue |
| Uart.Uart.EmitBytes | native/kvm/backend.cc:1504-1507 | bytes from the host are shown without passing the query filter |
| Uart.Uart.EnqueueFront | native/kvm/backend.cc:1577-1582 | the front enqueue keeps the end of the data when 4096 bytes are reached |
| Uart.Uart.EnqueueBack | native/kvm/backend.cc:1496-1502 | the back enqueue keeps the front of the data when 4096 bytes are reached |
| Uart.Uart.Contains | native/kvm/backend.cc:1485-1494 | a marker that appeared anywhere in the output is reported, past the console limit too; any other needle is found exactly when it occurs in the console log |
| PageTables.FlaggedIsAdd | native/kvm/backend.cc:769-775 | on a page-aligned address the | of the flag bits is an addition |
| PageTables.BuildPageTables | native/kvm/backend.cc:762-778 | for every base the nested loops write exactly the entries of the six tables and no other byte; it fails exactly when they do not fit |
| PageTables.FillDirectory | native/kvm/backend.cc:772-776 | the inner loop writes the 512 entries of one directory and nothing outside it |
| PageTables.IdentityMap | native/kvm/backend.cc:762-778 | with page-aligned tables the 4-level walk maps every virtual address below 4 GiB to itself through a present 2 MiB page |
| PageTables.NothingAbove | native/kvm/backend.cc:762-778 | on zeroed memory it maps nothing from 4 GiB to 2^48 |
| ElfLoader.LastWins | native/whp/elf_loader.cc:102-118 | each covered byte comes from the last PT_LOAD segment that covers it: the byte of the file or zero |
| ElfLoader.ElseUnchanged | native/whp/elf_loader.cc:102-118 | a byte that no PT_LOAD segment covers keeps its value |
| ElfLoader.EndIsMaximum | native/whp/elf_loader.cc:117 | kernel_end is the maximum of paddr + memsz, or 0 |
| ElfLoader.SegmentFields | native/whp/elf_loader.cc:48-57 | segment i is read from the fields of program header i by their offsets: the physical address, not the virtual one, places it |
| ElfLoader.LoadsIff | native/whp/elf_loader.cc:90-119 | which files load, by the fields of the ELF header and of every program header |
| ElfLoader.CheckSegment | native/whp/elf_loader.cc:109-111 | a segment passes exactly when its ranges lie in the file and in memory, with no sum that wraps |
| ElfLoader.PlaceSegment | native/whp/elf_loader.cc:112-116 | copy and zero fill are one replacement of the guest range; the start of the fill does not wrap |
| ElfLoader.LoadElfKernel | native/whp/elf_loader.cc:88-121 | it succeeds exactly when every check passes, and then memory, entry and kernel_end are what the table prescribes |
| Words.DropLowest | native/kvm/backend.cc:494 | word & (word - 1) drops exactly the lowest set bit |
| Snapshot.GetDirtyPages | native/kvm/backend.cc:478-498 | exactly the set bits below the page count, in increasing order |
| Snapshot.WriteSparseMemoryFile | native/kvm/backend.cc:301-315 | the file with holes reads back as the memory, and the count is that of the pages that are not zero |
| Snapshot.WriteDirtySnapshotFile | native/kvm/backend.cc:518-536 | the file is the header and one record per page |
| Snapshot.ApplyDirtySnapshotFile | native/kvm/backend.cc:538-555 | it fails exactly on a bad header, a short file or a page out of bounds, and otherwise applies every record |
| Snapshot.AppliesIff | native/kvm/backend.cc:538-553 | which files are applied, by the fields of the header and of every record |
| Snapshot.DeltaApplies | native/kvm/backend.cc:518-555 | applying a written delta replaces exactly the listed pages by those of memory |
| Snapshot.RestoresIff | native/kvm/backend.cc:518-555 | the patched base is the memory if and only if every page that differs from the base is listed |
| Snapshot.SnapshotRestores | native/kvm/backend.cc:478-555 | with the dirty list of a log that marks every changed page, delta and base restore memory |
| DiskPair.BackUp | src/disk.ts:145-154 | the backups taken before the targets are cleared, whatever fails, and exactly when that point is reached |
| DiskPair.RollBackRestores | src/disk.ts:159-171 | on the map of files: what the rollback restores, for any backups and either side of the point where the targets are cleared |
| DiskPair.RollBack | src/disk.ts:159-171 | the rollback restores each file that was backed up, leaves no temporary file and touches no other |
| DiskPair.InstallPersistentDiskPair | src/disk.ts:129-174 | it succeeds exactly when no operation it needs fails, in particular when none fails, and then leaves the new pair; failure leaves the old pair or its absence if and only if no existing file was taken for absent before a later failure |
| DiskPair.OneFailure | src/disk.ts:129-174 | with at most one failing forward operation nothing is lost |
| DiskPair.LosingCase | src/disk.ts:145-171 | two failures lose a disk: its existence check, and then the rename of the new one |

## Left out

- OverlayDisk.Disk.ReadOverlaid: the chunks are collected in a sequence and stored at once by `Read`, so a read that would fail half way is not modelled; `pread` and `pwrite` succeed.
- OverlayDisk.Disk.Write: the two files and the bitmap are sequence fields, so sharing a file with another process is not modelled.
- Virtqueue.WalkChain: `seen[]` is a sequence and the fixed-size chain array a growing sequence; the length check is kept and proved never to fire.
- BlockRequest.ReadStatus: stated for buffers disjoint from each other, from the status byte and from the descriptor table; what a driver that overlaps them gets is only the request function.
- BlockRun.RunOutcome: chains that share buffers are outside it; for them a run is only `ServeAll`, turn by turn.
- BlockDevice.VirtioBlk.Attempt: `fsync` for FLUSH succeeds.
- BlockDevice.QueueRun: the interrupt line and the register file around `handle_queue` are not modelled.
- NetData.VirtioNet.ProcessTx: the TAP path; with slirp the packet is the same, and the frames that slirp may answer with before the used entry are not modelled.
- RxBacklog.BacklogOrder: `deliver_rx_packet_now` is one step with an arbitrary result; its own use of the ring is `NetData`. That every schedule makes progress is not stated.
- PauseProtocol.AwaitedPause: a `stop()` call is modelled as the end of the claims; that a pause completes under every schedule, and the timeouts' clock, are not modelled.
- HvfCpus.SafeIff: stated, like `PauseProtocol.SafeIff`, for states in which no vCPU is on its way to stop the machine.
- HvfCpus.PsciProtocol: a run starts where all vCPUs have been created; claims about power states end with stop.
- IoApic.IoApic.Eoi: what the partition takes between two re-requests is arbitrary, so when the queue fills up in between it is left open which later one is dropped.
- IoApic.IoApic.WriteMmio: register reads and the waker callback are not modelled.
- Dsdt.ResourcesRead: the reader knows the two descriptors that a template holds here.
- Dsdt.BuildDsdtBody: the other ACPI tables are constant stores and left out.
- FdtBuild.FdtBuilder.Build: the random seeds are parameters; the fixed device nodes are written by one method from their values, where the source spells out the calls for each.
- Uart.Uart.EmitTx: echo to standard output and the interrupt identification register are not modelled.
- PageTables.IdentityMap: stated for a page-aligned base, the only kind that a walk can start from.
- ElfLoader.LoadElfKernel: after a failure memory may hold the segments placed before it; nothing is stated of it. Reading the file is not modelled.
- Snapshot.GetDirtyPages: the log is the hypervisor's answer and a parameter.
- DiskPair.InstallPersistentDiskPair: rollback operations succeed and a failed write may leave any content under its temporary name; crashes between operations are not modelled.
- Hypervisor calls, register and CPUID setup, N-API glue, libslirp, vmnet, TAP and socket code, clocks, terminal handling and the TypeScript command line are foreign calls, constant data or library wrappers.
- The KVM and HVF devices are modelled once where they agree; the WHP block device, UART, PIC, PIT and page table files are not part of this model.
