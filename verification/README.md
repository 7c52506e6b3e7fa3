# efishell kernel: verified models

Models of the parts of the efishell kernel where a mistake costs data, safety or
meaning, with proofs of what they promise:

- **TCP** (`tcp*.dfy`): a socket as the class its code updates, the specification
  functions it computes, what those do call by call, and runs of two sockets over
  a network that loses, repeats and reorders segments.
- **IP reassembly** (`reassembly*.dfy`): one entry as a function of its
  fragments, and the table of entries with its ageing.
- **The RIEF compiler and loader** (`rief_*.dfy`): the typed language, its meaning and
  the laws of that meaning, the machine, code generation, the one-pass emitter that patches jumps
  afterwards, the linking of calls, whole programs from the entry stub to the exit,
  the image writer and the loader.
- **FAT** (`fat_*.dfy`): the audit, the write-back cache of the table, file
  replacement, listing and looking up names, the search for free directory places,
  directory growth and creation, on a device that may fail at any request. A ghost history records
  every state the disk goes through, so that a claim about the history is a
  claim about every crash.
- **Native volumes** (`extents.dfy`, `ext_extents.dfy`, `ntfs_*.dfy`): extent
  lists, reads and writes through them, ext4 extent trees, NTFS update sequences and mapping pairs.
- **Paths** (`paths.dfy`), **page tables** (`mmu_*.dfy`) and the **scheduler**
  (`sched*.dfy`).

`basics.dfy` and `bytes.dfy` hold what several models share. Devices, clocks and
callees are parameters or nondeterministic choices: a request to a device that is
not `healthy` may fail, and a write that fails may have reached the disk. What is
said of a device that answers is said for `healthy`. The page allocator is a set of
free pages.

## Model

| member | source | states |
|---|---|---|
| TcpRuns.StreamSafety | kernel-src/drivers/net/networking.c:1330-2164 | over every run of two peers with loss, repetition, reordering and resets: what an application received is a prefix of what the other sent, and end of stream is reported only when all of it was delivered |
| TcpKept.NoByteLost | kernel-src/drivers/net/networking.c:1330-2164 | in every state of every run the send buffer of a socket that has not failed is the tail of what its application sent, and every byte before it has been taken by the far end, which holds it or has handed it out |
| TcpKept.RunKept | kernel-src/drivers/net/networking.c:1330-2164 | every step keeps what that rests on: no segment on the wire acknowledges more than its sender has taken, and no socket has dropped more than the far end has |
| TcpRuns.SocketsInOrder | kernel-src/drivers/net/networking.c:1410-1761 | in every state of every run a live socket has no more in flight than it holds, has nothing left to send once it finishes, is in TIME_WAIT only after both FINs, knows of the peer's FIN exactly in the states that say so, and keeps the timeout within 1 to 60 seconds |
| TcpRuns.RunKeeps | kernel-src/drivers/net/networking.c:1330-2164 | connect, accept, delivery, send, receive, close, timer, fault and MTU steps all keep the invariant that ties both sockets, both streams and every segment on the wire together |
| TcpRuns.InputReceives | kernel-src/drivers/net/networking.c:1507-1761 | a genuine or reset segment extends what the receiver holds only with the sender's next bytes, and the FIN is taken only when the sender closed |
| TcpRuns.NextBytesTaken | kernel-src/drivers/net/networking.c:1507-1761 | input of a genuine segment that covers the next expected byte, with an acknowledgment that passes: if and only if the receive window is open and the segment starts at that byte or ends within the window, its bytes are taken from there on, as many as the window holds; otherwise the socket is as it was |
| TcpRuns.StraddlerRefused | kernel-src/drivers/net/networking.c:1636-1650 | a segment that starts before the next expected byte and ends past the window is refused, although the data stage would take from it all that the window holds |
| TcpInvariant.InputHolds | kernel-src/drivers/net/networking.c:1507-1761 | any segment matched to the socket keeps the sender and close invariant, and every segment emitted is a slice of the stream at its sequence number |
| TcpInvariant.PumpKeeps | kernel-src/drivers/net/networking.c:1410-1506 | retransmission, new data, probes and the FIN keep the invariant, leave the receive side alone and emit only slices of the stream; which slices is said by the next rows |
| TcpPump.OldestFirst | kernel-src/drivers/net/networking.c:1440-1478 | when the timer is due and the retries are not used up, the first segment sent carries the oldest bytes in flight, as many as one segment takes, at their sequence number; the repeat is counted, the timeout doubles and the congestion window falls to one segment |
| TcpPump.SynIsSent | kernel-src/drivers/net/networking.c:1440-1478 | when the timer is due a socket that is opening sends its SYN, with the acknowledgment if it answers one |
| TcpPump.FinIsSent | kernel-src/drivers/net/networking.c:1440-1478 | when the timer is due a socket that is finishing sends its FIN behind the last byte |
| TcpPump.NothingEarly | kernel-src/drivers/net/networking.c:1440-1478 | before the timer is due nothing that was sent is sent again and no retry is counted |
| TcpPump.PumpSends | kernel-src/drivers/net/networking.c:1410-1506 | one pump on a network that takes every packet: a repeat exactly if one is due, then all of the new data that the peer and congestion windows allow, in order and in segments of full size but the last, then a probe exactly if the window is shut, and the FIN exactly if everything is acknowledged and the close requested; and the socket that is left |
| TcpAnswers.RegularInput | kernel-src/drivers/net/networking.c:1665-1761 | an acceptable segment on an open connection: the acknowledgment takes its bytes off the front of the buffer and opens the congestion window, the third repeated one sends the oldest data again, then the data that is next is taken and answered, then the pump runs |
| TcpAnswers.Refused | kernel-src/drivers/net/networking.c:1636-1650 | a segment outside the window changes nothing and is answered with where the stream stands, a reset is not answered |
| TcpAnswers.ResetOrSyn | kernel-src/drivers/net/networking.c:1651-1662 | a reset at the next expected byte ends the connection; one elsewhere in the window, and a SYN, only gets an acknowledgment, as far as those are allowed |
| TcpAnswers.BadAck | kernel-src/drivers/net/networking.c:1663-1668 | an acknowledgment of what was never sent is answered and changes nothing |
| TcpAnswers.SynAnswered | kernel-src/drivers/net/networking.c:1600-1621 | in SYN-SENT only a SYN that acknowledges the SYN opens the connection, and a reset that does fails it |
| TcpAnswers.SynAcknowledged | kernel-src/drivers/net/networking.c:1669-1675 | the acknowledgment of the answer to a SYN opens the connection |
| TcpAnswers.SynRepeated | kernel-src/drivers/net/networking.c:1631-1635 | a repeated SYN is answered again at once |
| TcpAnswers.LastAcked | kernel-src/drivers/net/networking.c:1679-1700 | the acknowledgment of the last FIN frees the socket |
| TcpAnswers.WaitRestarts | kernel-src/drivers/net/networking.c:1622-1628 | in TIME-WAIT a repeated FIN is acknowledged and the wait begins again |
| TcpAnswers.TimeEnds | kernel-src/drivers/net/networking.c:1410-1430 | TIME-WAIT, FIN-WAIT-2 and failed sockets end at their deadlines |
| TcpAnswers.SendTakes | kernel-src/drivers/net/networking.c:2038-2085 | a send takes as many bytes as there is room for, behind those that wait, and reports their number |
| TcpAnswers.ReceiveGives | kernel-src/drivers/net/networking.c:2087-2138 | a receive gives the oldest bytes, as many as asked for and there, and tells the peer of the room |
| TcpAnswers.OpeningSends | kernel-src/drivers/net/networking.c:1547-1581 | connecting sends a SYN, and a SYN to a listener is answered with one that acknowledges it |
| TcpAnswers.CloseAsks | kernel-src/drivers/net/networking.c:2140-2164 | closing resets a connection that is not open yet, and otherwise lets what is buffered go out before the FIN |
| TcpInvariant.AckInFlight | kernel-src/drivers/net/networking.c:1665-1677 | with at most a buffer and a FIN in flight, the two wrapping comparisons accept an acknowledgment if and only if it is inside the flight, across the 2^32 boundary |
| TcpInvariant.PumpWithinWindow | kernel-src/drivers/net/networking.c:1479-1494 | the pump never lets the flight grow beyond the smaller of the peer's window and the congestion window |
| TcpWindow.StepWithin | kernel-src/drivers/net/networking.c:1330-2164 | in every step of every run, whatever the step, a socket that is still sending has no more in flight than before or than the smaller of the peer's window and the congestion window |
| TcpSocket.Socket.RunPump | kernel-src/drivers/net/networking.c:1410-1506 | the pump in place computes the pump that those laws describe and touches no buffer |
| TcpSocket.Socket.Deliver | kernel-src/drivers/net/networking.c:1507-1761 | input in place, on the transmit buffer and the receive ring, computes the specified input and keeps the invariant |
| TcpSocket.Socket.Write | kernel-src/drivers/net/networking.c:2038-2085 | sending appends to the transmit buffer exactly what the specification appends, with its result code |
| TcpSocket.Socket.Read | kernel-src/drivers/net/networking.c:2087-2138 | receiving takes from the receive ring exactly what the specification takes, with its result code |
| Reassembly.DeliveryIsTiling | kernel-src/drivers/net/networking.c:1038-1106 | a datagram is delivered at the last of some arrivals if and only if they tile it: pieces of it, apart from each other, covering it |
| Reassembly.OrderIndependent | kernel-src/drivers/net/networking.c:1038-1106 | the same fragments in any order deliver the same datagram, and not before the last one |
| Reassembly.DropIsMisfit | kernel-src/drivers/net/networking.c:1038-1106 | the entry is given up if and only if the fragment overlaps one that is held or contradicts what is known of the end |
| ReassemblyTable.Reassembler.Receive | kernel-src/drivers/net/networking.c:1038-1106 | the table finds the live entry of the key or a free one, with 30 seconds to go, ages the others, and stores, drops or delivers as the one-entry theory says; no other entry changes; a fragment is ignored exactly if it is empty, beyond 8192 bytes or of odd length, and refused for want of an entry exactly if its key has none and all are taken |
| RiefProgram.CallsAgree | kernel-src/tools/rief.c:1036-1480 | whenever a call of a source program returns, running the generated code from an aligned stack returns the same value and the same memory, through any nesting of calls |
| RiefProgram.WorldsAgree | kernel-src/tools/rief.c:1444-1480 | at every nesting depth the functions as the machine runs them do what the source functions do |
| RiefProgram.RunFunc | kernel-src/tools/rief.c:1444-1480 | prologue, parameter spills, body and epilogue of one function finish with its result or 0, whatever its callees do |
| RiefProgram.FinishIsUnique | kernel-src/tools/rief.c:1444-1480 | code that finishes does so in one state only |
| RiefStmt.RunStmt | kernel-src/tools/rief.c:1365-1443 | the code of a statement ends behind it, at the loop's exit or continuation, or at the epilogue, as the statement does, with the same memory and an empty expression stack |
| RiefStmt.RunLoop | kernel-src/tools/rief.c:1397-1423 | so do while and for loops, over any number of iterations |
| RiefCorrect.RunExpr | kernel-src/tools/rief.c:1258-1364 | the code of an expression leaves its value in the accumulator and its effects in memory, and leaves the stack as it was; calls fault on a stack that is not 16-byte aligned, so none is made on one |
| RiefLaws.AssignLaw | kernel-src/tools/rief.c:1110-1121 | an assignment through a type of 1, 2, 4 or 8 bytes changes exactly the bytes at its address, each to its byte of the value, and gives that value cut to the size |
| RiefLaws.ReadLaw | kernel-src/tools/rief.c:1097-1109 | reading an object gives the little-endian number of exactly its bytes, zero-extended |
| RiefLaws.ReadBack | kernel-src/tools/rief.c:1097-1121 | what was written is what is read |
| RiefLaws.ReadElsewhere | kernel-src/tools/rief.c:1097-1121 | objects that share no byte with what was written read as before |
| RiefLaws.AssignOpLaw | kernel-src/tools/rief.c:1258-1364 | an operator assignment reads the old value first, computes, and stores the result as a plain assignment does |
| RiefLaws.CountLaw | kernel-src/tools/rief.c:1258-1364 | counting steps by one or by the size of what is pointed to, within the size of the object, and gives the value before or after |
| RiefLaws.CastLaw | kernel-src/tools/rief.c:1086-1096 | a cast keeps the value modulo 256 to the size |
| RiefLaws.SumLaw | kernel-src/tools/rief.c:1146-1166 | sums, differences and products are modulo 2^64, and an index counts in elements of what is pointed to |
| RiefLaws.SizesLaw | kernel-src/tools/rief.c:1146-1166 | addresses take eight bytes, and the elements of an array fill it |
| RiefLaws.DistanceLaw | kernel-src/tools/rief.c:1160-1167 | the difference of two addresses that lie n elements apart is n |
| RiefLaws.DivideLaw | kernel-src/tools/rief.c:1171-1183 | division and remainder round toward zero on the numbers that the words stand for, unsigned exactly if an operand is an address or unsigned and eight bytes wide, and fault exactly for a zero divisor or a quotient of 2^63 |
| RiefLaws.CompareLaw | kernel-src/tools/rief.c:1197-1208 | comparisons are those of the numbers and give one or zero |
| RiefLaws.ShiftLeftLaw | kernel-src/tools/rief.c:1184-1189 | a left shift multiplies by a power of two, counted modulo 64 |
| RiefLaws.ShiftRightLaw | kernel-src/tools/rief.c:1184-1189 | a right shift divides by a power of two, counted modulo 64, and rounds down |
| RiefLaws.BitwiseLaw | kernel-src/tools/rief.c:1190-1196 | and, or and exclusive or work digit by digit |
| RiefLaws.UnaryLaw | kernel-src/tools/rief.c:1258-1364 | minus, complement and not, by what they add up to |
| RiefLaws.ShortLaw | kernel-src/tools/rief.c:1258-1364 | the right operand of and-also and or-else runs only if the left has not decided |
| RiefLaws.ElementLaw | kernel-src/tools/rief.c:1123-1145 | element i lies i element sizes behind its array |
| RiefLaws.PlaceLaw | kernel-src/tools/rief.c:1123-1145 | locals lie below the base of the frame, globals and thread locals behind their regions, members behind their struct |
| RiefLaws.ArgumentsLaw | kernel-src/tools/rief.c:1210-1230 | arguments run from left to right, each in the memory the one before left, and arrive in that order |
| RiefLaws.OrderLaw | kernel-src/tools/rief.c:1258-1364 | the left operand runs before the right one |
| RiefLaws.ChoiceLaw | kernel-src/tools/rief.c:1258-1364 | a conditional runs one of its two parts, by its condition |
| RiefLaws.WhileLaw | kernel-src/tools/rief.c:1397-1423 | a while loop is its test, its body and itself again |
| RiefLaws.ForIsWhile | kernel-src/tools/rief.c:1397-1423 | a for loop is its initialization and a while loop over body and step |
| RiefLaws.ContinueLaw | kernel-src/tools/rief.c:1397-1423 | continuing early runs the step and then the loop again |
| RiefLaws.ParamsLaw | kernel-src/tools/rief.c:1444-1462 | a function starts with every parameter holding its argument, cut to the size of its type |
| RiefCorrect.RunAddr | kernel-src/tools/rief.c:1123-1145 | the code of an lvalue computes its address |
| RiefCorrect.RunOp | kernel-src/tools/rief.c:1146-1209 | the instructions of an operator compute it on 64-bit words: scaling of pointers, signedness, division faults, shifts and comparisons |
| RiefCorrect.CallsAligned | kernel-src/tools/rief.c:1210-1257 | one word of padding for an odd number of temporaries makes every call's stack pointer a multiple of 16 when the frame is aligned |
| RiefEmit.PatchStmt | kernel-src/tools/rief.c:1036-1054 | patching the recorded jumps of a kind afterwards gives the code that knew the target beforehand |
| RiefEmit.ResolveLoop | kernel-src/tools/rief.c:1397-1423 | patching the breaks and continues that a loop body recorded gives the loop's code |
| RiefEmit.ResolveFunc | kernel-src/tools/rief.c:1444-1480 | patching a function's returns to its epilogue gives the function's code |
| RiefEmit.Emitter.Gen | kernel-src/tools/rief.c:1258-1364 | the one-pass generator appends exactly the code of the expression and restores its count of temporaries |
| RiefEmit.Emitter.Emit | kernel-src/tools/rief.c:1365-1443 | it appends exactly the code of the statement with open jumps and records exactly those; it gives up if and only if break or continue is outside a loop or there are more jumps than it can record |
| RiefEmit.Emitter.EmitProgram | kernel-src/tools/rief.c:1444-1476 | it succeeds if and only if every function is well nested and within the limits on jumps, and then all functions follow each other in the buffer at their entries with every jump resolved: the premise of CallsAgree |
| RiefEmit.Emitter.Generate | kernel-src/tools/rief.c:1444-1480 | entry stub, functions and fixing of calls give the linked code of the whole program; it gives up if and only if a function cannot be emitted or there are more calls than can be recorded |
| RiefLink.FixCalls | kernel-src/tools/rief.c:1477-1479 | patching every recorded call afterwards gives the code in which every call is aimed at the entry of its function |
| RiefLink.Record | kernel-src/tools/rief.c:1243-1252 | calls are emitted with displacement 0 and recorded in order, up to the limit on calls |
| RiefLink.FlatRuns | kernel-src/tools/rief.c:1210-1257 | whatever nested calls do, the linked code does on one machine with return addresses, up to the instruction that ends the function, whoever its callers are |
| RiefLink.ProgramExits | kernel-src/tools/rief.c:1444-1480 | if main returns in the source, the linked code run from its entry stub comes to the exit call with main's result and memory, on the stack that a program starts with |
| RiefImage.Output | kernel-src/tools/rief.c:1492-1547 | the writer lays out header, regions, relocations, exports and strings as the format describes, or refuses an image over 4 MiB |
| RiefLoader.Check | kernel-src/kernel/process.c:75-188 | the loader's checks pass if and only if the image is well formed (spans, alignments, strings, relocations in order, unique exports, an entry in executable memory) and every import has exactly one binding of its name, at a readable address; the addresses returned are those of the bindings |
| RiefLoader.AcceptedLoads | kernel-src/kernel/process.c:75-202 | an image that passes the checks can be loaded: each region gets its bytes from a part of the file of its own and zeros behind them, none is writable and executable, every relocation has a slot of its own inside its region, and the entry is loaded executable code |
| RiefLoader.Bind | kernel-src/kernel/process.c:146-156 | the scan of the bindings finds the one binding of a name, says that there is none exactly if there is none, and refuses a second one or an unreadable address |
| RiefLoader.RelocatedIs | kernel-src/kernel/process.c:203-253 | after relocation every slot holds its value and every byte outside the slots is what it was |
| RiefLoader.RelocationReaches | kernel-src/kernel/process.c:203-246 | a relocation is possible if and only if it leads into its region, or to a readable import, in user memory, and for a short distance near enough; an absolute slot then holds that address, and a relative one the distance to it from behind the slot |
| RiefLoader.Relocate | kernel-src/kernel/process.c:203-253 | the relocation loop computes that memory, imports included |
| RiefLoads.ImageAccepted | kernel-src/tools/rief.c:1492-1547 | every image that the compiler writes passes every check of the loader, whatever is bound |
| RiefLoads.LoadedProgram | kernel-src/kernel/process.c:75-270 | loading what the compiler wrote succeeds; every reference holds the address it stands for and every other byte is the compiler's |
| FatVolume.FatVolume.Replace | kernel-src/fs/fs.c:1120-1189 | every disk state of a replacement reads the file as the old or the new contents, keeps every other object, and is complete if it is marked clean; success reads the new contents on an idle volume whose objects are still closed under listing and whose directories list what they listed, with an entry that differs in the first cluster, the size and the archive attribute only; errors before the first write change nothing; success means that the entry was live and neither read-only nor a directory, each error comes for its reason only, and with a device that answers the outcome is decided by size, entry and space: success if and only if nothing forbids it |
| FatVolume.FatVolume.Create | kernel-src/fs/fs.c:1289-1419 | every disk state of a creation upholds all objects and keeps them listed; success adds one object in a place that nobody had, with its long and short name entries side by side, and grows the directory by at most two clusters; looking up names in the directory then gives the new object for its name, in any case of letters, and what it gave for every other name; no listed object shares its short name; every other directory lists what it listed, a new one lists nothing; closure under listing is kept; a name that is there is refused, and the error cases for bad names and space are exact; with a device that answers, and a listing that can be followed, it succeeds whenever the name is not there, a short name and four clusters are free, and the directory is within its limit or has the room |
| FatLookup.NothingBlocked | kernel-src/fs/fs.c:664-690 | on a volume that the audit accepts every listing can be followed |
| FatListing.FindInserted | kernel-src/fs/fs.c:547-560 | a directory is a map from names, up to case: adding an object whose name is not there changes the map at that name only |
| FatListing.SameNameIs | kernel-src/fs/fs.c:547-559 | two names are the same if and only if they are so letter by letter, in any case |
| FatListing.NewListing | kernel-src/fs/fs.c:596-664 | a name spelled in unused places, with an end mark behind it if one was among them, adds one item to the listing and changes no other |
| FatLookup.LookUp | kernel-src/fs/fs.c:568-714 | the walk with its limits and its cycle check finds the first listed object of the name, or none if there is none; it fails only for the device, a listed object outside the volume or more than 65536 entries |
| FatLookup.ShortTaken | kernel-src/fs/fs.c:1250-1278 | the scan tells whether an entry before the end mark has the short name, and never runs into its limit on a sound directory |
| FatLookup.PickShort | kernel-src/fs/fs.c:1319-1335 | the first free one of the 65535 short names is picked, and none only if all are taken |
| FatClosed.CreatedClosed | kernel-src/fs/fs.c:1350-1419 | an addition that shows nothing but its own object keeps the objects closed under listing |
| FatClosed.ReplacedClosed | kernel-src/fs/fs.c:1140-1189 | so does a replacement |
| FatVolume.FatVolume.FindSlots | kernel-src/fs/fs.c:1191-1245 | the scan over the directory's chain, with growth inside it, finds consecutive places that no object has, at most 22 of them, with no end mark before them and one among them exactly if it says so; it grows only if there is no room, by at most two clusters, and never runs out of clusters for that; with a device that answers it fails only beyond its limit or, in the fixed root area, without room |
| FatVolume.FatVolume.Extend | kernel-src/fs/fs.c:1222-1242 | a zeroed cluster is flushed before it is linked; the scan goes on in it where it stood |
| FatSearch.VacantIsFree | kernel-src/fs/fs.c:1204-1217 | a place that is deleted, or that listing reaches only at or behind an end mark, belongs to no object |
| FatSearch.SearchSector | kernel-src/fs/fs.c:1200-1218 | the inner loop keeps the run of free places, the end flag and both scan limits as the walk defines them, and passes no stretch of places that would have been enough |
| FatSearch.GrowthBound | kernel-src/fs/fs.c:1191-1245 | two added clusters always hold the places that are missing |
| FatQuiet.StaleExactly | kernel-src/fs/fs.c:1350-1361 | between the placeholder writes listing shows a stale entry if and only if one of the places looks like an object |
| FatStale.StaleExample | kernel-src/fs/fs.c:1350-1361 | a FAT16 volume that passes every check before a first write, and on which a creation shows an old entry after its first placeholder |
| FatVolume.FatVolume.Reserve | kernel-src/fs/fs.c:1350-1361 | the new end mark is written first, then deleted entries from the first place on; the history gets exactly those states and no byte outside the places changes |
| FatVolume.FatVolume.FillPlaces | kernel-src/fs/fs.c:1350-1419 | placeholders, the first cluster of a directory, the long name and last the short entry leave an idle volume with the named object |
| FatNaming.QuietNow | kernel-src/fs/fs.c:1350-1419 | after a creation every directory that was there lists nothing but what it listed and the new object |
| FatNaming.RetainedNow | kernel-src/fs/fs.c:1350-1419 | and it lists all of that, under the same numbers and with the same entries |
| FatNaming.NameReads | kernel-src/fs/fs.c:602-648 | whatever a listing has read before, it reads the entries of a created object as its name |
| FatVolume.FatVolume.Grow | kernel-src/fs/fs.c:1225-1239 | one more cluster for a directory in every disk state keeps every object; it fails for space if and only if no cluster is free, and otherwise for the device only |
| FatVolume.FatVolume.Link | kernel-src/fs/fs.c:1235-1238 | from the write of one FAT sector to the next the directory is longer and nothing is in between |
| FatVolume.FatVolume.Allocate | kernel-src/fs/fs.c:1041-1056 | a free cluster is found if and only if the free count is not zero, wherever the hint stands, and bitmap, count and table stay exact |
| FatVolume.FatVolume.FlushCache | kernel-src/fs/fs.c:861-874 | flushing writes the dirty sectors of every copy, first the one with the clean mark, and no state on the way is marked clean and incomplete |
| FatVolume.FatVolume.BeginWrite | kernel-src/fs/fs.c:1001-1028 | the clean mark is cleared on disk and both hints of every valid FSInfo sector, and nothing else outside the tables, are overwritten before anything else changes |
| FatVolume.FatVolume.FinishWrite | kernel-src/fs/fs.c:1029-1040 | success marks a complete volume clean; any failure closes it |
| FatVolume.FatVolume.FreeChain | kernel-src/fs/fs.c:1174-1183 | freeing the old chain returns exactly its clusters |
| FatVolume.FatVolume.Prepare | kernel-src/fs/fs.c:919-1000 | an accepted volume has the header cells, the clean mark and the mirror that are asked for and is idle: objects with disjoint chains, all listed, exact bitmap and count, and closed under listing its directories; with a device that answers a volume is accepted if and only if it has those marks and is intact with no cluster in use lost |
| FatAuditor.Audit.Run | kernel-src/fs/fs.c:568-702 | the queue of directories accepts a volume only if it is intact: objects consistent, each reached from the root, everything listed among them, at most 4096 directories, none longer than 65536 entries; with a device that answers it accepts every intact volume and finds exactly its objects |
| FatAuditor.Audit.MarkChain | kernel-src/fs/fs.c:875-890 | marking succeeds if and only if there is a chain from the first cluster that holds the size, is no longer than 65536 and meets nothing used; it marks exactly that |
| FatIntact.IntactUnique | kernel-src/fs/fs.c:895-975 | the disk of an intact volume determines its objects and their chains |
| FatVolume.Sweep | kernel-src/fs/fs.c:979-990 | the last pass counts the free cells and refuses if and only if a cell in use is neither bad nor owned |
| FatCrash.CrashBefore | kernel-src/fs/fs.c:1140-1165 | before the entry write a crash leaves the old contents and everything else |
| FatCrash.CrashAfter | kernel-src/fs/fs.c:1166-1189 | after it a crash leaves the new contents and everything else |
| FatCrash.PhaseReads | kernel-src/fs/fs.c:1120-1189 | throughout a phase every object reads as it does on the reference disk |
| FatDisk.WriteReaches | kernel-src/fs/fs.c:823-874 | one write changes one sector: the cells that fill one sector of one copy of the table, or one sector outside the tables |
| FatChains.ChainDistinct | kernel-src/fs/fs.c:521-546 | a chain that ends visits no cluster twice |
| FatChains.CollectChain | kernel-src/fs/fs.c:749-801 | the read loop with its cycle check collects the bytes of the chain and is never cut short |
| FatGrowth.UpheldFree | kernel-src/fs/fs.c:1075-1090 | an entry in a free place, if it is no end mark or one behind an end mark, leaves every object, its contents and its listing alone |
| FatGrowth.UpheldNew | kernel-src/fs/fs.c:1406-1414 | the short entry makes the object appear, listed and empty |
| FatGrowth.UpheldGrown | kernel-src/fs/fs.c:1235-1238 | linking a cluster to a directory leaves every file alone |
| FatNames.LongNameRoundTrip | kernel-src/fs/fs.c:1387-1403 | the entries written for a name, read after anything, give exactly that name |
| FatListing.LongNameOnly | kernel-src/fs/fs.c:602-648 | an entry is listed under a long name only behind all parts of one, from the last to the first without a gap, each with the checksum of its short name, and the name has their letters |
| FatListing.ShortNameReads | kernel-src/fs/fs.c:649-657 | without a long name an entry is listed as its name without the padding and, after a dot, its extension |
| FatNames.AcceptedIs | kernel-src/fs/fs.c:1292-1298 | a name may have the printable characters but nine, the slash between names among them |
| FatNames.ChecksumDetects | kernel-src/fs/fs.c:560-566 | the checksum changes with every change of one byte of the short name |
| FatNames.WriteEntry | kernel-src/fs/fs.c:1387-1403 | the loop over the thirteen positions builds the entry |
| FatNames.Reader.Take | kernel-src/fs/fs.c:604-640 | the decoder's update in place is the specified step |
| Extents.RunAdd | kernel-src/fs/fs.c:1754-1768 | a run is appended if and only if the list stays sorted, in range and physically disjoint |
| ExtExtents.Decode | kernel-src/fs/fs.c:1884-1931 | whatever the blocks of an extent tree hold the list stays sound; if decoding succeeds it has gained exactly the leaves, from left to right, of a well-formed tree within depth 5, and has spent one of the budget for every node; with a device that answers it succeeds for every well-formed tree within the budget whose leaves may all be appended |
| Extents.PlacesDistinct | kernel-src/fs/fs.c:1754-1796 | through such a list two offsets never share a byte of the disk |
| Extents.Volume.Read | kernel-src/fs/fs.c:1769-1796 | reading gives the flat array of the list, zeros in its holes, and fails for the device only |
| Extents.Volume.Write | kernel-src/fs/fs.c:1769-1796 | writing overwrites the flat array up to the first hole or failure; a failure may have changed bytes of its own block only, each to its new value, and closes the volume; nothing else changes; where every byte has a place, the volume may be written and the device answers, it succeeds |
| Extents.Volume.WriteBytes | kernel-src/fs/fs.c:1724-1753 | sector by sector, partial sectors read first, then a flush: on success the bytes are in place, on a failure each is old or new, and no other byte changes |
| NtfsRecord.FixupUndoesPack | kernel-src/fs/fs.c:2055-2072 | undoing the update sequence of a packed record gives the record back, outside the array itself, wherever the array lies apart from the sector ends |
| NtfsRecord.OverlapRefused | kernel-src/fs/fs.c:2264-2279 | an array over a sector end passes the checks of the writer, and the record stored with it is refused by the fixup |
| NtfsRecord.FixedWhen | kernel-src/fs/fs.c:2055-2072 | the fixup succeeds if and only if every sector carries the sequence number, and restores only the sector ends |
| NtfsRecord.PackedMarked | kernel-src/fs/fs.c:2264-2279 | packing keeps the header fields that the fixup reads |
| NtfsRecord.Pack | kernel-src/fs/fs.c:2264-2279 | the packing loop in place: it refuses if and only if the array starts too low, has the wrong count or does not fit, and otherwise gives the packed record with the next sequence number; the lowest place is a parameter, 8 here and 48 in the transactions (lines 3690-3705) |
| NtfsRecord.Fixup | kernel-src/fs/fs.c:2055-2072 | the fixup loop in place, for any bytes: it succeeds if and only if the fields are in order and every sector carries the number, and gives the fixed record |
| NtfsRuns.PairsSound | kernel-src/fs/fs.c:2073-2117 | whatever the bytes, the runs read are sorted, in range and disjoint |
| NtfsRuns.ReadPairs | kernel-src/fs/fs.c:2073-2117 | the loop over the mapping pairs |
| NtfsRuns.RunRoundTrip | kernel-src/fs/fs.c:3864-3891 | reading the attribute written for a run gives that run and its length |
| NtfsRuns.PairsRoundTrip | kernel-src/fs/fs.c:2073-2117 | any sound list of runs, written with each place as its signed distance from the one before, forwards or backwards, or as a hole, is read back as it was |
| NtfsRuns.DataAttribute | kernel-src/fs/fs.c:3864-3891 | the writer picks field widths for which that holds |
| Paths.WalkIsFold | kernel-src/fs/fs.c:67-147 | resolving is the fold of the path's words over a stack of components; only the limit of 4096 steps can make it differ |
| Paths.MeaningIsNormal | kernel-src/fs/fs.c:67-147 | a resolved path has no empty, dot or dot-dot component, fits the buffer and resolves to itself; one below a named root stays below that root |
| Paths.ResolvedIsFixed | kernel-src/fs/fs.c:67-147 | the text of a stack resolves to the stack |
| Paths.RelativeIsBelow | kernel-src/fs/fs.c:67-147 | a relative path means what it means behind the text of the working directory |
| Paths.NamedIsBelow | kernel-src/fs/fs.c:67-147 | a path below a named root means what it means behind the text of that root |
| Paths.Resolve | kernel-src/fs/fs.c:67-147 | the loop that works in the output buffer computes that meaning, error codes included |
| AddressSpaces.AddressSpace.PtChild | kernel-src/arch/x86_64/mmu.c:11-41 | getting or making a lower table, by splitting a large page if need be, changes no address's view, and failing changes none |
| AddressSpaces.AddressSpace.MapPageRaw | kernel-src/arch/x86_64/mmu.c:42-63 | mapping a page changes the view of that page to what was asked; every canonical address in another page translates as before; failing changes no view; it refuses as invalid exactly bad addresses, as present only a page whose view is not a fault and that may not be replaced, for permission only where the address or a table on its way keeps the user out, for memory only with fewer than three free pages, and otherwise it succeeds |
| AddressViews.CanonicalIs | kernel-src/arch/x86_64/mmu.c:9 | the addresses that can be mapped are the two ends of 2^47 bytes each of the 64-bit space |
| AddressSpaces.AddressSpace.Translate | kernel-src/arch/x86_64/mmu.c:102-124 | translation succeeds if and only if the address is canonical and mapped, with the frame and rights that the walk sees |
| AddressSpaces.AddressSpace.Alloc | kernel-src/arch/x86_64/mmu.c:366-415 | an allocation is an aligned run of fresh pages with the rights asked for and a guard page behind it; the space stays free of writable executable and of shared pages; failing leaves every view and the count; where the run it comes to is vacant it succeeds or lacks free pages for it |
| AddressSpaces.RightsAre | kernel-src/arch/x86_64/mmu.c:366-371 | the rights that are granted are reading alone, with writing, or with execution |
| AddressSpaces.AddressSpace.AllocEx | kernel-src/arch/x86_64/vm_features.c:19-86 | the same with large pages, or lazily with pages that fault in later |
| AddressSpaces.AddressSpace.MapFixed | kernel-src/arch/x86_64/mmu.c:520-570 | the same at a fixed address outside the kernel's slots; a run that is vacant and within the limits is mapped or lacks free pages for it |
| AddressSpaces.AddressSpace.DemandFault | kernel-src/arch/x86_64/vm_features.c:87-110 | a fault is served only where a lazy page lies and allows the access, with a page that nobody had and the page's rights; where the walk to such a page lets the user through it is refused for lack of memory alone; a refusal changes no view |
| AddressViews.SplitLarge | kernel-src/arch/x86_64/mmu.c:11-41 | a large page split into a table of smaller ones shows every address what it showed |
| AddressViews.EmptyTable | kernel-src/arch/x86_64/mmu.c:11-41 | hanging an empty table changes no view |
| PageTable.LeafWritten | kernel-src/arch/x86_64/mmu.c:42-63 | a leaf written below existing tables changes the views that go through it and no others |
| PageTable.WalkPermissions | kernel-src/arch/x86_64/mmu.c:102-124 | a page can be written, or used by the user, exactly if every entry on the way to it says so, and run exactly if none forbids it |
| PageTable.LargeBlock | kernel-src/arch/x86_64/mmu.c:11-41 | a large page maps its frames one after the other, aligned to its size |
| SchedRuns.NoLostWakeup | kernel-src/kernel/kernel.c:201-604 | in every state of every run from boot: a blocked task waits for a mutex that is held or a semaphore at zero, a running task is its CPU's current one, and a CPU with work waiting for it is told so |
| SchedRuns.OneHolder | kernel-src/kernel/kernel.c:509-556 | in every state of every run from boot a mutex is held by at most one task |
| SchedLaws.SemaphoreAccount | kernel-src/kernel/kernel.c:557-604 | over every run from a state of the invariant, the one after its last initialization for example, the count of a semaphore is its value there and the posts since that were below the limit, less the waits since that were told Done |
| SchedLaws.TakeNeeds | kernel-src/kernel/kernel.c:562-594 | a wait is told Done if and only if the count is positive; otherwise it fails or the task is blocked on the semaphore |
| SchedLaws.PostLetsThrough | kernel-src/kernel/kernel.c:573-604 | after a post, and whatever happens but another wait, the next wait is told Done |
| SchedLaws.LockNeeds | kernel-src/kernel/kernel.c:509-542 | a lock is told Done if and only if nobody has the mutex; otherwise it fails or the task is blocked on the mutex |
| SchedLaws.UnlockLetsThrough | kernel-src/kernel/kernel.c:521-556 | after an unlock that succeeds, and whatever happens but another attempt, the next attempt gets the mutex |
| SchedLaws.WakesWaiters | kernel-src/kernel/kernel.c:543-604 | a post and a successful unlock make exactly the waiters ready |
| SchedLaws.SchedulePass | kernel-src/kernel/kernel.c:304-390 | a pass of the scheduler charges the current task by its weight, makes the sleepers ready whose time has come, and unless the current task goes on gives the CPU to the first ready task by virtual time and id with a turn by its share of the weight |
| SchedLaws.CreateStarts | kernel-src/kernel/kernel.c:238-264 | a new task is ready, its CPU is told, and its virtual time is that of the least task that can run there |
| SchedLaws.SleepsUntil | kernel-src/kernel/kernel.c:304-410 | a sleeping task is left alone until the first pass of its CPU at or after its time, which makes it ready |
| SchedLaws.SleepLeaves | kernel-src/kernel/kernel.c:396-410 | sleeping takes a task off its CPU, and is refused with preemption off |
| SchedRuns.RunKeeps | kernel-src/kernel/kernel.c:201-604 | any interleaving of critical sections on any CPUs keeps the invariant, and no CPU's floor ever goes down |
| SchedRuns.BootHolds | kernel-src/kernel/kernel.c:270-290 | the state that initialization leaves satisfies the invariant |
| SchedRuns.FairExactly | kernel-src/kernel/kernel.c:304-390 | two preemptible competitors within eight ticks of each other stay so in every run if and only if neither is about to overrun a turn that is used up |
| SchedRuns.OverrunIsUnfair | kernel-src/kernel/kernel.c:304-390 | from boot, one task created, preemption off, eight ticks, preemption on: a reachable state from which competitors drift further apart |
| SchedTable.Scheduler.constructor | kernel-src/kernel/kernel.c:270-290 | initialization builds the boot state |
| SchedTable.Scheduler.Reschedule | kernel-src/kernel/kernel.c:304-390 | the scheduling pass over the tables computes the specified state: accounting, sleepers, choice by virtual time and id, slice by weight |
| SchedTable.Scheduler.NewTask | kernel-src/kernel/kernel.c:238-264 | creation in place takes the first free entry and builds the specified task; it fails only for lack of an entry or of memory and then changes nothing |
| SchedTable.Scheduler.MutexTrylock | kernel-src/kernel/kernel.c:509-520 | the attempt in place takes a free mutex and otherwise changes nothing |
| SchedTable.Scheduler.MutexLock | kernel-src/kernel/kernel.c:521-542 | one pass of the locking loop in place takes the mutex or blocks the task on it |
| SchedTable.Scheduler.MutexUnlock | kernel-src/kernel/kernel.c:543-556 | unlocking in place frees the mutex and makes every waiter ready |
| SchedTable.Scheduler.SemTrywait | kernel-src/kernel/kernel.c:562-572 | the attempt in place lowers a positive count and otherwise changes nothing |
| SchedTable.Scheduler.SemWait | kernel-src/kernel/kernel.c:573-594 | one pass of the waiting loop in place lowers the count or blocks the task on it |
| SchedTable.Scheduler.SemPost | kernel-src/kernel/kernel.c:595-604 | posting in place raises the count unless it is at its limit and makes every waiter ready, which is what those laws are about |

## Findings

Four things that the code or its comments promise do not hold in all cases; each has
a concrete case.

- Fairness (`kernel-src/kernel/kernel.c:304-390`). Competitors are meant to stay
  within the eight ticks of a turn. A task that keeps its CPU with preemption off
  uses up its slice and goes on; when it allows preemption again it has one more
  tick to run. `SchedRuns.OverrunIsUnfair` reaches this from boot in eleven
  events. `SchedRuns.FairExactly` is the exact condition on a state: closeness lasts
  in every run from it if and only if neither competitor is about to run on a slice
  of 0, however that came about.
- Placeholders (`kernel-src/fs/fs.c:1356-1359`). Deleted entries are written into
  the free places so that no stale entry shows while a name is written. They are
  written from the first place on, and the first write may remove the end mark
  while places behind it still hold old entries. `FatStale.StaleExample` is such
  a volume; `FatQuiet.StaleExactly` shows that it happens, for some state of the
  history that `FatVolume.FatVolume.Reserve` records, exactly when one of the
  places looks like an object. A creation that completes lists nothing stale
  (`FatNaming.QuietNow`).
- Straddling segments (`kernel-src/drivers/net/networking.c:1638-1650`). The
  acceptability test looks at the first and the last byte of a segment only. One that
  starts before the next expected byte and ends past the window is refused although it
  carries bytes that are due (`TcpRuns.StraddlerRefused`); `TcpRuns.NextBytesTaken` is
  the exact condition.
- Update arrays (`kernel-src/fs/fs.c:2264-2279`). The writer accepts an array that lies
  over a sector end, and what it then stores cannot be read back
  (`NtfsRecord.OverlapRefused`). Apart from the sector ends it can
  (`NtfsRecord.FixupUndoesPack`).

## Left out

- TcpRuns.StreamSafety: for streams shorter than 2^32 - 2048 bytes; beyond that a segment that the network kept is not told apart from a new one with the same sequence number.
- TCP: one connection per pair, no reuse of socket slots, no listen backlog; forged segments other than resets; checksums and option parsing; UDP and ICMP.
- RiefProgram.CallsAgree: the first call is made on a 16-byte aligned stack; calls nest and loops iterate up to a bound that is any number.
- RiefEmit.Emitter.Generate: the table of calls is read off the emitted code and not kept while it is emitted, so the limit on calls is met at the end; displacements count instructions, and their 32-bit range is not modelled.
- RIEF: the parser, x86 encodings (an instruction stands for its byte sequence) and the compiler's limits other than those on jumps and calls; temporaries and return addresses live on stacks of their own and not in byte memory, and a return clears the registers that a callee may change.
- RiefLoader.Relocate: rolling back a failed load; which addresses can be read is a parameter.
- FatVolume.FatVolume.Create: splitting the path and opening the parent come before it; that it succeeds is stated for directories with two clusters to spare below the limit of 65536 entries, those closer to it may succeed too.
- FatAuditor.Audit.Run: the entries named . and .. are given by a parameter, since their names come from the listing.
- FAT: FAT12, mounting and the checks of the boot sector, deletion and renaming, the layer above files.
- NtfsRecord.FixupUndoesPack: an array over a sector end may by chance hold bytes that can be read back; that condition on the contents is not stated.
- Native volumes: checksums (a parameter), inodes, allocation and creation on ext4 and NTFS, other NTFS attributes.
- Page tables: unmapping, destroying and rolling back a space, the TLB, how the kernel's own mappings are made. For a demand fault any error bit other than write and user counts as a protection fault.
- Scheduler: virtual time and task ids are unbounded, where the code has 64 bits for one and makes no more tasks when the 32 bits of the other are used up; address-space and FPU switches, the timer, mailboxes and processes.
