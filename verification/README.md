# GasStations: a verified model

GasStations controls fuel pumps. It polls them over three byte protocols (Adast, Unipump,
Shelf), plays simulated pumps to a cash register, keeps a ledger of transactions, and serves
several threads. This project models these parts of it and proves what they keep, over all
inputs, all runs and all frame lengths.

* **Locks** (`Threads`, `MslLock`, `M2cvLock`, `ScopeRunner`): both styles of the
  readers-writer lock and the scope runner as step systems, one atomic action a step, over an
  unbounded set of threads.
* **Checksums and framing** (`Bytes`, `LinearCode`, `Crc`, `CrcLoops`, `Crc16Table`,
  `UnipumpCrc`, `Frames`, `Reassembly`): the three 16-bit checks, each loop as the source has
  it, what damage they let through, and the stream reassembler.
* **What the checks find** (`Parity`, `SerialCode`, `Bursts`, `Period`, `Distance`, `FewBits`): every
  odd number of flipped bits, every burst of sixteen bits in the covered part, and up to three bits anywhere
  in up to 4095 bytes.
* **Wire codecs** (`Decimal`, `LittleEndian`, `Adast`, `Unipump`, `ShelfMaster`, `ShelfSlave`,
  `ShelfLink`): builders and readers, and both ends of the Shelf link composed.
* **Text codecs** (`Base64`, `Percent`, `FieldList`, `QueryString`).
* **Simulated pumps** (`Float32`, `Supply`, `Scenario`).
* **Ledger and cache** (`Ledger`, `StateCache`).

`States` and `Wrappers` hold shared types. `dafny verify dfyconfig.toml` checks everything.

## How to read it

Objects are classes with the fields of the source; a method's contract gives its whole new
state, by a function of the old one where the step is large, and lemmas are about those
functions. A loop of the source is a loop here. A byte of a frame is an int from 0 to 255
(`Octet`) except inside the checksums, which are on bit-vectors. Exceptions are `Result` or
`Option`; a null pointer that would be written through is a value of its own. Times, results of
reads, and whether SQLite executes a statement are parameters.

The checksum proofs are split in two. `LinearCode` proves everything about structure for an
arbitrary register and an arbitrary addition; `Crc` proves the few facts about 16-bit registers
that it asks for. `SerialCode` and `Period` do the same for codes that take in bits one by one and
for iterations that come back to their start, `Base64` and `FieldList` for quanta and alphabets.

## What came out differently from what one would expect

* Shelf sends its checksum low byte first although its register shifts left, so of all damage
  to two adjacent bytes it misses exactly one pattern: 0x89 in the last covered byte together
  with 0xa1 in the low checksum byte (`Crc.AdjacentDamageDetected`), and every frame has such a twin
  (`Frames.BlindTwin`).
* The Shelf master's price request has two price bytes at offsets 5 and 6; the slave reads three
  at 7 to 9 of a nine-byte frame, which throws (`ShelfLink.PriceRequestsThrow`). A longer frame
  would not help: the price is cut off when the command is copied into its base class.
* The Shelf master reads the volume of a supply-done reply two bytes too far, so that it comes out
  right only where bytes of volume and sum happen to agree (`ShelfLink.DoneReplyIff`).
* The sum of a Shelf amount overflows within the range of the wire (`ShelfLink.AmountOverflows`), and
  so does that of a simulated supply (`Scenario.SumWraps`).
* A Shelf burst that reaches into the checksum can pass, which is the blind spot again; still no one,
  two or three flipped bits between header and trailer pass in any of the protocols, up to 4095 bytes (`FewBits.FewBitsRejected`).
* The Adast authorization states the length for one nozzle (`Adast.RunFrameDelimitedIff`), and
  its price is used up by the first group.
* Query names may contain `=`, since the last one ends the name, and values may contain a per
  cent sign where less than two encoded characters follow it. Digits are escaped: they lie in
  the range from `/` to `;`. This is also why a swallowed per cent sign never comes back by
  accident.
* A simulated supply of 1 to 9 ends with ten times the request, because a zero tenth is not
  stored. Larger multiples of ten are delivered exactly if nine tenths of them are a float
  (`Supply.DeliversIff`): the first that is not is 18641370. Some requests that are not multiples
  of ten are delivered all the same, such as 18641391, because two roundings cancel
  (`Supply.DeliversBelow`).
* A stored total is kept when its pump reports again, but its age starts anew; a total read too
  late is overwritten in place and lost, which `StateCache.TotalsConserved` counts.
* An end-of-transaction report of 7 to 22 bytes is remembered for the close command before it is
  found too short (`Unipump.ProtocolMasterUnipump.EndOfTransaction`).
* The bitwise branch of `getCrc16` lacks a semicolon after `ch = c`; it is modelled as if it had
  one.
* The reassembler subtracts the later time from the earlier, so its time limit of 200 ms never
  strikes; the model has none.

## Model

| member | source | states |
|---|---|---|
| `MslLock.Exclusion` | inc/utils/ReadersWritterLock.h:55-83 | in every state of every run, with any number of threads, a writer that is in is alone with no reader in; readRequests is the number of counted threads and writeRequests is 0 or 1 |
| `MslLock.StepKeepsInv` | inc/utils/ReadersWritterLock.h:55-83 | the inductive invariant: exact counters, the mutex owned by the one thread at a holding point, and no committed reader beside an entered writer |
| `MslLock.SpinnerWaitsForUnblockedReader` | inc/utils/ReadersWritterLock.h:72-77 | a writer spinning on readRequests waits for a counted reader that is itself not blocked |
| `MslLock.BlockedOnlyBehindAHolder` | inc/utils/ReadersWritterLock.h:55-83 | if every thread inside an operation is blocked, some client holds the lock |
| `MslLock.NoDeadlock` | inc/utils/ReadersWritterLock.h:55-83 | in every reachable state with a thread that is not outside the lock some thread has a step that is neither a new call nor a turn of the spin loop; with no client inside, that thread is inside an operation |
| `MslLock.Drains` | inc/utils/ReadersWritterLock.h:55-83 | from every reachable state a run without new calls empties the lock within a bound that each step lowers, with both counters back at zero |
| `MslLock.NoOvertaking` | inc/utils/ReadersWritterLock.h:57-82 | while a writer is announced no reader gets in that is not in already, in any run: it waits at most for the readers it found |
| `MslLock.BoundedWait` | inc/utils/ReadersWritterLock.h:57-82 | from any state in which a writer is announced, and for as long as it is and no thread appears, all other threads together take at most six actions each, spinning not counted, however they are scheduled |
| `MslLock.PatienceOver` | inc/utils/ReadersWritterLock.h:72-77 | and once they have taken them the next turn of the spin loop lets the writer in |
| `MslLock.ReaderAdmittedIff` | inc/utils/ReadersWritterLock.h:55-65 | in every run a reader gets in by the fast path exactly if no writer is announced at its test |
| `MslLock.WriterAdmittedIff` | inc/utils/ReadersWritterLock.h:72-77 | and a spinning writer exactly if no reader is counted |
| `MslLock.ReaderWalksIn` | inc/utils/ReadersWritterLock.h:55-65 | any run in whose last state no writer is announced goes on with an arriving reader inside after three actions of its own, whoever reads already |
| `MslLock.WriterWalksIn` | inc/utils/ReadersWritterLock.h:72-77 | and with everybody outside an arriving writer is inside after four |
| `MslLock.ReadersShare` | inc/utils/ReadersWritterLock.h:55-65 | some run has two threads reading at once |
| `M2cvLock.Exclusion` | inc/utils/ReadersWritterLock.h:21-53 | the same exclusion for the condition-variable style, spurious wake-ups included; both counters are exact |
| `M2cvLock.StepKeepsInv` | inc/utils/ReadersWritterLock.h:21-53 | its inductive invariant, over both mutexes and both counters |
| `M2cvLock.LateReaderHoldsM` | inc/utils/ReadersWritterLock.h:26-31 | a slow reader past its test that sees writeRequests rise still holds m, and no writer has entered |
| `M2cvLock.ReaderAdmittedIff` | inc/utils/ReadersWritterLock.h:21-31 | in every run a reader passes either of its tests exactly if no writer is announced |
| `M2cvLock.WriterAdmittedIff` | inc/utils/ReadersWritterLock.h:40-46 | and a writer passes its test exactly if no reader is counted |
| `M2cvLock.ReaderWalksIn` | inc/utils/ReadersWritterLock.h:21-31 | any run in whose last state no writer is announced goes on with an arriving reader inside after three actions of its own |
| `M2cvLock.Drains` | inc/utils/ReadersWritterLock.h:21-53 | if sleepers do wake: from every reachable state a run without new calls, of at most three actions for each unit of work, ends with every thread outside, both mutexes free and both counters zero |
| `M2cvLock.ReadersShare` | inc/utils/ReadersWritterLock.h:21-31 | some run has two threads reading at once |
| `ScopeRunner.CountIsLiveLocks` | lib/Simple-Web-Server-3.0.0-rc2/utility.hpp:312-354 | count is the number of live locks, or -1 with none live, under spurious failures of the exchange |
| `ScopeRunner.StopIsForever` | lib/Simple-Web-Server-3.0.0-rc2/utility.hpp:333-353 | once any stop has returned, or any lock was refused, no lock is live and none is granted again |
| `ScopeRunner.NoStopNoRefusal` | lib/Simple-Web-Server-3.0.0-rc2/utility.hpp:333-342 | in a run without stop no lock is ever refused |
| `ScopeRunner.StopReturns` | lib/Simple-Web-Server-3.0.0-rc2/utility.hpp:344-353 | with no lock live a stop returns after one action of its own, or two if a stop has taken effect already, spurious failures aside |
| `ScopeRunner.StopWaits` | lib/Simple-Web-Server-3.0.0-rc2/utility.hpp:344-353 | while a lock is live a stop cannot take effect: it waits for live locks and for nothing else |
| `ScopeRunner.LoopReturns` | lib/Simple-Web-Server-3.0.0-rc2/utility.hpp:333-342 | a call of continue_lock that has loaded the count gets its answer after one action of its own, or two if the count has changed |
| `ScopeRunner.Drains` | lib/Simple-Web-Server-3.0.0-rc2/utility.hpp:312-354 | from every reachable state a run without new calls, of at most two actions for each unit of work left, ends with every thread outside and no lock live |
| `ScopeRunner.LockGranted` | lib/Simple-Web-Server-3.0.0-rc2/utility.hpp:333-342 | any run that no stop has ended goes on with an arriving thread holding a lock after three actions of its own |
| `ScopeRunner.LocksShare` | lib/Simple-Web-Server-3.0.0-rc2/utility.hpp:312-354 | some run has two locks live at once, and some run is stopped |
| `CrcLoops.AdastCalcCrc` | src/Protocols/ProtocolsMasters/ProtocolMasterAdast.cpp:7-21 | the nested loops on an int compute the 16-bit reflected check value (0x8408) |
| `CrcLoops.ShelfCalcrc` | src/Protocols/ProtocolsMasters/ProtocolMasterShelf.cpp:5-21 | the low 16 bits of what the loops return are the 16-bit check value (0x1021) of the first `count` bytes |
| `CrcLoops.UnmaskedAccumulator` | src/Protocols/ProtocolsSlaves/ProtocolSlaveShelf.cpp:9-25 | bits that overflow above the low 16 of the accumulator never come back down, for every byte sequence |
| `Crc16Table.TableIsEightBits` | src/Protocols/ProtocolsMasters/ProtocolMasterUnipump.cpp:15-48 | each of the 256 table entries as written is eight bit steps of its index |
| `UnipumpCrc.TableStepIsTake` | src/Protocols/ProtocolsMasters/ProtocolMasterUnipump.cpp:62-63 | one table lookup does what eight bit steps do, for every register and byte |
| `UnipumpCrc.GetCrc16` | src/Protocols/ProtocolsMasters/ProtocolMasterUnipump.cpp:54-75 | the table form computes the check value from every start value |
| `UnipumpCrc.GetCrc16Bitwise` | src/Protocols/ProtocolsMasters/ProtocolMasterUnipump.cpp:64-72 | the bitwise branch computes the same check value from every start value |
| `Crc.CrcIsLinear` | src/Protocols/ProtocolsMasters/ProtocolMasterAdast.cpp:7-21 | all three register steps, mixings and splits respect exclusive or |
| `Crc.CrcIsFaithful` | src/Protocols/ProtocolsMasters/ProtocolMasterShelf.cpp:5-21 | all three steps send only zero to zero, and no single byte leaves the far half of the register clear |
| `LinearCode.CheckLinear` | src/Protocols/ProtocolsMasters/ProtocolMasterUnipump.cpp:54-75 | the checksum of a bitwise sum is the sum of the checksums |
| `Crc.DamagePasses` | src/Protocols/ProtocolsMasters/ProtocolMasterAdast.cpp:551-573 | changing bits of an accepted frame is accepted exactly if the pattern of changes is an accepted frame, for each protocol and length |
| `Crc.AdjacentDamageDetected` | src/Protocols/ProtocolsSlaves/ProtocolSlaveShelf.cpp:167-181 | damage confined to two adjacent bytes between header and trailer, at any frame length, is always detected by Adast and Unipump and by Shelf except for one pattern: 0x89 in the last covered byte with 0xa1 in the next |
| `Parity.AcceptedIsEven` | src/Protocols/ProtocolsSlaves/ProtocolSlaveShelf.cpp:167-181 | between header and trailer an accepted frame of any of the three protocols has an even number of ones |
| `Parity.OddDamageRejected` | src/Protocols/ProtocolsMasters/ProtocolMasterAdast.cpp:551-573 | damage that flips an odd number of bits anywhere between header and trailer is rejected by all three receivers, at every frame length |
| `Bursts.BurstRejected` | src/Protocols/ProtocolsSlaves/ProtocolSlaveShelf.cpp:167-181 | damage within any sixteen consecutive bits of the covered part, in the order in which the check takes them in and wherever they begin, is rejected by all three receivers |
| `Bursts.WholeBurstRejected` | src/Protocols/ProtocolsMasters/ProtocolMasterUnipump.cpp:285-301 | for Adast and Unipump the sixteen bits may reach into the checksum or lie in it |
| `Distance.NoEarlyReturn` | src/Protocols/ProtocolsMasters/ProtocolMasterAdast.cpp:7-21 | the bit step of each of the three checks brings the first bit back to its place after 32767 turns and after no fewer |
| `FewBits.AcceptedNotTwo` | src/Protocols/ProtocolsSlaves/ProtocolSlaveShelf.cpp:167-181 | no accepted frame of up to 4095 bytes between header and trailer has exactly two bits set there |
| `FewBits.FewBitsRejected` | src/Protocols/ProtocolsMasters/ProtocolMasterAdast.cpp:551-573 | one, two or three flipped bits anywhere between header and trailer, checksum included, are rejected by all three receivers: the codes have distance four up to 4095 bytes |
| `FewBits.FewBitsFound` | src/Protocols/ProtocolsMasters/ProtocolMasterShelf.cpp:81-102 | the same for whatever the builders send and the receivers see |
| `Frames.BlindTwin` | src/Protocols/ProtocolsSlaves/ProtocolSlaveShelf.cpp:34-52 | every Shelf frame, the idle reply among them, has a damaged twin that passes: its blind-spot pattern |
| `Frames.DamagedFramePasses` | src/Protocols/ProtocolsMasters/ProtocolMasterUnipump.cpp:285-301 | the same for whatever the builders send and the checkers see |
| `Frames.FramePasses` | src/Protocols/ProtocolsMasters/ProtocolMasterAdast.cpp:240-246 | every built frame passes the receiver and covers what was meant to be covered |
| `Frames.PassesOnlyFrames` | src/Protocols/ProtocolsMasters/ProtocolMasterUnipump.cpp:285-301 | among frames with the right header and trailer the receivers accept exactly those the builders make |
| `Frames.PassesIsAccepted` | src/Protocols/ProtocolsSlaves/ProtocolSlaveShelf.cpp:167-181 | the comparison of unsigned chars is the comparison of the check value's halves |
| `Frames.FrameSpelled` | src/Protocols/ProtocolsMasters/ProtocolMasterAdast.cpp:200-246 | the bytes on the line: header, covered part, the two checksum bytes and the trailer of each protocol |
| `Frames.ChecksumJoined` | src/Protocols/ProtocolsMasters/ProtocolMasterUnipump.cpp:267-275 | the checksum byte sent first is the low half of the check value, the other its high half |
| `Adast.ProtocolMasterAdast.CheckCheckSum` | src/Protocols/ProtocolsMasters/ProtocolMasterAdast.cpp:551-573 | true exactly for at least six bytes that pass |
| `Adast.ProtocolMasterAdast.StatusRequest` | src/Protocols/ProtocolsMasters/ProtocolMasterAdast.cpp:251-270 | the poll frame |
| `Adast.ProtocolMasterAdast.StopCommand` | src/Protocols/ProtocolsMasters/ProtocolMasterAdast.cpp:272-290 | the stop frame |
| `Adast.ProtocolMasterAdast.TotalCommand` | src/Protocols/ProtocolsMasters/ProtocolMasterAdast.cpp:292-320 | the total frame |
| `Adast.ProtocolMasterAdast.SetPriceRequest` | src/Protocols/ProtocolsMasters/ProtocolMasterAdast.cpp:323-354 | the price frame with four digits |
| `Adast.ProtocolMasterAdast.CloseCommand` | src/Protocols/ProtocolsMasters/ProtocolMasterAdast.cpp:23-49 | the close frame with the remembered id, or an exception for an unknown address |
| `Adast.ProtocolMasterAdast.RunCommand` | src/Protocols/ProtocolsMasters/ProtocolMasterAdast.cpp:200-247 | the authorization frame for any nozzle, and the remembered price |
| `Adast.PollFramesDelimited` | src/Protocols/ProtocolsMasters/ProtocolMasterAdast.cpp:251-354 | the length byte of every builder but the authorization counts the rest of the frame |
| `Adast.RunFrameDelimitedIff` | src/Protocols/ProtocolsMasters/ProtocolMasterAdast.cpp:213-238 | the length byte of the authorization is right for nozzle 1 and for no other |
| `Adast.RunFrameDenotesIff` | src/Protocols/ProtocolsMasters/ProtocolMasterAdast.cpp:224-239 | its digits are decimal and denote a tenth of the volume and the price, exactly if these fit |
| `Decimal.WriteDigits` | src/Protocols/ProtocolsMasters/ProtocolMasterUnipump.cpp:251-266 | the writer loop emits the digits and leaves nothing of the value |
| `Decimal.WriteGroups` | src/Protocols/ProtocolsMasters/ProtocolMasterUnipump.cpp:475-482 | price groups after the first are zero, because the price is used up |
| `Decimal.GroupsAre` | src/Protocols/ProtocolsMasters/ProtocolMasterUnipump.cpp:475-482 | so what is written is the price behind its mark and then nothing but zeros behind theirs |
| `Decimal.ReadDigits` | src/Protocols/ProtocolsMasters/ProtocolMasterUnipump.cpp:370-372 | the reader loop sums the digits by weight |
| `Decimal.DenotesSnoc` | src/Protocols/ProtocolsMasters/ProtocolMasterUnipump.cpp:370-372 | a digit appended to the right counts once and moves all others up by ten |
| `Decimal.FieldCorrectIff` | src/Protocols/ProtocolsMasters/ProtocolMasterAdast.cpp:224-228 | a field is all decimal digits that denote the value exactly if the value is not negative and fits |
| `Decimal.ReadsBackIff` | src/Protocols/ProtocolsMasters/ProtocolMasterUnipump.cpp:251-266 | reading back what was written gives the value exactly if its leading digit survives its byte, for every int |
| `Unipump.ProtocolMasterUnipump.StatusRequest` | src/Protocols/ProtocolsMasters/ProtocolMasterUnipump.cpp:211-231 | the status frame |
| `Unipump.ProtocolMasterUnipump.StopCommand` | src/Protocols/ProtocolsMasters/ProtocolMasterUnipump.cpp:440-458 | the halt frame |
| `Unipump.ProtocolMasterUnipump.TotalCommand` | src/Protocols/ProtocolsMasters/ProtocolMasterUnipump.cpp:189-209 | the totals frame |
| `Unipump.ProtocolMasterUnipump.SetPriceRequest` | src/Protocols/ProtocolsMasters/ProtocolMasterUnipump.cpp:461-490 | the price frame with its six groups |
| `Unipump.ProtocolMasterUnipump.RunCommand` | src/Protocols/ProtocolsMasters/ProtocolMasterUnipump.cpp:233-276 | the authorization frame byte by byte: 10 02, the address, 0x41, the nozzle, L, the digits, the checksum, 10 03; address and nozzle can be read off exactly if they are digits of a byte; the price times a hundred as an int that wraps |
| `Unipump.ProtocolMasterUnipump.CloseCommand` | src/Protocols/ProtocolsMasters/ProtocolMasterUnipump.cpp:415-438 | the close frame with the remembered transaction, or an exception |
| `Unipump.ProtocolMasterUnipump.CheckCheckSum` | src/Protocols/ProtocolsMasters/ProtocolMasterUnipump.cpp:285-301 | passes or not, or an exception for fewer than four bytes |
| `Unipump.ProtocolMasterUnipump.SupplyReply` | src/Protocols/ProtocolsMasters/ProtocolMasterUnipump.cpp:345-363 | every field of a reply during a supply: the pump if the address is the expected one, nozzle, volume, amount and transaction number; null if it is short |
| `Unipump.ProtocolMasterUnipump.EndOfTransaction` | src/Protocols/ProtocolsMasters/ProtocolMasterUnipump.cpp:364-386 | every field of the final report, and what is remembered of one that turns out too short |
| `Unipump.CloseEchoesReport` | src/Protocols/ProtocolsMasters/ProtocolMasterUnipump.cpp:364-438 | a close command repeats the address and the transaction bytes of the last report, whatever they are |
| `Unipump.RunFrameDenotesIff` | src/Protocols/ProtocolsMasters/ProtocolMasterUnipump.cpp:249-266 | the digit fields are the volume over ten and the price times a hundred, exactly if these fit six digits, a product that overflows an int included |
| `Unipump.ReportOfRunFrame` | src/Protocols/ProtocolsMasters/ProtocolMasterUnipump.cpp:370-377 | a report that carries the digits of an authorization is read as its volume rounded to a multiple of ten and its price times a hundred, exactly if the leading digits survive |
| `LittleEndian.FitsIff` | src/Protocols/ProtocolsSlaves/ProtocolSlaveShelf.cpp:257-262 | bytes shifted out of an int and back in give it back exactly if it is not negative and fits |
| `LittleEndian.FitsSignedIff` | src/Protocols/ProtocolsMasters/ProtocolMasterShelf.cpp:275-278 | the same when the last byte is shifted into the sign |
| `ShelfMaster.ProtocolMasterShelf.GetCounterRequest` | src/Protocols/ProtocolsMasters/ProtocolMasterShelf.cpp:104-119 | the per-address packet number |
| `ShelfMaster.IndexCountsRequests` | src/Protocols/ProtocolsMasters/ProtocolMasterShelf.cpp:104-119 | however requests interleave, a packet carries the number of earlier packets to its address modulo 256 |
| `ShelfMaster.ProtocolMasterShelf.StatusRequest` | src/Protocols/ProtocolsMasters/ProtocolMasterShelf.cpp:121-133 | the status frame, byte by byte and of the length it states |
| `ShelfMaster.ProtocolMasterShelf.StopCommand` | src/Protocols/ProtocolsMasters/ProtocolMasterShelf.cpp:135-147 | the stop frame, byte by byte and of the length it states |
| `ShelfMaster.ProtocolMasterShelf.TotalCommand` | src/Protocols/ProtocolsMasters/ProtocolMasterShelf.cpp:149-161 | the total frame, byte by byte and of the length it states |
| `ShelfMaster.ProtocolMasterShelf.SetPriceRequest` | src/Protocols/ProtocolsMasters/ProtocolMasterShelf.cpp:163-178 | the price frame, byte by byte and of the length it states |
| `ShelfMaster.ProtocolMasterShelf.RunCommand` | src/Protocols/ProtocolsMasters/ProtocolMasterShelf.cpp:81-102 | the write-volume frame, byte by byte and of the length it states, and the remembered price |
| `ShelfMaster.ProtocolMasterShelf.ResolveActiveNozzle` | src/Protocols/ProtocolsMasters/ProtocolMasterShelf.cpp:32-42 | the lowest of the nozzle bits, or 0 |
| `ShelfMaster.ProtocolMasterShelf.ResolveTrkState` | src/Protocols/ProtocolsMasters/ProtocolMasterShelf.cpp:54-79 | the state of the lowest bit |
| `ShelfMaster.ProtocolMasterShelf.ParseResponse` | src/Protocols/ProtocolsMasters/ProtocolMasterShelf.cpp:217-361 | the readings of all reply codes, with their exceptions and null pointers, and the sum of an amount as an int that wraps |
| `ShelfMaster.StateRead` | src/Protocols/ProtocolsMasters/ProtocolMasterShelf.cpp:54-79 | over all bytes, the state in a status or amount reply by the remainder of byte 6: waiting if it is odd or a multiple of 64, idle if it leaves 32 by 64, in supply otherwise |
| `ShelfMaster.NozzleRead` | src/Protocols/ProtocolsMasters/ProtocolMasterShelf.cpp:32-42 | the nozzle in every reply that tells one, by the remainders of half of byte 5 |
| `ShelfMaster.AmountRead` | src/Protocols/ProtocolsMasters/ProtocolMasterShelf.cpp:227-246 | the volume of every amount reply in terms of bytes 9 to 11, and its price: that stored for the address byte, or else for that plus the nozzle, or else zero |
| `ShelfMaster.DoseRead` | src/Protocols/ProtocolsMasters/ProtocolMasterShelf.cpp:283-296 | the volume and state of a keyboard reply |
| `ShelfMaster.TotalRead` | src/Protocols/ProtocolsMasters/ProtocolMasterShelf.cpp:269-281 | the total of a total reply in terms of its four bytes, the last one signed |
| `ShelfMaster.UnreadIff` | src/Protocols/ProtocolsMasters/ProtocolMasterShelf.cpp:319-361 | exactly which replies throw for being short and which leave a null pointer |
| `ShelfMaster.SumExactIff` | src/Protocols/ProtocolsMasters/ProtocolMasterShelf.cpp:240-246 | the sum is a thousandth of volume times price exactly if the product fits an int |
| `ShelfSlave.ProtocolSlaveShelf.ParseCmd` | src/Protocols/ProtocolsSlaves/ProtocolSlaveShelf.cpp:249-420 | the readings of all request codes, their exceptions, and the address and number kept for the reply |
| `ShelfSlave.RequestMeans` | src/Protocols/ProtocolsSlaves/ProtocolSlaveShelf.cpp:249-420 | what every request is read as, in terms of its bytes, and exactly which throw or yield no command |
| `ShelfSlave.RemovedByteIs` | src/Protocols/ProtocolsSlaves/ProtocolSlaveShelf.cpp:54-71 | the nozzle byte of a removed nozzle: bit 0 and the bit of the nozzle if that is within the byte |
| `ShelfSlave.ProtocolSlaveShelf.CheckCheckSum` | src/Protocols/ProtocolsSlaves/ProtocolSlaveShelf.cpp:167-181 | passes or not, or an exception for fewer than two bytes |
| `ShelfSlave.ProtocolSlaveShelf.ResponseHangedFree` | src/Protocols/ProtocolsSlaves/ProtocolSlaveShelf.cpp:34-52 | the idle reply, of the length it states |
| `ShelfSlave.ProtocolSlaveShelf.ResponseRemovedNozzle` | src/Protocols/ProtocolsSlaves/ProtocolSlaveShelf.cpp:54-71 | the removed-nozzle reply, of the length it states |
| `ShelfSlave.ProtocolSlaveShelf.ResponseAmountInfo` | src/Protocols/ProtocolsSlaves/ProtocolSlaveShelf.cpp:73-99 | the amount reply, of the length it states |
| `ShelfSlave.ProtocolSlaveShelf.ResponseSupplyDone` | src/Protocols/ProtocolsSlaves/ProtocolSlaveShelf.cpp:101-131 | the supply-done reply, of the length it states |
| `ShelfSlave.ProtocolSlaveShelf.ResponseClosedTransaction` | src/Protocols/ProtocolsSlaves/ProtocolSlaveShelf.cpp:133-165 | the closed-transaction reply, of the length it states |
| `ShelfSlave.ProtocolSlaveShelf.ResponseConfirmation` | src/Protocols/ProtocolsSlaves/ProtocolSlaveShelf.cpp:183-196 | the confirmation, of the length it states |
| `ShelfSlave.ProtocolSlaveShelf.ResponseTotalInfo` | src/Protocols/ProtocolsSlaves/ProtocolSlaveShelf.cpp:198-217 | the total reply, of the length it states |
| `ShelfLink.WriteVolumeUnderstood` | src/Protocols/ProtocolsSlaves/ProtocolSlaveShelf.cpp:249-270 | the slave accepts the master's authorization and gets the pump, the nozzle, the volume exactly if a tenth of it fits 24 bits, and the price exactly if it fits 16 |
| `ShelfLink.PollsUnderstood` | src/Protocols/ProtocolsSlaves/ProtocolSlaveShelf.cpp:370-420 | the slave accepts and understands the status, stop and total requests |
| `ShelfLink.PriceRequestsThrow` | src/Protocols/ProtocolsMasters/ProtocolMasterShelf.cpp:163-178 | the master's price requests pass the slave's checksum and are then always too short for it |
| `ShelfLink.AddressBijection` | src/Protocols/ProtocolsSlaves/ProtocolSlaveShelf.cpp:5-32 | addresses from 10 up and pairs of a positive pump and a nozzle 1..5 determine each other |
| `ShelfLink.AddressCollisions` | src/Protocols/ProtocolsSlaves/ProtocolSlaveShelf.cpp:5-32 | over all addresses, exactly 6..9 and 11..14 are confused |
| `ShelfLink.IdleReplyParsed` | src/Protocols/ProtocolsMasters/ProtocolMasterShelf.cpp:217-225 | an idle reply is read as idle |
| `ShelfLink.RemovedReplyParsed` | src/Protocols/ProtocolsMasters/ProtocolMasterShelf.cpp:217-225 | a removed nozzle is read as waiting, and as itself exactly if it is at most 6 |
| `ShelfLink.AmountReplyParsed` | src/Protocols/ProtocolsMasters/ProtocolMasterShelf.cpp:227-246 | an amount reply gives back the nozzle exactly if it is at most 6 and the volume exactly if a tenth of it fits 24 bits, at the price stored for its address byte |
| `ShelfLink.AmountOverflows` | src/Protocols/ProtocolsMasters/ProtocolMasterShelf.cpp:227-246 | an amount reply of 10,000,000 at a stored price of 300 is carried and read exactly, and its sum comes out as -1,294,967 |
| `ShelfLink.AuthorizeAndReport` | src/Protocols/ProtocolsMasters/ProtocolMasterShelf.cpp:81-102 | in a session of authorization, request and amount reply the reply carries the address byte and number of the request, and the master reads the price it authorized if its address fits a byte; a master that has authorized nothing else, exactly then or for price zero |
| `ShelfLink.TotalReplyParsed` | src/Protocols/ProtocolsMasters/ProtocolMasterShelf.cpp:269-281 | a total of either sign comes back rounded to a multiple of ten exactly if it fits an int |
| `ShelfLink.DoneReplyRead` | src/Protocols/ProtocolsMasters/ProtocolMasterShelf.cpp:248-267 | the volume the master reads from a supply-done reply is made of the top byte of the volume and the low bytes of the sum |
| `ShelfLink.DoneReplyIff` | src/Protocols/ProtocolsSlaves/ProtocolSlaveShelf.cpp:101-131 | so it is the volume sent, rounded to a multiple of ten, exactly if a tenth of it fits 24 bits, its lowest and highest bytes agree, and the two low bytes of the sum are its two high bytes |
| `ShelfLink.TenLitresMisread` | src/Protocols/ProtocolsSlaves/ProtocolSlaveShelf.cpp:101-131 | a reply that is misread whatever its sum and price |
| `Reassembly.TransmitByStartEnd` | src/Connections/TcpConnection.cpp:80-155 | the loop returns, and takes from the stream, what the byte-wise machine says, over any pattern of failed reads |
| `Reassembly.ReturnsFromFirstPair` | src/Connections/TcpConnection.cpp:80-155 | exactly what is returned on every stream: the packet from the first pair of sync bytes, of the length its fourth byte says, and nothing beyond it is read |
| `Reassembly.ReturnsNothing` | src/Connections/TcpConnection.cpp:80-155 | without a pair nothing is returned |
| `Reassembly.RecoversIff` | src/Connections/TcpConnection.cpp:80-155 | a frame is recovered from behind noise exactly if the noise holds no pair and does not end in a sync byte |
| `Reassembly.AdastFrameSynced` | inc/Protocols/ProtocolsMasters/ProtocolMasterAdast.h:50-52 | a built Adast frame that states its length is one the reassembler delimits |
| `Reassembly.LineRecovered` | src/Connections/TcpConnection.cpp:80-155 | on a line of noise and frames every frame is returned, in order, by successive calls |
| `Base64.Encode` | inc/utils/base64.h:38-76 | the text that section 4 of RFC 4648 defines, of length 4 * ((n + 2) / 3) |
| `Base64.Decode` | inc/utils/base64.h:78-121 | an error exactly for a length that is not a multiple of four, and otherwise the bytes of all quanta less one for each of the two last characters that is a pad |
| `Base64.DecodedTextIff` | inc/utils/base64.h:78-121 | the text that the standard defines for what was decoded is the text itself exactly if it is canonical: alphabet only, pads only at the end, fill bits zero |
| `Base64.Reencode` | inc/utils/base64.h:38-121 | decoding and encoding again gives the text back exactly if it is canonical, for the texts on which both are defined: plain ones that stand for at least two bytes |
| `Base64.LookupsAreDigits` | inc/utils/base64.h:57-61 | the masks and shifts of the encoder pick the four six-bit digits of three bytes |
| `Base64.SymbolIs` | inc/utils/base64.h:39-48 | the encoding table is the alphabet of the standard in its order |
| `Base64.OutsideAlphabet` | inc/utils/base64.h:79-96 | the decoding table marks exactly the characters that are not in the encoding table |
| `Base64.RoundTrip` | inc/utils/base64.h:38-121 | decoding an encoding reports no error and gives the bytes back, for every input of at least two bytes |
| `Percent.Encode` | lib/Simple-Web-Server-3.0.0-rc2/utility.hpp:42-58 | what the loop appends |
| `Percent.Decode` | lib/Simple-Web-Server-3.0.0-rc2/utility.hpp:61-82 | what the loop appends, with strtol on two characters in full |
| `Percent.EscapeDecoded` | lib/Simple-Web-Server-3.0.0-rc2/utility.hpp:67-72 | a per cent sign with two hexadecimal digits, each in either case, becomes the byte they spell, for all 256 |
| `Percent.DigitBehind` | lib/Simple-Web-Server-3.0.0-rc2/utility.hpp:67-72 | one digit behind white space or a plus is its own value, behind a minus the negative one |
| `Percent.DigitInFront` | lib/Simple-Web-Server-3.0.0-rc2/utility.hpp:67-72 | one digit in front of anything else is its own value |
| `Percent.NoDigits` | lib/Simple-Web-Server-3.0.0-rc2/utility.hpp:67-72 | and an escape without digits is a zero byte |
| `Percent.StrtolOfTwo` | lib/Simple-Web-Server-3.0.0-rc2/utility.hpp:69-69 | on all pairs of characters the form used is strtol for strings of any length: white space, a sign, a prefix 0x, digits |
| `Percent.EscapedIff` | lib/Simple-Web-Server-3.0.0-rc2/utility.hpp:51-54 | the characters that are escaped, one by one |
| `Percent.EscapeEncoded` | lib/Simple-Web-Server-3.0.0-rc2/utility.hpp:53-53 | an escape is the character's number in two upper-case digits |
| `Percent.RoundTripIff` | lib/Simple-Web-Server-3.0.0-rc2/utility.hpp:42-82 | decoding undoes encoding exactly for the values in which every per cent sign is last, or second to last before a character that is not escaped |
| `Percent.PercentsLost` | lib/Simple-Web-Server-3.0.0-rc2/utility.hpp:42-82 | coding never adds per cent signs, and loses some of any other value |
| `Percent.NoSeparators` | lib/Simple-Web-Server-3.0.0-rc2/utility.hpp:42-58 | an encoding holds neither & nor = |
| `QueryString.Create` | lib/Simple-Web-Server-3.0.0-rc2/utility.hpp:89-99 | the joined fields |
| `QueryString.Parse` | lib/Simple-Web-Server-3.0.0-rc2/utility.hpp:102-133 | the multimap then holds the decoded fields that the string means, each as often as it occurs |
| `FieldList.SplitUnique` | lib/Simple-Web-Server-3.0.0-rc2/utility.hpp:102-133 | a string has only one list of pieces between separators, so it means only one list of fields |
| `FieldList.PieceMeans` | lib/Simple-Web-Server-3.0.0-rc2/utility.hpp:102-133 | a piece without = is a name with an empty value, one with it is divided at the last, and without a name there is no field |
| `QueryString.RoundTrip` | lib/Simple-Web-Server-3.0.0-rc2/utility.hpp:89-133 | parsing what was created, in whatever order the fields were iterated, gives the same collection of fields exactly if every name is non-empty and free of &, and every value's per cent signs are safe |
| `Float32.ExactRange` | src/Mediator/kassaMediator/Scenario.cpp:58-58 | which ints survive the conversion to float, up to 2^25 |
| `Supply.DeliversIff` | src/Mediator/kassaMediator/Scenario.cpp:50-111 | a multiple of ten of either sign, below 2^28 in size, is delivered exactly if and only if nine tenths of it are a float, and then by way of its tenth and nine tenths; beyond lies only what overflows an int |
| `Supply.DeliversBelow` | src/Mediator/kassaMediator/Scenario.cpp:50-111 | of all requests from 0 to 2^25 exactly these are delivered: multiples of ten whose nine tenths are at most 2^24 or even, and those one above a multiple of ten for which two roundings cancel |
| `Supply.FirstInexactFails` | src/Mediator/kassaMediator/Scenario.cpp:92-111 | 18641370, a multiple of ten, is not delivered |
| `Supply.BelowFirstInexact` | src/Mediator/kassaMediator/Scenario.cpp:50-111 | every multiple of ten of smaller size is |
| `Supply.CancelledErrors` | src/Mediator/kassaMediator/Scenario.cpp:50-111 | 18641391, no multiple of ten, is delivered |
| `Supply.SumFullIff` | src/Mediator/kassaMediator/Scenario.cpp:60-60 | a sum is the whole litres times the price exactly if that fits an int |
| `Supply.NinetyFits` | src/Mediator/kassaMediator/Scenario.cpp:77-77 | nine tenths of what an int holds fit an int, so nine times the stored tenth never overflows |
| `Supply.NeverDecreases` | src/Mediator/kassaMediator/Scenario.cpp:50-111 | the three answers to any request that is not negative never decrease |
| `Scenario.Scenario.constructor` | src/Mediator/kassaMediator/Scenario.cpp:184-200 | every configured pump starts at rest |
| `Scenario.Scenario.ProcessCmd` | src/Mediator/kassaMediator/Scenario.cpp:218-252 | the whole new state and the answer, for every pump, logic and phase |
| `Scenario.Scenario.OperateSleepState` | src/Mediator/kassaMediator/Scenario.cpp:150-182 | the dispatch on the phase, the time limit at rest included |
| `Scenario.Scenario.OperateSleepIdle` | src/Mediator/kassaMediator/Scenario.cpp:8-25 | an authorization is accepted at rest |
| `Scenario.Scenario.OperateSleepAuthorized` | src/Mediator/kassaMediator/Scenario.cpp:50-69 | the first advancing request |
| `Scenario.Scenario.OperateSleepTenPercent` | src/Mediator/kassaMediator/Scenario.cpp:71-90 | the second |
| `Scenario.Scenario.OperateSleepNinetyPercent` | src/Mediator/kassaMediator/Scenario.cpp:92-111 | the third |
| `Scenario.Scenario.OperateSleepHundredPercent` | src/Mediator/kassaMediator/Scenario.cpp:113-127 | a stop puts the pump to rest |
| `Scenario.Scenario.UpdateState` | src/Mediator/kassaMediator/Scenario.cpp:266-272 | a zero volume is not stored; a pump that is not configured throws |
| `Scenario.Scenario.AddState` | src/Mediator/kassaMediator/Scenario.cpp:260-264 | the new pump and its time; for a pump that is not configured only the time, and an exception |
| `Scenario.Scenario.CheckActivityTime` | src/Mediator/kassaMediator/Scenario.cpp:274-287 | whole seconds against the limit, in nanoseconds: up to one second more than the limit |
| `Scenario.Scenario.ChangeLogicType` | src/Mediator/kassaMediator/Scenario.cpp:289-299 | the pump starts over in its new logic |
| `Scenario.EveryAnswerSane` | src/Mediator/kassaMediator/Scenario.cpp:8-182 | over all runs from the constructor no null pointer is written through, only a pump under control is answered with a null pointer, and every supply answer carries an amount |
| `Scenario.RunKeepsSafe` | src/Mediator/kassaMediator/Scenario.cpp:8-300 | no run reaches the nozzle-up or close phase, and lastStateResponse is set whenever a pump is in a supply |
| `Scenario.OrderAcceptedIff` | src/Mediator/kassaMediator/Scenario.cpp:8-25 | an order is accepted exactly by a sleeping pump that is at rest, even past its time limit |
| `Scenario.OrderInTimeIff` | src/Mediator/kassaMediator/Scenario.cpp:150-182 | over runs and in nanoseconds: a pump put to sleep and then asked anything but an order accepts one exactly if each of those commands came before one second more than the limit; otherwise the order is answered as idle and changes nothing |
| `Scenario.RepeatsLast` | src/Mediator/kassaMediator/Scenario.cpp:50-127 | a command that does not move a supply on is answered with the last response and changes nothing |
| `Scenario.AnswersRecorded` | src/Mediator/kassaMediator/Scenario.cpp:50-111 | and every answer of a supply becomes the last response |
| `Scenario.StopEnds` | src/Mediator/kassaMediator/Scenario.cpp:113-127 | a stop after the last answer leaves the pump at rest and idle, without order |
| `Scenario.SupplyAnswers` | src/Mediator/kassaMediator/Scenario.cpp:50-111 | the next three status requests of the pump get the three volumes with the price and the sum as the int arithmetic gives it, however other commands and other pumps interleave |
| `Scenario.SupplyDeliversIff` | src/Mediator/kassaMediator/Scenario.cpp:50-111 | the last of them is exactly the order at its full sum, for an order that is a multiple of ten below 2^28 in size, if and only if nine tenths of it are a float and the whole litres times the price fit an int |
| `Scenario.SupplyDeliversBelow` | src/Mediator/kassaMediator/Scenario.cpp:50-111 | and of all orders from 0 to 2^25, multiples of ten or not, for exactly those that Supply.DeliversBelow names and whose whole litres times the price fit an int |
| `Scenario.SumWraps` | src/Mediator/kassaMediator/Scenario.cpp:92-111 | an order of 40,000,000 at a price of 60,000, whose volume is delivered and whose sum is then -1,894,967,296 |
| `Ledger.TransactionControl.AddTransaction` | src/DataBase/TransactionControl.cpp:327-359 | the inserted row field by field, and its id |
| `Ledger.TransactionControl.UpdateTransaction` | src/DataBase/TransactionControl.cpp:566-588 | the effect of a done report on the newest row of its pump field by field: state, date, volume, sum and transaction id, all else unchanged; and the null pointer for one without an amount |
| `Ledger.TransactionControl.UpdateTransactionFromCmd` | src/DataBase/TransactionControl.cpp:541-564 | the effect of a close report field by field |
| `Ledger.TransactionControl.AddSimulation` | src/DataBase/TransactionControl.cpp:474-496 | the inserted row field by field |
| `Ledger.TransactionControl.UpdateSimulationFromCmd` | src/DataBase/TransactionControl.cpp:498-539 | the effects of a stop and of a write-volume command field by field |
| `Ledger.TransactionControl.SelectMaxId` | src/DataBase/TransactionControl.cpp:545-545 | the newest row of a pump |
| `Ledger.CallsAreHistory` | src/DataBase/TransactionControl.cpp:327-588 | whatever methods are called in whatever order, each of which steps both tables by at most one of their own statements, a table ends as a history of such statements leaves it |
| `Ledger.InsertedRowFate` | src/DataBase/TransactionControl.cpp:327-588 | over any history a row depends only on the statements for its own pump up to the next row of that pump |
| `Ledger.FrozenRow` | src/DataBase/TransactionControl.cpp:498-588 | older rows never change |
| `Ledger.FirstReportWins` | src/DataBase/TransactionControl.cpp:541-588 | a transaction stays as inserted or has the volume, sum and transaction id of the first report after it, and its order never changes |
| `Ledger.AfterReport` | src/DataBase/TransactionControl.cpp:541-588 | after a report the only possible change is from state 3 to state 4 |
| `Ledger.SimulationLife` | src/DataBase/TransactionControl.cpp:498-539 | simulations move 1 to 2 to 3 only, and never have a delivery |
| `Ledger.FirstOrderWins` | src/DataBase/TransactionControl.cpp:498-539 | a simulation stays as inserted or has the product, price and volume of the first order after it, and its user until it is stopped |
| `Ledger.ReportsAreIdempotent` | src/DataBase/TransactionControl.cpp:566-588 | a second report changes nothing, whatever it says |
| `Ledger.VolumeConserved` | src/DataBase/TransactionControl.cpp:327-588 | the volumes in the table are the volumes of the accepted reports, each counted once, over any history |
| `StateCache.StateMap.AddState` | src/dataTypes/StateMap.cpp:279-303 | for any object, which slot then holds it, its control user, a kept total whose time is set all the same, and the exception for a pump without a slot; and the whole cache as values for an object it did not hold |
| `StateCache.StateMap.GetState` | src/dataTypes/StateMap.cpp:53-72 | the answer, the new slot, and which object is returned |
| `StateCache.StateMap.CheckStateActuality` | src/dataTypes/StateMap.cpp:39-51 | whole seconds against the validity time, in nanoseconds: up to one second more |
| `StateCache.TotalsConserved` | src/dataTypes/StateMap.cpp:53-72 | over any run, totals stored = totals handed out + totals gone stale + the one waiting |
| `StateCache.TotalSurvives` | src/dataTypes/StateMap.cpp:279-303 | a waiting total survives any reports |
| `StateCache.TotalAnsweredOnce` | src/dataTypes/StateMap.cpp:53-72 | it is then handed out exactly if it is fresh, and is gone either way |
| `StateCache.UnservedUntilReport` | src/dataTypes/StateMap.cpp:53-72 | a pump asked too late, or just emptied of its total, is not served until its next report, and then is |
| `StateCache.AnsweredWhileFresh` | src/dataTypes/StateMap.cpp:39-72 | over runs and in nanoseconds: what a pump reports is answered exactly while no question has come later than one second more than the validity time after the report |

## Left out

- Sockets, the HTTP server and client, JSON, logging, traces, serial and USB code: I/O.
- SQL text and quoting: whether a statement executes is a parameter; tables start empty and ids are positions.
- M2cvLock.Drains: sleepers are taken to wake; that one is notified cannot be argued, since notifications are sent without holding the mutex. No bound on waiting is claimed for this style.
- The NONE lock style and changing the style while threads are inside.
- The locks and the scope runner are step systems on values, not classes: a method body cannot show interleavings. Counters are unbounded ints, and a thread that holds several scope locks is several threads of the model.
- ShelfMaster.ProtocolMasterShelf.ParseResponse: the overflow of volume times price, which the language leaves undefined, is taken to wrap around.
- Scenario.Scenario.ProcessCmd: the overflow of a sum is taken to wrap around, and a float that is converted to an int beyond its range, which happens for orders from 238,609,289 up in size and is undefined, is converted exactly; nine times the stored tenth fits by `Supply.NinetyFits`; responses are values, so a caller that changes the shared last response is not modelled; locking is not modelled.
- StateCache.StateMap.AddState: what a second slot of the same object looks like as a value follows from the objects only; no caller in the repository adds an object twice.
- Decimal.WriteDigits: division by powers of ten in double precision, then truncated, is modelled as truncating integer division, which is the same for 32-bit values.
- ShelfSlave.ProtocolSlaveShelf.ResponseRemovedNozzle: shifting one by 31 or more is undefined and is modelled as giving a zero byte.
- QueryString.Parse: the order of iteration over the multimap, and its lookup by names that differ in case, are not modelled; `Create` takes its fields in any order.
- Unipump.ProtocolMasterUnipump.RunCommand: the overflow of the price times a hundred is taken to wrap around.
- Flipped bits in header and trailer, which no checksum covers; four or more flipped bits that are neither odd in number nor within sixteen in a row.
- Adast replies (they are parsed in floating point) and the Unipump totals reply, which shifts an int by up to 56 bits.
- Unipump status and lock replies, and the switches that choose a builder: plain case lists.
- Shelf keyboard replies are read (`ShelfMaster.DoseRead`), but no slave builder sends them.
- The reassembler is proved for the start bytes 16 16, size index 4 and additional size 7 that the Adast master passes; the loop itself is modelled for any.
- Base64.Encode: for inputs of fewer than two bytes the unsigned loop bound wraps and the loop reads past the end, which has no meaning to model; likewise decoding an empty input or characters from 128 up.
- User names, products and prices tables, configuration, licences, and `tsmap`.
