# IPFIXcol: queues, templates, decoder, columns and converter

IPFIXcol collects IPFIX flow records (RFC 7011).  Messages travel from a
preprocessor through intermediate stages to the output manager and on to storage
plugins.  Every hop is a reference-counted ring buffer read by one or many threads.
A template manager keeps what is needed to decode data records, the decoder walks
and edits records octet by octet, the FastBit plugin stores them in columns, and the
nfdump reader turns another format into IPFIX.

This project models those parts in Dafny and proves what the collector relies on:

* **Queues** – `Queues` has the ring buffer's locked and atomic sections as functions
  and as a class updated in place; `QueueProtocol` interleaves any number of readers
  with the atomic decrement and the locked drain as separate steps; `StorageThreads`
  is the START-gated storage readers, `StorageReleases` what they free; `Pipeline` is the chain of stages with stages
  inserted and removed while traffic flows.
* **Templates** – `Fields` (field specifiers and the length arithmetic), `Templates`
  (one source's array of version chains), `TemplateManagement` (the list of sources
  and the sweeps), `TemplateLifetime` (who may free a version while messages point to
  it).
* **Decoder** – `Records` (record boundaries, the set walk, encoding and decoding),
  `Lookup` (finding and setting fields, the offset cache).
* **FastBit** – `Columns` (entries, prefix sums, byte orders), `ColumnBuffers` (buffers
  and files with the `.sp` index), `Tables` (rows, flushes, `-part.txt`).
* **Conversion** – `Messages` (building, printing and parsing messages),
  `SequenceNumbers`, `Crc`, `Extensions` and `Converter` (the two generators driven by
  an nfdump extension map), `Conversion` (from an nfdump record through a message to
  the collector's lookup).
* **Literal data** – `LiteralData` gives what the functions of all modules make of
  literal octets and numbers.

Threads are state machines over their atomic steps; a run is any sequence of enabled
steps.  Structures that the program updates in place are classes proved against
functions or maps.  Numbers are unbounded unless their width matters, and then the
wrap-around is written out (16-bit cursors, 32-bit sums, counters and sequence
numbers, the 64-bit CRC accumulator).  Memory past the modelled octets reads as zero.

Check everything with `dafny verify dfyconfig.toml`.

## Where the code does not do what one would expect

These are proved, each with the exact condition under which the expectation holds.

* A storage thread stores a prefix of the queued messages in every run exactly when
  there are at most two plugins or at most two slots
  (`StorageThreads.PrefixExactlyWhenSafe`).
* The release that dropped a record's last reference decides in every run whether the
  record is freed exactly when there is at most one reader or at most one slot; else
  the thread that drains may decide (`QueueProtocol.LastDecidesExactly`).
* In the store queue this happens: a thread that releases data may drain, and free, the
  START message that another thread keeps and frees at its end.  No START is freed on
  leaving the queue in any run exactly when there is at most one plugin or at most two
  slots (`StorageThreads.KeptExactlyWhenSafe`).
* Threads read other threads' START messages without a reference.  No thread ever holds
  one that was freed exactly when there is at most one plugin or at most one slot
  (`StorageReleases.HoldsExactlyWhenSafe`).
* The 32769th template of a source is not stored and the array is lost, because the
  16-bit length wraps (`Templates.TemplateRecord.InsertTemplate`, `Templates.FillUp`).
* A template's 16-bit allocation has room for its fields exactly when the structure's
  header and fields stay below 65536 octets; else the copied fields run 65532 octets
  past it (`Templates.CreateTemplate`, `Templates.LongTemplate`).  At exactly 65536
  octets the template counts as malformed (`Fields.TemplateLength`).
* A withdrawal frees referenced versions; it is harmless exactly when the chain has no
  references (`TemplateLifetime.WithdrawalSafe`, `TemplateLifetime.ReferencedWithdrawn`).
* The set walk ends right exactly when the padding is shorter than the template's
  length masked with 0x7fff; a template whose least length is 32768 always reads into
  what follows (`Records.WalkExact`, `Records.MaskedToNothing`).
* A field whose enterprise bit is set with number zero is found with length zero when
  lengths are summed (`Lookup.SumIsWalk`).
* Each repeated IPv6 address makes a table's row eight octets longer than the record,
  and a number of a length that is refused takes one octet.  The row is the record
  exactly when these sum to zero, if no field has variable length from the first of
  them on; behind them a variable length would be read at a shifted place
  (`Tables.RowSurplus`).
* `add_data_set` alone loses a data set when all couples are taken and lets the header's
  length grow by the set's length with the octets swapped
  (`Messages.IpfixMessage.AddDataSet`, `Messages.FillCouples`).  The nfdump reader never
  gets there: a packet stops at 30 records (`Messages.GetPacket`).
* The parser has no limit: a message of 1024 empty data sets is parsed, with room for
  1023 couples (`Messages.TooManySets`).
* Extension 25 writes two octets more than it declares (`Converter.RecordLength`), a
  hardware address survives conversion only when it is zero
  (`Converter.HardwareAddress`), and so does the forwarding status
  (`Converter.ForwardingStatus`).

## Model

| member | source | states |
|---|---|---|
| Queues.RingBuffer.Write | base/src/queues.c:126-173 | one locked write, once there is room: refused for a zero reference count, else the record is queued behind all others, at the write offset with its reference count |
| Queues.RingBuffer.Read | base/src/queues.c:184-223 | without an index there is a queued record and the oldest one is read; an index k slots further on gives the k-th queued record, if there are more than k |
| Queues.DrainDequeues | base/src/queues.c:251-298 | what the drain takes out is the front of the queued records, in order, and the rest stays queued; the offsets enclose them |
| Queues.RingBuffer.RemoveReference | base/src/queues.c:243-320 | the decrement followed by the drain: unreferenced records leave from the read offset on, in order, freed if the flag says so, each giving back its template references |
| Queues.RingBuffer.Drain | base/src/queues.c:251-298 | the loop over unreferenced slots stops at the first referenced one or when the queue is empty |
| Queues.RingBuffer.Reclaim | base/src/queues.c:260-280 | freeing a record gives back each template as often as a data couple points to it |
| Queues.RecordsCounted | base/src/queues.c:260-280 | over many records a template is given back once for each pair of message and couple that points to it |
| QueueProtocol.Delivery | base/src/queues.c:126-320 | in every interleaving each reader's loads are exactly the written records in write order, none skipped, repeated or replaced; a reader that must wait has them all |
| QueueProtocol.Safe | base/src/queues.c:126-320 | a queued slot holds its record and its count is the number of readers still to release it; a held record has not left; write offset = (read offset + count) mod size with count at most size - 1; no rewrite before the record left |
| QueueProtocol.Reclamation | base/src/queues.c:248-298 | when all releases ask for freeing, the freed records are exactly those that left, once each and in order, after every reader's release, and each template was given back as often as couples of those records point to it |
| QueueProtocol.StepKeeps | base/src/queues.c:126-320 | every atomic step of writer and readers keeps offsets, slots, readers' histories and the lock consistent |
| QueueProtocol.OwnFlagDecides | base/src/queues.c:251-298 | on a queue with one reader each record's own release decides whether it is freed |
| QueueProtocol.LastReleaseFlagIgnored | base/src/queues.c:248-298 | for any two or more readers and slots there is a run in which a record is freed although the release that dropped its last reference asked to keep it |
| QueueProtocol.LastDecidesExactly | base/src/queues.c:248-298 | the release that dropped the last reference decides in all runs if and only if there is at most one reader or at most one slot |
| QueueProtocol.AdmitsWrites | base/src/queues.c:140-155 | some run queues a record if and only if there are at least two slots |
| StorageThreads.StoresPrefix | base/src/data_manager.c:96-152 | with at most two plugins or two slots every thread stores a prefix of the queued data messages, in order and each once, and all of them when it stops at the closing NULL |
| StorageThreads.UnsafeShape | base/src/data_manager.c:101-148 | otherwise there is a run in which a thread stores a message that is not the first one queued |
| StorageThreads.PrefixExactlyWhenSafe | base/src/data_manager.c:96-152 | the prefix property holds in all runs if and only if there are at most two plugins or at most two slots |
| StorageThreads.RunKeeps | base/src/data_manager.c:96-232 | with at most two plugins or two slots: creation, START messages, data, closing and every thread's steps keep positions, counts and stored messages consistent |
| StorageThreads.UnsafeKeeping | base/src/data_manager.c:126-137 | with two plugins or more and three slots or more there is a run in which another thread's drain frees the START message that a thread keeps |
| StorageThreads.KeptExactlyWhenSafe | base/src/data_manager.c:126-151 | no START is freed on leaving the queue in any run if and only if there is at most one plugin or at most two slots |
| StorageReleases.DataFreedOnce | base/src/data_manager.c:134-139 | with at most two plugins or two slots the data messages freed are those that left the queue, each once and in order, and a held data message has not left |
| StorageReleases.UnsafeHolding | base/src/data_manager.c:110-131 | with two plugins and two slots or more a thread may hold another one's START when that one ends and frees it |
| StorageReleases.HoldsExactlyWhenSafe | base/src/data_manager.c:110-151 | no thread holds a freed START in any run if and only if there is at most one plugin or at most one slot |
| Pipeline.HandoverKeepsOrder | base/src/intermediate_process.c:62-123 | over any run with insertions and removals of stages, what the output manager received followed by what is in flight is the queued messages in order without the dropped ones; nothing twice |
| Pipeline.HandoverAccount | base/src/output_manager.c:360-433 | the dropped messages are those that stages dropped, the delivered ones those that the output manager passed on, in order; without a drop everything queued is delivered or in flight |
| Pipeline.InsertedAndRemoved | base/src/configurator.c:453-491 | a run in which a stage is inserted, a message goes through it, the stage is removed and the next message goes straight to the output manager |
| Pipeline.StepKeeps | base/src/configurator.c:453-491 | reading, passing, dropping, the NULL handover, insertion (also one whose start fails) and removal each keep the chain wired and conserve the messages |
| Pipeline.JoinKeeps | base/src/configurator.c:469-487 | the moment the next stage changes to the new stage's output queue keeps the chain wired and the order of messages |
| Pipeline.TakeOverKeeps | base/src/intermediate_process.c:76-85 | a stage that reads the removed stage's closing NULL takes over its input queue without losing or reordering messages |
| Fields.TemplateLength | base/src/template_manager.c:219-272 | 0 exactly when the specifiers pass the limit or the structure has exactly 65536 octets; else header plus specifiers in 16 bits, and the data length of the field list; the 16-bit cursor does not wrap |
| Fields.TemplateRecordLength | base/src/template_manager.c:277-289 | within the limit the octets of the wire record, with 4 or 6 octets of record header, for every length but the one at which the structure has exactly 65536 octets |
| Fields.DataLengthMeans | base/src/template_manager.c:232-246 | bit 31 is set exactly when a field has variable length, the other bits are the fixed lengths plus one for each variable field |
| Fields.CopyFields | base/src/template_manager.c:144-165 | the host-order copy decodes to the field list of the wire record and nothing behind it is written |
| Templates.CreateTemplate | base/src/template_manager.c:170-385 | a well-formed record becomes a version with the wire's field list, its data length and no references; the copied fields fit the allocation exactly below 65536 octets and else run 65532 octets past it |
| Templates.LongTemplate | base/src/template_manager.c:358-385 | a record that fits a message can need more than 65535 octets |
| Templates.FillUp | base/src/template_manager.c:393-422 | inserting 32769 templates into a fresh record loses the array |
| Templates.CompareTemplates | base/src/template_manager.c:496-521 | zero exactly when data length, field count and field lists are equal |
| Templates.TemplateRecord.TemplateIndex | base/src/template_manager.c:480-494 | the scan that stops after `counter` templates agrees with a full scan of the array with holes |
| Templates.TemplateRecord.GetTemplate | base/src/template_manager.c:605-620 | the newest version of the template in the map, or none |
| Templates.TemplateRecord.InsertTemplate | base/src/template_manager.c:393-422 | below 32768 templates a hole is found and the map gains the template; at 32768 nothing is stored and the length is zero |
| Templates.TemplateRecord.RemoveTemplate | base/src/template_manager.c:452-471 | the map loses exactly that template and its whole chain is freed, newest first |
| Templates.TemplateRecord.UpdateTemplate | base/src/template_manager.c:533-596 | the announcement creates a version with the wire's fields or none; the map changes only at the announced template, a repeat changes nothing, an unreferenced newest version is freed, a referenced one stays behind the new one, the collector's id is kept; what is found afterwards has the wire record's fields |
| Templates.UpdateConserves | base/src/template_manager.c:552-596 | every version is afterwards in the chain or freed, once |
| Templates.UpdateFrees | base/src/template_manager.c:552-596 | the announced version is freed exactly when it repeats the newest, the newest exactly when it has no references and other fields come, and no other |
| Templates.UpdatedNewest | base/src/template_manager.c:552-596 | after an update the newest version has the announced fields, under the id of the chain |
| Templates.LookupIgnoresReferences | base/src/template_manager.c:533-620 | after any announcements and any changes of reference counts the newest version is the one last announced anew, under its first version's id |
| TemplateManagement.TemplateManager.RecordLookup | base/src/template_manager.c:87-99 | the source's record, or null exactly when the map has no such source |
| TemplateManagement.TemplateManager.LookupInsert | base/src/template_manager.c:108-135 | a known source leaves list and map alone, a new one goes behind the last record with an empty map |
| TemplateManagement.TemplateManager.GetTemplate | base/src/template_manager.c:871-878 | the newest version under (source, id) in the map of maps |
| TemplateManagement.TemplateManager.UpdateTemplate | base/src/template_manager.c:746-758 | only the source's own map changes, by the version that the announcement creates |
| TemplateManagement.TemplateManager.Register | base/src/template_manager.c:291-319 | the source exists afterwards with one registration more, the others unchanged |
| TemplateManagement.TemplateManager.Unregister | base/src/template_manager.c:321-347 | one registration less but never below zero; an unknown source is reported and nothing is added |
| TemplateManagement.TemplateManager.RemoveAll | base/src/template_manager.c:774-866 | the sweep removes exactly the unregistered records (of the domain), keeps the order of the others and `first` and `last` right, and leaves their maps alone |
| TemplateManagement.KeptView | base/src/template_manager.c:819-866 | a source stays in the map exactly if its record is not sweepable, with the same templates |
| TemplateManagement.SourceKeys | base/src/template_manager.c:90-90 | the 64-bit key determines domain and checksum, and its high half is the domain |
| TemplateLifetime.NoLiveVersionFreed | base/src/template_manager.c:533-596 | in any run of additions, announcements, couplings and concurrent releases no version a live message points to is freed, counts equal the live pointers, nothing is freed twice |
| TemplateLifetime.EveryReleaseCounts | base/src/template_manager.c:894-900 | a releasing thread always finds a positive count |
| TemplateLifetime.CountIsAccount | base/src/template_manager.c:883-900 | a version's count is what was coupled to it less what was released, at every moment of every run |
| TemplateLifetime.AlwaysNewest | base/src/preprocessor.c:488-495 | a message is always coupled to the newest version of a template |
| TemplateLifetime.WithdrawalSafe | base/src/template_manager.c:452-471 | a withdrawal leaves all live pointers valid exactly when no version of the chain is referenced |
| TemplateLifetime.ReferencedWithdrawn | base/src/template_manager.c:452-471 | in some run a withdrawal frees the version a live message points to |
| TemplateLifetime.CommitIsUpdated | base/src/template_manager.c:565-596 | the machine's check and commit change a chain as the template record's update does |
| TemplateLifetime.RepeatIsUpdated | base/src/template_manager.c:552-557 | a repeat leaves the chain and frees the announced version, as the update does |
| Records.RecordLength | base/src/ipfix_message.c:636-679 | the 16-bit walk's length for all octets; the record's end whenever that is below 65536 |
| Records.NextRecordOffset | base/src/ipfix_message.c:236-280 | the same boundary as `data_record_length` for all octets |
| Records.RecordDecodes | base/src/ipfix_message.c:661-675 | an encoded record, wherever it stands, decodes to its end and, field by field, its values, short and long length forms alike |
| Records.ProcessRecords | base/src/ipfix_message.c:684-708 | the callbacks are exactly the walk's, whenever the walk ends; the count has 16 bits |
| Records.WalkExact | base/src/ipfix_message.c:684-708 | over encoded records and padding the walk ends and calls back on exactly those records in order with their lengths if and only if the padding is shorter than the least record |
| Records.PlacesDecode | base/src/ipfix_message.c:698-704 | what lies at each callback's place decodes to that record's values and ends where the callback says |
| Records.MaskedToNothing | base/src/ipfix_message.c:692-696 | with a fixed part of 32768 octets the walk is wrong even without padding |
| Lookup.FieldsGetField | base/src/ipfix_message.c:387-424 | row and running sum of the first matching field |
| Lookup.FirstMatchIsFirst | base/src/ipfix_message.c:387-424 | no earlier field has the id and the enterprise number |
| Lookup.NextOffset | base/src/ipfix_message.c:490-564 | the sum lookup without variable fields, else the walk for the first matching field beyond an offset |
| Lookup.WalkIsNext | base/src/ipfix_message.c:512-560 | the walk finds the first matching field whose data starts beyond the offset, or none exists |
| Lookup.SumIsWalk | base/src/ipfix_message.c:387-424 | without variable-length fields the sum agrees with the walk exactly unless the field found has its enterprise bit set with number zero and is not empty |
| Lookup.LocatedIsSpan | base/src/ipfix_message.c:490-579 | with proper enterprise numbers a lookup finds the first matching field's place and length |
| Lookup.OffsetCache.GetField | base/src/ipfix_message.c:584-618 | the cached lookup answers as an uncached one and keeps the cache right |
| Lookup.History | base/src/ipfix_message.c:584-618 | any history of lookups on one template gives the uncached answers |
| Lookup.SetField | base/src/ipfix_message.c:623-631 | the record's octets become the value in the located field's place, else nothing changes |
| Lookup.SetThenGet | base/src/ipfix_message.c:623-631 | what was set is found again, and the record's end and every other field's place and octets are unchanged, also with variable-length fields around |
| Columns.EntryValue | plugins/storage/fastbit/fastbit_element.cpp:580-621 | a number's entry reads, little-endian, as the network-order value modulo the storage size |
| Columns.FlushStores | plugins/storage/fastbit/fastbit_element.cpp:96-125 | a flush leaves no octet in memory and loses none |
| Columns.ReversedIsLe | plugins/storage/fastbit/fastbit_element.cpp:49-56 | reversed network order is the little-endian memory of the number |
| Columns.SumsSlice | plugins/storage/fastbit/fastbit_element.cpp:455-504 | offsets k and k + 1 of the prefix sums cut out entry k |
| Columns.SumsAdd | plugins/storage/fastbit/fastbit_element.cpp:522-533 | offsets shifted by one and rebased by the file's length continue the stored prefix sums |
| ColumnBuffers.NumberColumn.FillFrom | plugins/storage/fastbit/fastbit_element.cpp:580-621 | one entry more, or none when the buffer is full; the octets taken |
| ColumnBuffers.NumberColumn.FlushTo | plugins/storage/fastbit/fastbit_element.cpp:96-125 | the pending entries move to the file |
| ColumnBuffers.OctetColumn.FillFrom | plugins/storage/fastbit/fastbit_element.cpp:455-504 | the value (for text up to its first zero, with a zero behind it) is appended, its end recorded, buffers grown as needed |
| ColumnBuffers.OctetColumn.AppendText | plugins/storage/fastbit/fastbit_element.cpp:274-291 | a text is kept up to its first zero octet, with a zero behind it |
| ColumnBuffers.OctetColumn.Shift | plugins/storage/fastbit/fastbit_element.cpp:344-353 | the in-place loop moves the offsets one down and adds the file's length |
| ColumnBuffers.OctetColumn.FlushTo | plugins/storage/fastbit/fastbit_element.cpp:506-553 | a flush with octets pending writes the whole index and all octets; one without leaves everything |
| ColumnBuffers.OctetColumn.IndexCuts | plugins/storage/fastbit/fastbit_element.cpp:506-553 | the stored and pending offsets k and k + 1 cut the k-th value out of file and buffer |
| ColumnBuffers.History | plugins/storage/fastbit/fastbit_element.cpp:274-376 | after any run of fills and flushes the offsets are the prefix sums of all values' lengths and the octets are the values |
| Tables.FieldTaken | plugins/storage/fastbit/fastbit_table.cpp:349-425 | the columns of a field take exactly the field's octets, eight more for a repeated IPv6 address, one for a number of refused length |
| Tables.NumberStored | plugins/storage/fastbit/fastbit_element.cpp:623-662 | a number no longer than asked for is stored unchanged, in the least of 1, 2, 4 and 8 octets that suffices |
| Tables.AddressStored | plugins/storage/fastbit/fastbit_table.cpp:370-384 | an IPv6 address is stored in two columns, upper half and lower half |
| Tables.OctetsStored | plugins/storage/fastbit/fastbit_element.cpp:455-504 | a text is stored up to its first zero octet with a zero behind it, an octet array as it is |
| Tables.TemplateTable.NumbersAreStored | plugins/storage/fastbit/fastbit_table.cpp:237-241 | for every stored row the column of a number field holds the number that the decoder finds in the field |
| Tables.RowIsRecord | plugins/storage/fastbit/fastbit_table.cpp:320-431 | without a repeated IPv6 address and without a number of refused length a row ends where the decoder ends the record |
| Tables.RowSurplus | plugins/storage/fastbit/fastbit_table.cpp:349-425 | a row is the record and the surplus of its fields, if no field has variable length from the first one with a surplus on |
| Tables.ParseTemplate | plugins/storage/fastbit/fastbit_table.cpp:320-431 | the columns of the template's fields, repeated elements skipped, and the least record length in 16 bits |
| Tables.OpenTable | plugins/storage/fastbit/fastbit_table.cpp:320-431 | a template whose last field is not empty gives an empty table that keeps all table invariants |
| Tables.EncodedIsComplete | plugins/storage/fastbit/fastbit_table.cpp:228-243 | a set of encoded records with shorter padding gives one row a record |
| Tables.RowsAreRecords | plugins/storage/fastbit/fastbit_table.cpp:228-243 | the k-th row of such a set is the k-th record, where the set walk finds it |
| Tables.TemplateTable.FillRow | plugins/storage/fastbit/fastbit_table.cpp:237-241 | every column gains the row's entry at its place in the record |
| Tables.TemplateTable.Store | plugins/storage/fastbit/fastbit_table.cpp:204-264 | the rows of a complete set are accepted in order, whatever flushes happen in between |
| Tables.TemplateTable.FlushTable | plugins/storage/fastbit/fastbit_table.cpp:266-298 | nothing is buffered afterwards and the declared rows are all accepted ones |
| Tables.TemplateTable.NumbersAligned | plugins/storage/fastbit/fastbit_table.cpp:243-260 | every number column holds exactly the buffered rows, below its room, and has stored exactly the rows declared |
| Messages.CreateFromMem | base/src/ipfix_message.c:86-160 | the sets by kind, in order, or none on a wrong version or length |
| Messages.IpfixMessage.AddTemplate | plugins/input/nfdump/nfinput.c:345-373 | the template set goes into the first free slot and its length onto the header, or nothing happens when all 1024 are taken |
| Messages.IpfixMessage.AddDataSet | plugins/input/nfdump/nfinput.c:326-337 | below 1023 couples the set is appended and its length added; at 1023 it is lost and the header grows by the swapped length |
| Messages.IpfixMessage.ToPacket | plugins/input/nfdump/nfinput.c:623-670 | header, template sets and data sets end to end, copied four octets at a time |
| Messages.PacketParses | plugins/input/nfdump/nfinput.c:623-670 | a printed packet parses back to the same template sets and data sets in the same order |
| Messages.BuildPrintParse | plugins/input/nfdump/nfinput.c:310-373 | any sequence of templates and data sets within the limits: header length = 16 plus the set lengths, and the packet parses back to them |
| Messages.GetPacket | plugins/input/nfdump/nfinput.c:814-870 | whatever the file holds, the message has the sets of the records read, in order; it stops at 30 records, so neither couples nor template sets run out |
| Messages.FillCouples | plugins/input/nfdump/nfinput.c:326-337 | 1024 empty data sets added leave 1023 and a header length of 5132 for 4108 octets |
| Messages.TooManySets | base/src/ipfix_message.c:122-155 | a message of 4112 octets that is parsed into 1024 data sets |
| Messages.TemplateSetDecodes | plugins/input/nfdump/nfinput.c:345-364 | the printed template set decodes to the template's fields |
| SequenceNumbers.Accounting.ParseMessage | base/src/preprocessor.c:536-628 | one message updates its source's counter, its input's number and the history as the accounting says |
| SequenceNumbers.Accounting.Add | base/src/preprocessor.c:96-118 | a new source goes behind the first one with a zero counter, the others keep theirs |
| SequenceNumbers.Conservation | base/src/preprocessor.c:590-628 | after any run the sum of all sources' counters equals the sum of all inputs' numbers modulo 2^32 |
| SequenceNumbers.Consecutive | base/src/preprocessor.c:600-621 | of two successive messages of one source the second's number is the first's plus its records plus what the second's input lost, modulo 2^32 |
| SequenceNumbers.First | base/src/preprocessor.c:600-621 | a source's first message is numbered by what its input lost |
| SequenceNumbers.SourceAloneKeepsNumbers | base/src/preprocessor.c:600-621 | a source alone on its key, from an input of its own, keeps its original numbers |
| Crc.EntryOk | base/src/crc.c:72-116 | every entry of the table is eight shift and xor steps of its index |
| Crc.LinearSteps | base/src/crc.h:15-16 | any number of steps is linear over exclusive or |
| Crc.UpdateTakesBits | base/src/crc.h:15-16 | the table step takes in an octet's eight bits, lowest first |
| Crc.Update64Is | base/src/crc.h:15-16 | on a 64-bit accumulator below 2^32 the step stays below 2^32 and equals the 32-bit one |
| Crc.Crc32 | base/src/crc.c:123-136 | the complement of the bit-at-a-time CRC, with ones in the upper 32 bits |
| Crc.OneOctetTells | base/src/crc.c:123-136 | two names of one length that differ in a single octet never have the same checksum |
| Extensions.TemplateBuilder.Fill | plugins/input/nfdump/ext_fill.c:45-382 | the extension's fields are appended, the data length grows by theirs and the template length by four a field |
| Extensions.RecordBuilder.Parse | plugins/input/nfdump/ext_parse.c:48-341 | the extension's numbers are appended in network order and its words consumed |
| Extensions.BeBytesValue | plugins/input/nfdump/ext_parse.c:54-80 | the octets written read back, big-endian, as the number modulo their width |
| Converter.BuildTemplate | plugins/input/nfdump/nfinput.c:264-303 | header, mandatory and mapped fields in order, data length their sum, template length four times the field count |
| Converter.BuildRecord | plugins/input/nfdump/nfinput.c:402-476 | the octets of all numbers of header, mandatory and mapped extensions, in order |
| Converter.FillBasicData | plugins/input/nfdump/nfinput.c:227-256 | the header's eight numbers in their widths |
| Converter.ProcessMap | plugins/input/nfdump/nfinput.c:487-562 | no templates exactly when an extension is unknown, else one for IPv4 and one for IPv6 |
| Converter.ItemsMatch | plugins/input/nfdump/ext_parse.c:48-341 | an extension writes the widths it declares, exactly unless it is number 25 |
| Converter.RecordLength | plugins/input/nfdump/nfinput.c:402-476 | the record has the template's data length exactly without extension 25; each one adds two octets |
| Converter.LookupGivesItem | plugins/input/nfdump/nfinput.c:402-476 | looking up any element in the record finds the first such field of the template and the number written for it |
| Converter.KeyLookups | plugins/input/nfdump/nfinput.c:227-256 | times, flags, protocol, ports, addresses and counters look up to the nfdump record's values, for any extension map and flags |
| Converter.MappedLookups | plugins/input/nfdump/nfinput.c:453-471 | interfaces, AS numbers, VLANs and every other field of a mapped extension look up to the number written for it, unless an earlier field has the element |
| Converter.ElementLookups | plugins/input/nfdump/ext_fill.c:98-382 | by element number: interfaces, AS numbers, prefix lengths, next hops, VLANs, post counters, flows, hardware addresses, labels, adjacent AS numbers and the collection time look up to their nfdump numbers |
| Converter.WordsAreOctets | plugins/input/nfdump/ext_parse.c:48-341 | an extension consumes as many words as it declares octets, with the differences of the counters, router addresses, hardware addresses and labels |
| Converter.PairLookups | plugins/input/nfdump/ext_parse.c:131-214 | the two interface, AS or VLAN numbers look up to the halves of one nfdump word, or to a word each |
| Converter.ItemPlace | plugins/input/nfdump/nfinput.c:453-471 | where the fields and numbers of each mapped extension stand in template and record |
| Converter.ForwardingStatus | plugins/input/nfdump/nfinput.c:232-234 | the forwarding status looks up right in the record exactly when it is zero |
| Converter.HardwareAddress | plugins/input/nfdump/ext_parse.c:259-288 | a hardware address looks up right in the record exactly when it is zero |
| Converter.TemplatePrints | plugins/input/nfdump/nfinput.c:345-373 | the generated template can be printed and decodes to its fields |
| Conversion.Convert | plugins/input/nfdump/nfinput.c:402-476 | for every extension map without extension 25 that fits a message: built, printed, parsed, stored and walked, the record is found once, and every element looks up to the number that the map took from the nfdump record; the twelve leading elements and those of every mapped extension are named |
| Conversion.Receive | base/src/preprocessor.c:424-446 | a printed template set and data set: the collector creates the version, the walk calls back once with the whole record, and a lookup finds what a sum over the template's fields finds |
| LiteralData.Wire | base/src/template_manager.c:219-272 | two specifiers, one with an enterprise number, decode to their fields |
| LiteralData.Headers | base/src/template_manager.c:230-238 | where id, count and specifiers stand in a template record and an options template record |
| LiteralData.VariableLengths | base/src/ipfix_message.c:661-675 | a length in one octet and in three, and a printed record |
| LiteralData.Repeated | plugins/storage/fastbit/fastbit_table.cpp:416-425 | which of six fields repeat an element |
| LiteralData.BasicTemplate | plugins/input/nfdump/nfinput.c:264-303 | the twelve fields of the reader's basic template |
| LiteralData.Enterprises | base/src/ipfix_message.c:387-424 | of two fields with one id the enterprise number tells which is found |
| LiteralData.Kinds | base/src/ipfix_message.c:122-155 | a message with a template set, an options template set, a data set and an unknown one |
| LiteralData.Nfdump | plugins/input/nfdump/nfinput.c:402-440 | the three flag bits, 64-bit numbers and addresses of nfdump words |
| LiteralData.CheckValue | base/src/crc.c:123-136 | the CRC of the digits 1 to 9 is 0xcbf43926 |

## Left out

- Configuration, plugin loading, signals, sockets, process forking, statistics and logging: plumbing around the modelled parts.
- Allocation failures, mutex and file errors, wall-clock time: every such call succeeds; files are what was appended to them.
- `rbuffer_wait_empty`, `rbuffer_free` and the condition variables: waiting is a step that is not enabled yet.
- Adding and removing storage plugins of a running data manager, and STOP messages: the plugins are those given at creation.
- Several stages moved at once by a reconfiguration: one insertion or removal is under way at a time, any number per run.
- Pipeline: queues of the chain are lists with one reader, as `QueueProtocol.Delivery` and `QueueProtocol.OwnFlagDecides` show them to be; stages pass or drop messages and make no new ones; the removed stage's input queue counts as handed over although base/src/configurator.c:181-183 frees it.
- StorageThreads, QueueProtocol, Pipeline, TemplateLifetime: threads are modelled on values, one step for each atomic section, so aliasing between their structures is not captured.
- Templates.TemplateRecord: chains are sequences of version values; the pointers inside a chain and the storage of a version are not modelled, allocation is a fresh number.
- TemplateLifetime: withdrawals and the sweeps over unregistered sources are outside the runs; reference counts do not reach 2^32.
- Templates.CreateTemplate: the fields written past a wrapped allocation are kept as if the memory were there; what they overwrite is not modelled.
- Records.ProcessRecords: a walk whose record length wraps to zero never ends; the method is stated for walks that end.
- Lookup.SetField: the record is well-formed, as for every decoded record.
- `data_set_records_count`: its fixed-length branch divides the set length including the set header, so it is not compared with the walk.
- `template_set_process_records`, options-template withdrawals and "withdraw all" messages.
- Columns: text columns without an `.sp` file, and the wrap-around of a 32-bit buffer size.
- Tables.ParseTemplate: a float has a fixed length, and the element database asks for one to eight octets; options templates get no table.
- Tables: columns are the values of `Columns` instead of element objects; renaming a directory that already exists is left out, all flushes go to one directory; the element database is a parameter.
- Tables.TemplateTable.Store: stated for sets of complete records with shorter padding and for a last column of at least one octet, since an empty one may be left out of the last row; a truncated record leaves the columns unequal.
- Messages.CreateFromMem: the arrays of set pointers have no limit in the model; what is written past them is kept as if the memory were there.
- Conversion.Receive: the template set and the data set go to the collector's functions directly; sources, template manager and threads between them are the other modules' matter.
- Converter: the storage for 61 template fields and the 16-bit record cursor have no limit in the model; nfdump's file blocks and their decompression are left out.
- SequenceNumbers: the record count of a message is a parameter; messages of closed sources only travel on.
- FlowWatch, RRD, GeoIP, profiles, compression, Kafka and JSON plugins.
