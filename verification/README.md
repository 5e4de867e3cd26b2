# MBS Scanner: a verified model of batch collection, byte orders, locking and validation

MBS Scanner polls Modbus devices. A collector holds one connection to one device, groups the
configured points into contiguous runs, reads each run in as few requests as it can, cuts the flat
register array back into points, decodes each one in the device's byte order, and publishes the
values by name. It also writes single points, from any number of goroutines. This project models that
core in Dafny and proves what it is for. `dafny verify dfyconfig.toml` checks everything.

## Main results

- **Collection means what it should, and exactly when.** For every configuration and any pattern of
  failed requests, a collection that returns reports one value per configured point. A point is BAD
  exactly when no connection was made, its group was answered on no route, or its own registers cannot
  be decoded. Group by group, every other value is the decoded image of the device at that point's own
  addresses, scaled once, if the group is a run in uint16 addresses with its true total or cannot be
  answered as one (`Collectors.Collector.CollectPoints`, `Reading.CollectReports`). On every
  configuration that validation accepts that condition is necessary too, and the one under which a
  collection reaches past the end of an array is proved exactly (`Exactness.ValidatedExactly`).
- **Writes come back.** The codec is a bijection in all four byte orders and at every even width
  (`ByteOrders.DecodeEncode`, `ByteOrders.EncodeDecode`). For every writable type and every
  byte order it is proved what a collection reports for a written point, and that disjoint points are
  untouched (`SinglePoints.WriteThenCollect`). With every request answered that value is reported, GOOD
  (`SinglePoints.WriteComesBack`). It is the written value exactly under a condition on the order and
  the value's bits: always for 32- and 64-bit types under the four orders and the unset one, and for
  16-bit types unless little or swap exchanges two different bytes (`SinglePoints.RoundTripExactly`).
- **Values are what the tables say.** What a point means is also stated from the outside, without the
  functions that compute it: which table each register type names, the number that two or four registers
  mean in each byte order, the text up to its first zero byte, one scaling and where it happens, what a
  written value becomes, and what a write changes (`Meanings.NumberMeaning`, `Meanings.TextMeaning`,
  `Meanings.ScaledOnce`, `Meanings.FloatWritten`, `Meanings.RegistersApplied`).
- **Reads and writes linearize.** For any number of threads and every interleaving of connecting,
  disconnecting, collecting, reading, writing and registering, each completed section has the result
  of running alone after the sections before it, and the order respects real time
  (`Linearizability.EverySectionIsLinear`, `Linearizability.RealTimeOrder`). So a collection called
  after a write returned sees that write, by the exchanges that the collection itself made, and reports
  it if they were all answered (`EndToEnd.CollectSeesWrite`).
- **Connections are conserved.** Successful opens are the closes, the mark-downs and the connection in
  use (`Handles.HandleConservation`).
- **Nothing gets stuck.** No reachable state is a deadlock (`Deadlocks.DeadlockFree`), and every step
  of every thread spends from a budget. A single call can be overtaken for as long as new calls keep
  being made; once none are, the run ends within the budget that is left, and it ends with every call
  returned (`StepBudgets.RunEnds`, `StepBudgets.StillMeansFinished`, `StepBudgets.CallsCanReturn`).
- **Grouping is optimal.** No division into contiguous runs in input order has fewer runs than there
  are groups (`Grouping.GreedyIsMinimal`). Among all divisions, in any order, the groups are fewest
  exactly when every point that continues another comes after such a one in the input
  (`Grouping.GreedyIsMinimalExactly`).
- **Validation accepts exactly the well-formed configurations** (`Points.ValidatePoints`). When the
  groups of a configuration are contiguous runs with their true totals is proved exactly
  (`Grouping.ContiguousExactly`, `Grouping.GroupsOkExactly`).

## How it is modelled

- `uint8` to `uint64` are bounded integers; every truncation of the source is an explicit `Wrap16`,
  `Wrap32` or `Wrap64`. A float is its bit pattern. Scaling and the conversions to and from floats are
  arbitrary functions in `Settings`, so the theorems hold whatever the platform's arithmetic does.
- The device is four tables of 65536 entries (`Devices.Image`). A client call fails or answers with
  exactly the slice that was asked for; a range that leaves its table and a quantity of zero are refused
  (section 7 of the MODBUS Application Protocol Specification V1.1b3, exceptions 02 and 03). A write
  that fails may have landed.
- A point's meaning is the image from its address on, in uint16 addresses, decoded. Which exchanges of
  a collection read which group is a function of them (`Reading.Segment`).
- `Collectors.Collector`, `Managers.CollectorManager` and `Clients.Client` are classes with the fields
  of the source. What a locked section does is also a function of the replies it gets
  (`Reading.CollectGroups`, `SinglePoints.ReadOne`, `SinglePoints.WriteOne`): given a transcript it
  asks for the next request, returns, or finds that the transcript is not its own. Each method is
  proved to follow its function, and the machine of module `Protocol` executes the same functions.
  Connecting is written twice, as methods and as steps; `Connections` says what one attempt and one
  ensureConnected do, and both are proved to do that (`Collectors.Collector.EnsureConnected`,
  `SoloRuns.EnsureAlone`). `SoloRuns` says of every call of the machine what it does and returns when
  nothing disturbs it.
- A slice or an index that reaches past the end of an array is `None` in the methods and `Panicked` in
  the machine. Go panics there, or, between the length and the capacity of a slice, yields stale words.
- `Protocol` has any number of threads with one call each. A step takes a lock, makes one client call,
  or updates fields and releases the lock that guards them. The environment picks the thread, the
  reply and whether a write landed.
- Register types, data types and byte orders are strings in the source; here they are datatypes with
  one constructor for any other text.

## Facts about the code that the theorems bring out

- `ValidatePoints` does not bound address plus length, and `pkg/service/service.go:160` reloads the
  points unchecked. A point that ends past 65535 makes some validated neighbour join its group wrongly
  (`Grouping.WrapVictim`). A validated pair of points makes a collection reach past the end of a
  one-word answer (`Exactness.UnsoundPanics`); another, all of whose registers exist, is reported GOOD
  with registers that are not theirs (`Exactness.MixesUp`). Only the groups concerned are affected,
  unless the collection panics.
- A third pair fills its table, so that the total length of its group is zero
  (`Grouping.TotalLengthCanWrap`). The request for zero registers is refused, and the fallback reads the
  group register by register, or reports BAD for bits (`Reading.SoundReadsRight`).
- A group that wraps round is harmless when its requests cannot be answered: the fallback then reads
  every point at its own addresses (`Reading.IndividualGetsOwn`).
- A point that ends at 65536, on the last register, is fine unless a later point of its type starts at 0
  (`Grouping.ContiguousExactly`).
- Points of length 0 of a one-register type make the parser index an empty slice
  (`Decoding.ParseRegistersForPoint`).
- 16-bit writes are byte-swapped under little and swap although 16-bit reads are not, and although
  `docs/byte_order.md` says that 16-bit types ignore the byte order. The round trip then fails unless
  the two bytes match.
- With the byte order unset, batch decoding uses big, as documented, but the single-point readers
  leave their buffer zero. An unknown order is written as big and read as zero.
- Under little the code writes 0x12345678 as 0x7856, 0x3412; the register listing in
  `docs/byte_order.md` shows 0x1234, 0x5678. The model follows the code, and the code's layout is the
  letter table DCBA of the same document. The document also omits that float64 follows the byte order.
- Holding-register reads are split at 123, the protocol's write limit, although 125 would be allowed.

## Model

| member | source | states |
|---|---|---|
| Points.ValidatePoints | config/points.go:219-255 | Accepts exactly the non-empty lists with non-empty distinct names, distinct (address, register type) pairs, positive lengths and non-zero scales; a rejection names the first bad point and the first rule it breaks |
| Points.FirstFault | config/points.go:228-252 | The validation loop, with its two maps, finds the first point that breaks a rule given the points before it, or that there is none |
| Points.FaultlessIsAcceptable | config/points.go:219-255 | The loop's rule-by-rule check of each point against its predecessors is equivalent to the order-free statement of an acceptable list |
| Points.RejectionMeans | config/points.go:228-252 | Rule by rule: the points before the rejected one are acceptable, and that one breaks the named rule (empty name, name used before, register used before, no length, zero scale) and none that is checked earlier |
| Points.AddressKeyInjective | config/points.go:239 | The textual key of address and register type is equal for two points exactly when both parts are, so the uniqueness map confuses no registers |
| Points.DecimalTextInjective | config/points.go:239 | Decimal rendering of naturals is injective |
| ByteOrders.DecodeEncode | pkg/modbus/byteorder.go:79-312 | Decoding what was encoded is the identity on every value, in each of the four orders and at every even width |
| ByteOrders.EncodeDecode | pkg/modbus/byteorder.go:79-312 | Encoding what was decoded is the identity on every register sequence of every length |
| ByteOrders.Codec32 | pkg/modbus/byteorder.go:79-270 | The 32-bit codec is a bijection between values and register pairs, both directions, in each of the four orders |
| ByteOrders.Codec64 | pkg/modbus/byteorder.go:177-312 | The 64-bit codec is a bijection between values and register quadruples |
| ByteOrders.LetterTable32 | pkg/modbus/byteorder.go:79-140 | The reference layout puts the value's bytes into two registers as ABCD, DCBA, BADC or CDAB |
| ByteOrders.LetterTable64 | pkg/modbus/byteorder.go:177-213 | The same table for four registers |
| ByteOrders.DecodeInNumbers2 | pkg/modbus/byteorder.go:216-270 | A 32-bit read of registers a, b is a * 65536 + b in big and b * 65536 + a in middle; in swap and little it is the first and the second of these with each register's bytes exchanged; zero for any other order |
| ByteOrders.DecodeInNumbers4 | pkg/modbus/byteorder.go:273-312 | The 64-bit read of four registers in numbers |
| ByteOrders.EncodeInNumbers | pkg/modbus/byteorder.go:47-213 | The registers of a 32- or 64-bit write mean the value in the same order, or in big for an order that is none of the four; a 16-bit write exchanges the bytes under little and swap |
| ByteOrders.LayoutTwice | pkg/modbus/byteorder.go:11-44 | Each byte layout is its own inverse |
| ByteOrders.SwapBytesInRegisters | pkg/modbus/byteorder.go:11-20 | The in-place pair loop yields the swap layout for buffers of any length, odd ones included |
| ByteOrders.SwapRegisterPairs | pkg/modbus/byteorder.go:23-30 | The four assignments are the middle layout: the two halves exchanged |
| ByteOrders.SwapRegisterPairs64 | pkg/modbus/byteorder.go:33-44 | The eight assignments are the middle layout |
| ByteOrders.Uint16ToRegisters | pkg/modbus/byteorder.go:47-76 | A 16-bit write exchanges the bytes under little and swap and only then |
| ByteOrders.Word32ToRegisters | pkg/modbus/byteorder.go:79-174 | Every branch of the 32-bit encoders, big for unknown orders included, produces the reference layout |
| ByteOrders.Float64ToRegisters | pkg/modbus/byteorder.go:177-213 | Every branch of the 64-bit encoder produces the reference layout |
| ByteOrders.ReversedRegisters | pkg/modbus/byteorder.go:184-196 | The little branch, registers last to first and each byte-swapped, reverses all eight bytes |
| ByteOrders.PutBytesWithOrder | pkg/modbus/byteorder.go:216-242 | The buffer holds the layout of the two registers (their plain bytes under little), and stays as it was for too few registers or an unknown order |
| ByteOrders.PutFloat64BytesWithOrder | pkg/modbus/byteorder.go:273-312 | The same for four registers |
| ByteOrders.BufferIsDecode | pkg/modbus/byteorder.go:216-312 | Filling the buffer in an order and reading it back in that order is the reference decoding; an unnamed order reads zero |
| ByteOrders.Word32FromRegisters | pkg/modbus/collector.go:883-904 | The 32-bit read returns the reference decoding of the first two registers |
| ByteOrders.Float64FromRegisters | pkg/modbus/collector.go:905-918 | The 64-bit read returns the reference decoding of the first four registers |
| Words.SwapBytesIsShiftAndMask | pkg/modbus/byteorder.go:55-70 | The shift-and-mask expression on 16 bits is the arithmetic exchange of the two bytes |
| Words.WordParts | pkg/modbus/byteorder.go:47-76 | High and low byte, their join and the exchange of a word's bytes, in numbers |
| Converter.NarrowingIsModular | pkg/modbus/converter.go:20-101 | Converting an integer of any Go type through 64 bits to 16 or 32 bits is that integer modulo the width, signed and unsigned |
| Converter.SignedRepresentative | pkg/modbus/converter.go:84-96 | The signed reading of the narrowed bits is the one number in the signed range congruent to the integer |
| Grouping.GroupPointsByRegisterType | pkg/modbus/collector.go:273-311 | For every configuration the loops produce the greedy groups, each afterwards sorted; where nothing wraps round the sort changes no group |
| Grouping.PlacePoint | pkg/modbus/collector.go:276-303 | The inner loop extends the first group the point continues, in uint16 arithmetic, and otherwise opens one; every other group is kept |
| Grouping.SortGroups | pkg/modbus/collector.go:305-308 | Each group keeps its type, start and total, and its points are exchange-sorted |
| Grouping.SortPointsByAddress | pkg/modbus/collector.go:328-336 | The in-place loops compute the exchange sort: sorted by address, a permutation of the input, and without effect on a sorted array, for arrays of every length |
| Grouping.ExchangeSorts | pkg/modbus/collector.go:328-336 | The exchange sort as a function sorts, permutes and leaves sorted input alone |
| Grouping.GreedyPartitions | pkg/modbus/collector.go:273-303 | For every configuration, valid or not, the groups' points are the input as a multiset |
| Grouping.GroupedPartitions | pkg/modbus/collector.go:273-311 | The same after the final sort |
| Grouping.GreedyShaped | pkg/modbus/collector.go:273-303 | For every configuration each group has one type and starts where its first point does, and in uint16 arithmetic it is contiguous and its total is the sum of its lengths |
| Grouping.ContiguousExactly | pkg/modbus/collector.go:283 | When all points have registers, every group is a contiguous run if and only if no point that ends at 65536 is followed by one of its type at 0 |
| Grouping.GroupsOkExactly | pkg/modbus/collector.go:283-286 | Start, contiguity and total of every group are exact if and only if, moreover, no group runs from 0 to 65536 |
| Grouping.NoneFullExactly | pkg/modbus/collector.go:286 | Where no two points of a type end at the same address, no group does so if and only if no contiguous run in input order does |
| Grouping.FullGroupIsRun | pkg/modbus/collector.go:286 | On every configuration a group that fills its table is such a run, so without one all totals are exact |
| Grouping.SharedEndHidesRun | pkg/modbus/collector.go:279-290 | With shared ends the converse fails: three points with such a run and no full group |
| Grouping.SortChangesNothing | pkg/modbus/collector.go:305-308 | Where nothing wraps round the final sort leaves every group unchanged |
| Grouping.FindsGroup | pkg/modbus/collector.go:279-290 | With distinct addresses per type, the search finds a group exactly when some earlier point of the type ends, in uint16 arithmetic, at the point's address |
| Grouping.GroupCount | pkg/modbus/collector.go:273-303 | With distinct addresses per type, the number of groups is the number of points at whose address no earlier point of their type ends |
| Grouping.GreedyIsMinimal | pkg/modbus/collector.go:273-303 | With distinct addresses per type, no division into contiguous runs in input order has fewer runs than there are groups |
| Grouping.GreedyIsMinimalExactly | pkg/modbus/collector.go:273-303 | The groups are fewest among all divisions into contiguous runs, in any order, if and only if every point that continues another comes after such a one |
| Grouping.SortedIsMinimal | pkg/modbus/collector.go:273-303 | For input sorted by address the groups are fewest among all divisions into contiguous runs |
| Grouping.GreedyIsChainPartition | pkg/modbus/collector.go:273-303 | The groups are themselves a division in input order, so the minimum is attained, if and only if nothing wraps round |
| Grouping.BoundIsExact | pkg/modbus/collector.go:283 | A point groups correctly before every point that validation admits after it if and only if it ends below 65536 |
| Grouping.WrapVictim | pkg/modbus/collector.go:283 | For every other point, a validated one that is wrongly taken for its successor |
| Grouping.TotalLengthCanWrap | pkg/modbus/collector.go:286 | Two validated points whose group has total length 0 in uint16 and 65536 in truth |
| Reading.SplitTiles | pkg/modbus/collector.go:404-455 | Split requests are consecutive, disjoint, non-empty, cover exactly the range and do not wrap |
| Reading.SplitWithinLimit | pkg/modbus/collector.go:605-652 | Every split request reads at least one and at most the limit, for wrapping ranges too |
| Reading.SplitCount | pkg/modbus/collector.go:699-746 | The number of split requests is the length divided by the limit, rounded up |
| Reading.IndividualTiles | pkg/modbus/collector.go:749-773 | The register-by-register fallback reads exactly the range of a contiguous run, in order |
| Devices.TiledPlanReadsSlice | pkg/modbus/collector.go:561-773 | However a range is tiled by reads, the concatenated answers are the image's slice of the range |
| Devices.PlanConsumes | pkg/modbus/collector.go:617-649 | A reading loop makes its requests in order, stops at the first failure, and succeeds exactly when every one was answered |
| Reading.RoutesReadSlice | pkg/modbus/collector.go:339-773 | On contiguous groups, single request, split requests and fallback all return the image slice of the group's range whenever they succeed |
| Reading.GroupGetsOwn | pkg/modbus/collector.go:339-773 | On a run in uint16 addresses with its true total, and on a group whose requests are refused, every route that succeeds gives each point its own registers |
| Reading.SplitReads | pkg/modbus/collector.go:605-652 | Split requests that are all answered give the words from the start on, also across the end of the table |
| Reading.IndividualGetsOwn | pkg/modbus/collector.go:749-773 | The fallback gives each point its own registers in whatever order the points come |
| Reading.ReadConsumes | pkg/modbus/collector.go:339-773 | A group read succeeds exactly when its one request was answered, or all split requests were, or, for input and holding registers only, all fallback requests were |
| Reading.CutsOwnRegisters | pkg/modbus/collector.go:806-860 | Cutting the words of a run in uint16 addresses at running offsets gives each point the image at its own addresses |
| Reading.OwnRegistersDecode | pkg/modbus/collector.go:806-860 | Points given their own registers report their meaning, scaled once, unless one of length 0 makes the parser index nothing |
| Reading.GroupReport | pkg/modbus/collector.go:776-863 | For every group that does not panic: which points are BAD, and, if it reads its own registers, every point's meaning or BAD for all |
| Reading.CollectReports | pkg/modbus/collector.go:233-261 | For every configuration and all honest replies, a collection that returns reports every point of every group as CollectReportsAt says, and no others |
| Reading.CollectReportsAt | pkg/modbus/collector.go:776-863 | Its group was read completely in its own segment of the exchanges; the value is BAD exactly when that segment answered no route or the point cannot be decoded; and it is the point's meaning if the group was served and reads its own registers, whatever the other groups are |
| Reading.SegmentsCover | pkg/modbus/collector.go:233-261 | The segments of the groups are all exchanges of the collection, in order |
| Reading.AnsweredServes | pkg/modbus/collector.go:339-773 | Where every request was answered, every group was served |
| Reading.ReadsRightReturns | pkg/modbus/collector.go:195-262 | A configuration whose groups all read their own registers never panics |
| Reading.CollectNames | pkg/modbus/collector.go:233-261 | For every configuration and all replies, a collection that returns has one value per point, named in the order of the groups' points |
| Reading.SoundReadsRight | pkg/modbus/collector.go:273-311 | Points whose registers exist, none of which ends at 65536 before one of its type at 0, form such a configuration, full tables included |
| Reading.CollectGoesOn | pkg/modbus/collector.go:233-261 | A collection issues only reads and can continue from every reply |
| Exactness.ReadsRightExactly | pkg/modbus/collector.go:195-262 | For all positive lengths: on every honest device every point is given its own registers if and only if each group is a run in uint16 addresses with its true total or cannot be answered as one |
| Exactness.PanicsExactly | pkg/modbus/collector.go:806-811 | For all groups: some honest device makes a collection reach past the end of an array if and only if some group's total is below the sum of its lengths and its requests can be answered, or some readable group has a one-register point of length 0 |
| Exactness.ValidatedExactly | pkg/modbus/collector.go:195-262 | Both equivalences for every configuration that validation accepts |
| Exactness.UnsoundPanics | pkg/modbus/collector.go:283-286 | A pair that validation accepts and one answered request after which the collection reaches past the end |
| Exactness.MixesUp | pkg/modbus/collector.go:305-308 | A validated pair inside its table that is reported GOOD with other registers' values: the group is sorted but was read from its old start |
| Decoding.ParseRegistersForPoint | pkg/modbus/collector.go:866-940 | For every type and every register slice: a panic exactly for a one-register type given none, an error exactly for too few registers or an unsupported type, otherwise the reference decoding, big when the order is unset |
| Decoding.RegisterBytes | pkg/modbus/collector.go:921-926 | A text's bytes are its registers' bytes, high byte first |
| Decoding.TrimAtZero | pkg/modbus/collector.go:927-935 | The trimming loop returns the longest prefix without a zero byte |
| Decoding.UntilZero | pkg/modbus/collector.go:927-935 | That prefix contains no zero and, unless it is everything, is followed by one |
| SinglePoints.ReadOneReads | pkg/modbus/collector.go:943-1146 | A single read returns the decoding of what the device holds from the point's address on, or fails, and fails only for an unsupported type, a refused range or a failed request; a text read wraps in uint16 |
| SinglePoints.PathsAgree | pkg/modbus/collector.go:866-964 | At scale 1 and with enough registers, batch and single path give the same value on every image, for all eight data types, NUL-truncated texts across the end of the table included |
| SinglePoints.PathsAgreeExactly | pkg/modbus/collector.go:1021-1098 | They agree on all images if and only if it is not the case that the order is unset and the type is wider than a register, and the registers of a number are in the table |
| SinglePoints.WordsDecode | pkg/modbus/collector.go:1361-1388 | The words of a write decode to the value that comes back, for the six writable types and every order, named, unset or unknown |
| SinglePoints.WriteThenMeaning | pkg/modbus/collector.go:1356-1402 | Once the write of a holding-register point landed, the point decodes to the written value, except that unknown orders bring back zero for 32 and 64 bits, and little and swap exchange the two bytes of 16 |
| SinglePoints.RoundTripExactly | pkg/modbus/byteorder.go:47-312 | For each point and value: writing and collecting gives the value back if and only if, for 32 and 64 bits, the order is one of the four or unset or the bits are zero, and for 16 bits, the order is neither little nor swap or the two bytes match |
| SinglePoints.WriteElsewhere | pkg/modbus/collector.go:1356-1402 | A write changes the meaning of no point on other registers |
| SinglePoints.WriteThenCollect | pkg/modbus/collector.go:195-262 | Write, then collect any configuration: in every group that reads its own registers the written point is GOOD with the value read back if its exchanges served the group and BAD if not, and disjoint points report what they would have |
| SinglePoints.WriteComesBack | pkg/modbus/collector.go:195-262 | With every request answered, the collection reports the point GOOD with the value read back |
| SinglePoints.CoilThenMeaning | pkg/modbus/collector.go:1327-1353 | A bool point on a written coil reads the written state |
| SinglePoints.CoilStateMeans | pkg/modbus/collector.go:1328-1340 | That state is on for true and for every integer and double other than zero, of every type, and none exactly for unsupported values |
| SinglePoints.IntegerWritten | pkg/modbus/converter.go:84-101 | Any integer of any Go type is written as its representative modulo 2^16 or 2^32 in the range of the point's type |
| SinglePoints.IntegerComesBack | pkg/modbus/converter.go:20-101 | Writing any integer to a 16- or 32-bit integer point and collecting it gives a number in the type's range congruent to it modulo 2^16 or 2^32, whenever the order preserves its bits |
| SinglePoints.WriteOneGoesOn | pkg/modbus/collector.go:1305-1402 | A write makes one request, the one that encodes the value, and succeeds exactly when it is acknowledged |
| SinglePoints.ReadOneGoesOn | pkg/modbus/collector.go:943-964 | A single read issues only reads and can continue from every reply |
| Meanings.ScaledOnce | pkg/modbus/collector.go:831-846 | A point's value is its value at scale 1, multiplied once by the scale if the scale is not 1 and the value is neither a bool nor a text |
| Meanings.ScaleBits | pkg/modbus/collector.go:832 | The bit pattern compared with is that of 1.0, and zero scales are the two zeros, by sign, exponent and fraction |
| Meanings.SingleIgnoresScale | pkg/modbus/collector.go:966-992 | The single-point readers do not look at the scale |
| Meanings.NumberMeaning | pkg/modbus/collector.go:878-919 | At scale 1 a collection reports the number that the point's registers mean in the device's tables, two's complement for signed types, in the configured order, big when unset |
| Meanings.BoolMeaning | pkg/modbus/collector.go:339-353 | For every register type: coils, discrete inputs, input registers other than 0, and holding registers other than 0 also for unknown types |
| Meanings.TextMeaning | pkg/modbus/collector.go:921-936 | A text is the bytes of its registers, high byte first, up to the first zero byte |
| Meanings.NumberSingly | pkg/modbus/collector.go:995-1111 | A single read returns the number in the configured order, zero when that is none of the four; an error for bits, unknown register types and past the end of the table |
| Meanings.TextSingly | pkg/modbus/collector.go:1114-1146 | A single read of a text returns the same bytes, from the two register tables only |
| Meanings.ExpectedIs | pkg/modbus/collector.go:776-863 | A reported value has its point's name and type; it is BAD exactly when it carries no value, and exactly when the group was not read, the type is unknown or the registers are too few |
| Meanings.BadValuesCarryNothing | pkg/modbus/collector.go:204-217 | Without a connection every point is reported BAD without a value |
| Meanings.RequestsWithinLimits | pkg/modbus/collector.go:355-365 | A group of at most 2000 bits, 125 input or 123 holding registers is one request, and a longer one as few as that limit allows, none over it |
| Meanings.TableOfType | pkg/modbus/collector.go:339-353 | Which table the requests of each register type read |
| Meanings.Fallback | pkg/modbus/collector.go:749-756 | After the one request failed, input and holding registers are read one by one and anything else is given up; split reads have no fallback |
| Meanings.SingleRequests | pkg/modbus/collector.go:995-1127 | A single read makes one request of 1, 2 or 4 registers, or one for each register of a text, and none for bits or unknown types |
| Meanings.WhatIsWritten | pkg/modbus/collector.go:1315-1388 | Only coils and holding registers of the six numeric types are written, at the point's address, with as many registers as the type has |
| Meanings.CoilApplied | pkg/modbus/collector.go:1342 | A landed coil write sets that coil and nothing else on the device |
| Meanings.RegistersApplied | pkg/modbus/collector.go:1391 | A landed register write sets its registers and nothing else |
| Meanings.FloatWritten | pkg/modbus/converter.go:20-133 | A float of the point's width is written bit for bit, the other width goes through the platform's conversion, and integer points take the signed or unsigned conversion modulo their width |
| Meanings.IntegerAsFloat | pkg/modbus/converter.go:104-133 | An integer of any Go type is written to a float point as the platform's float of that integer |
| Meanings.NoNumberIsZero | pkg/modbus/converter.go:20-133 | A bool or an unsupported value is written to a number as zero |
| Meanings.SingleSwitches | pkg/modbus/collector.go:1334-1335 | A float32 switches a coil on unless its float64 is a zero |
| Meanings.FloatComesBack | pkg/modbus/collector.go:1356-1402 | A float64 written to a float64 point, or a float32 to a float32 point, is collected bit for bit in the four orders and the unset one |
| Clients.Client.ReadRegisters | pkg/modbus/collector.go:585 | A read fails or answers with exactly the slice, and changes nothing |
| Clients.Client.ReadBits | pkg/modbus/collector.go:374 | The same for coils and discrete inputs |
| Clients.Client.Write | pkg/modbus/collector.go:1391 | An acknowledged write is carried out exactly; a failed one is carried out exactly or not at all |
| Collectors.NewCollector | pkg/modbus/collector.go:43-71 | An error exactly when the client cannot be made; otherwise one attempt to connect was made, the collector owns one handle or none, and the retry count is 0 or 1 accordingly |
| Collectors.Collector.TestConnection | pkg/modbus/collector.go:152-155 | Exactly one read of holding register 0, successful exactly when answered |
| Collectors.Collector.Connect | pkg/modbus/collector.go:74-115 | Nothing when connected; otherwise open, test and on a failed test close; keeps the handle balance, and the retry count becomes 0 or grows by one |
| Collectors.Collector.Disconnect | pkg/modbus/collector.go:118-136 | Closes exactly when connected, keeps the handle balance, leaves the retry count |
| Collectors.Collector.Reconnect | pkg/modbus/collector.go:146-149 | A close when connected, then one attempt to connect |
| Collectors.Collector.EnsureConnected | pkg/modbus/collector.go:158-192 | A connection that answers its test is kept; a lost one is marked down once; then come failed attempts and at most one success, at most maxRetries in all; a failure raises the retry count by exactly maxRetries |
| Connections.AttemptsBounded | pkg/modbus/collector.go:173-189 | Such a sequence opens at most maxRetries times, and exactly maxRetries times when all fail |
| SoloRuns.ConnectAlone | pkg/modbus/collector.go:74-115 | A thread of the machine that connects undisturbed makes the exchanges and the state changes of the method Connect |
| SoloRuns.EnsureAlone | pkg/modbus/collector.go:158-192 | And one in ensureConnected those of the method EnsureConnected, handles included, going on exactly when it succeeds |
| SoloRuns.ConnectCall | pkg/modbus/collector.go:74-115 | A Connect call returns whether it connected, with those effects |
| SoloRuns.DisconnectAlone | pkg/modbus/collector.go:118-136 | A thread that disconnects undisturbed makes the one close and clears the field exactly as the method Disconnect |
| SoloRuns.DisconnectCall | pkg/modbus/collector.go:118-136 | A Disconnect call returns with the collector unconnected and its handle closed |
| SoloRuns.ReconnectCall | pkg/modbus/collector.go:146-149 | A Reconnect call closes what is open, makes one attempt to connect and returns whether it succeeded |
| SoloRuns.StatusCall | pkg/modbus/collector.go:139-143 | IsConnected returns the field and changes nothing |
| SoloRuns.GivesUp | pkg/modbus/collector.go:199-218 | Without a connection a collection returns every point BAD, a read an error and a write an error |
| SoloRuns.CallStarts | pkg/modbus/collector.go:966-992 | Which job each call has, and at which lock it starts |
| SoloRuns.JobAlone | pkg/modbus/collector.go:220-261 | A collection, read or write that waits for opMutex completes on any device that behaves: it enters the history and returns what its job computes from the replies |
| SoloRuns.TableChanges | pkg/modbus/collector_manager.go:39-44 | A step changes the manager's table only as the registration of a point under its own name |
| SoloRuns.RegisterCall | pkg/modbus/collector_manager.go:39-44 | A RegisterPoint call puts its point in the table and changes nothing else |
| SoloRuns.Routed | pkg/modbus/collector_manager.go:46-83 | A name is routed to a read or write of the point that the table holds under it, and to an error if it holds none; a read keeps mu and a write releases it |
| SoloRuns.Released | pkg/modbus/collector_manager.go:70-95 | GetPointValue lets go of mu last and returns what its read gave |
| Collectors.Collector.ReadBitBatchSplit | pkg/modbus/collector.go:404-558 | The split loop for coils and discrete inputs is a complete run of the split plan |
| Collectors.Collector.ReadRegisterBatchSplit | pkg/modbus/collector.go:605-746 | The split loop for input and holding registers is a complete run of the split plan |
| Collectors.Collector.WordsOfBits | pkg/modbus/collector.go:384-393 | Each bit becomes the word 1 or 0 at the same place |
| Collectors.Collector.ReadBatchIndividual | pkg/modbus/collector.go:749-773 | The fallback's nested loops are a complete run of the register-by-register plan; coils, discrete inputs and unknown types fail without a request |
| Collectors.Collector.ReadBatch | pkg/modbus/collector.go:339-696 | Dispatch, limits, split and fallback are a complete run of the group read |
| Collectors.Collector.ReportPoint | pkg/modbus/collector.go:810-857 | Parse, scale once unless scale is 1, or BAD; a panic exactly for a one-register type of length 0 |
| Collectors.Collector.ParseGroup | pkg/modbus/collector.go:806-860 | The offset loop is the cut of the whole array, and stops exactly where a slice or an index reaches past its end |
| Collectors.Collector.AllBad | pkg/modbus/collector.go:205-216 | One BAD value per point, in order |
| Collectors.Collector.CollectBatchGroup | pkg/modbus/collector.go:776-863 | For every group, a complete run of its read, reported |
| Collectors.Collector.CollectAll | pkg/modbus/collector.go:220-261 | For every configuration the locked section is a complete run of the collection over its groups |
| Collectors.Collector.CollectPoints | pkg/modbus/collector.go:195-262 | Without a connection every point is BAD; with one the log is a complete run of the collection. One value per point, with the points' names. Every group that reads its own registers reports its points' meaning in the image, or BAD for all, by its own exchanges. If all groups do, there is no panic |
| Collectors.Collector.ReadSingles | pkg/modbus/collector.go:1119-1127 | The text loop reads register by register in uint16 addresses |
| Collectors.Collector.CollectSinglePoint | pkg/modbus/collector.go:943-964 | The type dispatch and its eight readers are a complete run of the single read |
| Collectors.Collector.ReadSinglePoint | pkg/modbus/collector.go:967-992 | A result is the point's single meaning in the image; an error exactly when unconnected, unsupported, refused or unanswered |
| Collectors.Collector.CoilValue | pkg/modbus/collector.go:1328-1340 | The type switch turns an integer of any type into whether it is not zero, likewise a double, keeps a bool, and rejects exactly the unsupported values |
| Collectors.Collector.EncodeValue | pkg/modbus/collector.go:1361-1388 | Conversion and encoding produce the words of the reference layout for each writable type, and reject the others |
| Collectors.Collector.WritePoint | pkg/modbus/collector.go:1305-1402 | A success changes the image by exactly the request that encodes the value; a failure changes nothing or exactly that; only coils and holding registers are written |
| Connections.DataKeepsHandles | pkg/modbus/collector.go:195-262 | Reads and writes, however many, leave the handle balance of a log alone |
| Locks.StepKeepsLocks | pkg/modbus/collector.go:74-192 | Every step of every thread keeps the agreement between the lock fields and the threads' critical sections |
| Locks.LocksAlwaysAgree | pkg/modbus/collector.go:74-192 | In every reachable state stateMutex, opMutex and mu are held by exactly the threads inside their critical sections, and a writer excludes readers |
| Handles.StepKeepsHandles | pkg/modbus/collector.go:74-170 | Every step keeps the balance of opened and closed handles, up to the one a critical section is working on |
| Handles.HandleConservation | pkg/modbus/collector.go:74-170 | In every reachable state outside stateMutex.Lock: successful opens = closes + mark-downs + 1 if connected |
| Handles.RetryCountIsTrailingFailures | pkg/modbus/collector.go:74-115 | In every reachable state retryCount is the number of failed attempts since the last successful one |
| Linearizability.MemoryAlwaysOk | pkg/modbus/collector.go:220-261 | In every reachable state the image is the replay of the completed sections plus what the holder of opMutex has written so far |
| Linearizability.EverySectionIsLinear | pkg/modbus/collector.go:966-992 | Every completed collection, of whatever configuration, and every read and write of every run has the result of running alone on the image left by the sections before it |
| Linearizability.ImageIsReplay | pkg/modbus/collector.go:1305-1324 | While nobody holds opMutex the image is exactly what the completed sections wrote, in their order |
| Linearizability.ReturnsItsEntry | pkg/modbus/collector.go:195-262 | What a call returns is what its completed section computed, and a call without one returns the no-connection result |
| Linearizability.RealTimeOrder | pkg/modbus/collector.go:220-222 | A section of a call that returned before another call was made comes first in the order |
| Deadlocks.LockOrder | pkg/modbus/collector_manager.go:46-95 | In every reachable state nobody holds stateMutex and opMutex at once or waits for a lock inside either, and who waits for mu holds nothing |
| Deadlocks.DeadlockFree | pkg/modbus/collector_manager.go:46-95 | In every reachable state with an unfinished call some thread can step, even when a waiting writer keeps new readers out |
| StepBudgets.JobAsksWithin | pkg/modbus/collector.go:195-262 | A locked section makes at most a number of requests fixed by its arguments |
| StepBudgets.EveryStepSpends | pkg/modbus/collector.go:158-192 | Each step lowers the budget of the thread that takes it, whatever others do |
| StepBudgets.CallTakesBoundedSteps | pkg/modbus/collector.go:158-192 | In every run a call takes no more steps than the budget it had when it was made |
| StepBudgets.MovesSpendTotal | pkg/modbus/collector.go:158-192 | Each step of any thread lowers the sum of all budgets |
| StepBudgets.RunEnds | pkg/modbus/collector.go:158-192 | A stretch of a run without new calls has at most as many steps as that sum |
| StepBudgets.StillMeansFinished | pkg/modbus/collector.go:158-192 | A reachable state in which no thread can step is one in which every call has returned |
| StepBudgets.CallsCanReturn | pkg/modbus/collector.go:158-192 | Every reachable state can be continued without new calls to one in which every call has returned |
| EndToEnd.MeaningSurvives | pkg/modbus/collector.go:1305-1402 | A point keeps its meaning over every sequence of sections that do not write to its registers |
| EndToEnd.CollectionShowsLastWrite | pkg/modbus/collector.go:195-262 | In every run, after an acknowledged write of any writable type, every later collection that returns shows the value read back, wherever the point's group reads its own registers and was served by the collection's exchanges, as long as no section in between wrote to its registers |
| EndToEnd.CollectSeesWrite | pkg/modbus/collector.go:195-262 | For callers: a collection called after a write returned without error shows that value, and reports it if all its requests were answered; without a connection it reports every point BAD, and it panics only on a configuration with a group that does not read its own registers or a point of length 0 |
| Managers.CollectorManager.WritePoint | pkg/modbus/collector_manager.go:46-68 | Fails exactly for an unknown name or device; otherwise touches only that device's collector and is a write of the registered point there |
| Managers.CollectorManager.GetPointValue | pkg/modbus/collector_manager.go:70-95 | A value is the registered point's single meaning on the device it is routed to, which is left unchanged |
| Kafka.BuildValuesMap | pkg/kafka/producer.go:81-84 | The loop folds the values into the map, later ones over earlier ones |
| Kafka.OwnValues | pkg/kafka/producer.go:81-84 | With distinct names the map's keys are exactly the names and each has its own value |
| Kafka.OrderIrrelevant | pkg/kafka/producer.go:81-84 | With distinct names the map does not depend on the order of the values |
| Kafka.NamesStayUnique | config/points.go:233-236 | Regrouping a configuration keeps its names distinct |
| Kafka.MessageOfCollection | pkg/kafka/producer.go:81-84 | For every configuration with distinct names, the message of a collection has exactly the configured names as keys, and each point in a group that reads its own registers has its own value |

## Left out

- Logging, timestamps, units, descriptions and device names: they carry no behaviour.
- The Modbus wire protocol and sockets: the client library is not part of this model, only its contract.
- Floating-point arithmetic and float-to-integer conversions: arbitrary functions on bit patterns.
- pkg/modbus/collector.go:1169-1302 and 1405-1539: methods that repeat byteorder.go and are not called.
- pkg/modbus/point_cache.go, CSV and TOML reading, the HTTP server, the Kafka client, logger setup, service start and stop: plumbing around the core.
- config.Validate and toString: defaults and formatting.
- Readers that differ in one request or one type are one method with a parameter: the coil and discrete-input readers, the input- and holding-register readers, and the int32, uint32 and float32 encoders.
- Slices that the source shares or grows in place (groups, registers, values) are sequences that the methods reassign; only the sort and the byte buffers are arrays.
- Protocol covers one collector together with the manager's lock. Several collectors share no lock but mu. Its manager has one table of points; the three maps are in Managers.
- A write whose reply is lost lands at once or never; a write that a device carries out after a later request is not modelled.
- Clients.Client.Write: the image changes only through these writes; a device that changes its own registers is not modelled.
- Collectors.Collector.CollectPoints: a group that neither is a run nor is refused, as MixesUp shows one, is described by the run of the collection and by which of its points are BAD, not by a meaning.
- Exactness.ReadsRightExactly: is about the registers each point is given; whether two different registers decode alike is not considered.
- A panic that ends the process: the machine lets the other threads go on after one.
- SinglePoints.WriteThenCollect: points that overlap the written one without being it or disjoint from it are not described.
- EndToEnd.CollectionShowsLastWrite: is about holding-register points of scale 1 whose length is at least the width of their type; written coils are in CoilThenMeaning.
