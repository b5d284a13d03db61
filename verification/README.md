# Admission control and RPC specs: a verified model

This project models the two libraries of the repository and proves properties of them in Dafny.

**Admission control** decides whether a server looks at a message at all. Every connection owns a
token bucket that stores one number, its zero time; a limiter keeps the buckets in a capped map,
evicts the connection not seen for longest, sweeps idle ones and forgets disconnected ones. Two
streaming visitors (a SAX handler for JSON, a wire-format scanner for protobuf) show a payload to a
stateful check that may drop it at any event.

**RPC specs** describe a request as fields of ordered items (requirements, modifiers, checks,
guards, defaults), nested in sections and type branches and wrapped in custom errors and server
conditionals. Parsing validates the request, rewrites it in place and builds a typed Input.

| files | content |
|---|---|
| `TokenBucketMath`, `TokenBucket`, `TokenRuns`, `ConcurrentConsume` | one bucket: its operations with their compare-exchange loops, runs of them, and every interleaving of threads |
| `AdmissionTypes`, `ConnectionLimiter`, `LimiterRuns`, `LimiterLru`, `LimiterBudget` | the limiter and its runs: cap, sweeping, recency, conservation |
| `Varint`, `ProtobufVisitor`, `JsonVisitor`, `JsonEvents` | the visitors, and what their events say of a payload |
| `OverridePlan`, `JsonDocument`, `SpecItems`, `DocumentViews`, `Requests`, `SpecParse` | the spec engine: what items mean, the views into a document, the requests that items rewrite in place through them, and the walk |
| `ModifierLaws`, `ItemLaws`, `SpecFrame`, `SpecInput`, `SpecErasure`, `SpecIdempotence`, `SpecChains` | what the engine guarantees of every spec |
| `Xrpl`, `ElementLoops`, `Subscribe`, `LedgerEntry`, `LocatorLaws`, `EntryAcceptance`, `Oracles`, `LedgerSelection` | shipped handlers: what is let through, what it converts to, and the two servers' ledger and marker rules |
| `ShippedSpecs`, `TotalSpecs` | whole shipped specs: three that parse their own results again, two that never throw |
| `Wrappers` | the optional value |

How the model reads the program:

- Tokens, seconds and time points are exact reals. A call's `now` is fixed for the call.
- A thread is cut at every access to the atomic zero time: pre-check, load, weak exchange. A schedule
  is any sequence of steps; an exchange may fail spuriously. In the sequential class the number of
  spurious failures is a parameter, and no result depends on it.
- Which of several equally old connections is evicted is up to the hash table's order, so runs carry
  the evicted connection as a parameter constrained to be one of the oldest.
- A stateful check is a function from its state and an event to a decision and its next state.
- Bytes are integers below 256. A bitwise or onto zero bits is written as an addition.
- The JSON parser is a generator of callback sequences: a document together with the pieces in which
  its keys, strings and numbers arrive.
- A JSON document is a tree, an object a list of members found by first key. Integers keep the
  parser's signed or unsigned kind, and `isInt64`, `isUint32` accept either kind in range.
- A field view points into the document: it has a handle to read through and one to write through,
  each a path from the root or missing, and `child` and `element` choose a mutable, const or absent
  view as the source does. A request owns the one document that is written in place. What an item does
  is a function of the value its view reads; each in-place method is proved to do that to what the view
  sees and nothing to the rest.
- The ledger library's decoders are unknown functions in one record, so a validator and a converter
  that call the same decoder agree. Two facts about it are stated where used (`Xrpl.WellBehaved`): hex
  text holds no NUL, and account one is not account zero.
- An unchecked read of an absent or wrongly typed value, and an extractor that throws, are faults. A
  parse that meets one ends with `thrown` set in its outcome.

Where the code and its documentation differ, the model follows the code:

- `admitPre` is documented as running a hook before parsing; the code has none, only the byte cap and
  the size cost (include/admissionspec/ConnectionLimiter.hpp:62-64, include/admissionspec/AdmissionSpec.hpp:192-203).
- `visitJson` returns the check's last decision when nothing was dropped, with whatever cost that
  decision carried, while `visitProtobuf` returns an admission of cost zero.
- `oracle_document_id` of `ledger_entry` is commented as numbers only; the spec also accepts a string
  holding a number (include/rpcspec/handlers/ledger_entry/Spec.hpp:1119-1125).

Results that are false of some inputs are stated with their exact condition:

- Sweeping is unobservable if and only if it waits for a full refill.
- Packed and unpacked 32-bit fields look alike if and only if no delivered element has its sign bit set.
- A clamp after a minimum settles if and only if its range reaches the minimum.
- The two servers answer a request from the same ledger if and only if Clio accepts it and it has exactly
  one of `ledger_hash` and `ledger_index` and no legacy `ledger`, or the legacy key alone with the value
  "validated". A request that names no ledger is answered from different ones.
- A book is accepted if and only if it converts to a proper market and its domain is hex to the last
  character.
- Erasing the wrappers of a bound field keeps its outcome if and only if both of its spellings are given, or its
  guards decide alike with and without them, or the field is absent, has no default and its items do not
  complain; a spec and its erased form agree after every number of fields if and only if this holds of every
  bound field that is reached. A guard below a custom error is what can break it.

## Model

| member | source | states |
|---|---|---|
| TokenBucketMath.TakeMovesAnchor | include/admissionspec/folly/TokenBucket.hpp:141-184 | taking c tokens moves the zero time to max(z, now - burst/rate) + c/rate; c is affordable exactly when that is not after now, and a positive take strictly increases the zero time |
| TokenBucket.BasicTokenBucket.constructor | include/admissionspec/folly/TokenBucket.hpp:526-531 | a bucket starts with the given rate, burst and zero time |
| TokenBucket.BasicTokenBucket.Full | include/admissionspec/TokenBucket.hpp:53-59 | with a refill the bucket is full from its creation time on; without one (a rate that is not positive) no positive amount is ever available |
| TokenBucket.FullStart | include/admissionspec/TokenBucket.hpp:122-130 | the computed zero time makes the balance the capacity at every later time, and on the branch without a refill never above zero |
| TokenBucket.BasicTokenBucket.BalanceAt | include/admissionspec/folly/TokenBucket.hpp:141-147 | the balance, in seconds of refill, is the time since max(z, now - burst/rate); it is negative exactly before the zero time and never above the burst |
| TokenBucket.BasicTokenBucket.Available | include/admissionspec/folly/TokenBucket.hpp:662-664 | the available tokens are the balance, never below zero and never above the burst |
| TokenBucket.BasicTokenBucket.CompareExchangeWeak | include/admissionspec/folly/TokenBucket.hpp:233-241 | succeeds exactly when the expected value is there and the exchange does not fail spuriously; writes only on success |
| TokenBucket.BasicTokenBucket.ConsumeStorage | include/admissionspec/folly/TokenBucket.hpp:160-185 | whatever number of times the weak exchange fails, the callback's answer on the balance is consumed once, and nothing is written when it is zero |
| TokenBucket.BasicTokenBucket.Consume | include/admissionspec/folly/TokenBucket.hpp:345-364 | all or nothing: granted exactly when the balance is not negative and covers the request; a refusal debits nothing |
| TokenBucket.BasicTokenBucket.TryConsumeNow | include/admissionspec/TokenBucket.hpp:70-78 | a cost that is not positive always passes and debits nothing; a positive one behaves as one atomic all-or-nothing consume |
| TokenBucket.BasicTokenBucket.ConsumeOrDrain | include/admissionspec/folly/TokenBucket.hpp:381-398 | for any requested amount, hands out the smaller of the balance and the request, nothing while the bucket is empty or in debt, and leaves exactly an empty bucket when it drains |
| TokenBucket.BasicTokenBucket.ReturnTokens | include/admissionspec/folly/TokenBucket.hpp:209-231 | moves the zero time back by the refill time of the tokens (forward when negative), whatever the contention |
| TokenBucket.BasicTokenBucket.TimeWhenBucket | include/admissionspec/folly/TokenBucket.hpp:200-202 | at that time the bucket holds exactly the target, from then on at least it and never before; a target above the burst is never held |
| TokenBucket.BasicTokenBucket.BorrowRest | include/admissionspec/folly/TokenBucket.hpp:449-453 | borrowing pushes the zero time forward by the refill time of what is missing, and that is when the debt is paid |
| TokenBucket.BasicTokenBucket.ConsumeWithBorrowNonBlocking | include/admissionspec/folly/TokenBucket.hpp:432-457 | refused exactly above the burst; otherwise, on every path, the zero time becomes max(z, now - burst/rate) + c/rate, the nap is max(0, that - now), and the loop takes at most two rounds |
| TokenBucket.BasicTokenBucket.Reset | include/admissionspec/folly/TokenBucket.hpp:565-575 | a new rate and burst carry over the available tokens, up to the new burst; a debt is forgiven |
| TokenBucket.BasicTokenBucket.SetCapacity | include/admissionspec/folly/TokenBucket.hpp:587-589 | the bucket then holds the given tokens, up to the burst |
| TokenRuns.GrantWindow | include/admissionspec/folly/TokenBucket.hpp:171-184 | over any run of affordable takes with clocks in any order, grants i to j total at most burst + rate * (now_j - now_i) |
| TokenRuns.BorrowingIsFifo | include/admissionspec/folly/TokenBucket.hpp:432-457 | with a clock that never goes back, borrowers start in the order in which they called |
| TokenRuns.BorrowWindow | include/admissionspec/folly/TokenBucket.hpp:432-457 | borrowed grants i to j total at most burst + rate * (start_j - start_i), whatever the order of the callers' clocks |
| ConcurrentConsume.StepIsAtomic | include/admissionspec/folly/TokenBucket.hpp:353-363 | every step of any schedule either leaves the zero time alone or acts exactly as the one atomic consume it decides |
| ConcurrentConsume.Linearisable | include/admissionspec/folly/TokenBucket.hpp:160-185 | every interleaving, with stale loads and spurious failures, has a sequential run of atomic consumes with the same return values and the same final zero time |
| ConcurrentConsume.DecisionsRespectRealTime | include/admissionspec/folly/TokenBucket.hpp:345-364 | each call's one decision falls between its invocation and its return, and the return reports that decision: the sequential order respects real time |
| ConcurrentConsume.ConcurrentWindow | include/admissionspec/folly/TokenBucket.hpp:171-184 | for every interleaving and any per-call times, grants i to j in exchange order total at most burst + rate * (now_j - now_i) |
| ConcurrentConsume.ZeroTimeMovesOnlyByGrants | include/admissionspec/folly/TokenBucket.hpp:171-184 | the zero time never goes back, and moves exactly when some call is granted |
| ConcurrentConsume.ExchangeFailsIffOvertaken | include/admissionspec/folly/TokenBucket.hpp:233-241 | a pending exchange that does not fail spuriously fails exactly when another thread was granted tokens since its load: the loop is lock-free and no returning value is mistaken |
| AdmissionTypes.OutcomeAppend | include/admissionspec/JsonVisitor.hpp:353-357 | a visit in two parts decides as one: the second part is seen, from the state the first left, only if the first dropped nothing |
| AdmissionTypes.OutcomeOfDelivered | include/admissionspec/JsonVisitor.hpp:353-357 | a decision depends only on the events up to and including the first that is dropped |
| AdmissionTypes.DeliveredUpToDrop | include/admissionspec/JsonVisitor.hpp:353-357 | a check sees a prefix of the events: all of them unless it drops one, and that one last |
| AdmissionTypes.CostForIsFirstFit | include/admissionspec/Types.hpp:339-349 | a payload costs what the first tier wide enough for it costs, or the last tier when none is |
| AdmissionTypes.CostForIsMonotone | include/admissionspec/Types.hpp:339-349 | with non-decreasing tier costs a larger payload never costs less |
| ConnectionLimiter.ConnectionLimiter.constructor | include/admissionspec/ConnectionLimiter.hpp:40-58 | a limiter starts with an empty table |
| ConnectionLimiter.ConnectionLimiter.AdmitPre | include/admissionspec/ConnectionLimiter.hpp:75-83 | a payload above the byte cap gets the oversize drop with its size cost as penalty; any other is admitted at its size cost exactly when its bucket has that much, and otherwise dropped at no cost |
| ConnectionLimiter.ConnectionLimiter.Admitted | include/admissionspec/ConnectionLimiter.hpp:97-108 | the visitor's drop stays as it is and is penalised; its admission stands exactly when the bucket has its cost |
| ConnectionLimiter.ConnectionLimiter.Charge | include/admissionspec/ConnectionLimiter.hpp:174-185 | admits with the debited cost exactly when the bucket affords it, and otherwise drops and debits nothing |
| ConnectionLimiter.ConnectionLimiter.Penalize | include/admissionspec/ConnectionLimiter.hpp:191-202 | a drop stays a drop; a positive penalty is debited when affordable, and without one the table is not touched |
| ConnectionLimiter.ConnectionLimiter.Debit | include/admissionspec/ConnectionLimiter.hpp:174-202 | a debit changes only the zero time of that connection's entry, as one all-or-nothing consume does |
| ConnectionLimiter.ConnectionLimiter.TouchBucket | include/admissionspec/ConnectionLimiter.hpp:152-172 | makes room by evicting one of the oldest only for a new connection in a full table, stamps the connection, and alters no other surviving entry |
| ConnectionLimiter.ConnectionLimiter.EvictOldest | include/admissionspec/ConnectionLimiter.hpp:204-219 | the scan removes one entry that no other is older than, and nothing from an empty table |
| ConnectionLimiter.ConnectionLimiter.OnDisconnect | include/admissionspec/ConnectionLimiter.hpp:115-120 | forgets exactly that connection |
| ConnectionLimiter.ConnectionLimiter.SweepIdle | include/admissionspec/ConnectionLimiter.hpp:128-135 | keeps exactly the entries seen less than the idle time ago, unchanged |
| LimiterRuns.PayloadsAnswered | include/admissionspec/AdmissionSpec.hpp:192-203 | over every run, a payload above the byte cap is dropped with its size cost, and any other is admitted at that cost exactly when its connection's bucket then has it: no admitted payload is above the cap |
| LimiterRuns.VisitsAnswered | include/admissionspec/ConnectionLimiter.hpp:97-108 | over every run, what a visitor dropped stays dropped as it was, and what it admitted stands exactly when the bucket then has its cost |
| LimiterRuns.CapHolds | include/admissionspec/ConnectionLimiter.hpp:153-172 | over every run the table holds at most max(1, maxConnections) entries |
| LimiterRuns.SweepingIsUnobservable | include/admissionspec/ConnectionLimiter.hpp:129-135 | with a clock that never goes back, sweeps that wait a full refill and a table that never fills, sweeps anywhere in any run change no decision |
| LimiterRuns.EarlySweepIsSeen | include/admissionspec/ConnectionLimiter.hpp:129-135 | a sweep that waits less than a full refill changes a decision of some run |
| LimiterRuns.UnobservableIffFullRefill | include/admissionspec/ConnectionLimiter.hpp:122-135 | sweeping is unobservable if and only if it waits for at least capacity / refill rate |
| LimiterLru.RecencyElements | include/admissionspec/ConnectionLimiter.hpp:147-172 | the recency list of a run names exactly the touched connections, once each |
| LimiterLru.RecencyIsByLastTouch | include/admissionspec/ConnectionLimiter.hpp:147-172 | the recency list is ordered by last touch, most recent first |
| LimiterLru.TracksMostRecent | include/admissionspec/ConnectionLimiter.hpp:153-172 | with strictly increasing times and no sweeps or disconnects, the tracked connections are exactly the maxConnections most recently touched ones |
| LimiterLru.TracksInOrder | include/admissionspec/ConnectionLimiter.hpp:205-219 | their last-seen times are in that same order |
| LimiterBudget.DebitsAreBounded | include/admissionspec/ConnectionLimiter.hpp:175-202 | over any window of any run, all charges and penalties debited from a connection total at most one capacity per bucket it had plus the window's refill |
| LimiterBudget.AdmittedPayloadsPay | include/admissionspec/AdmissionSpec.hpp:192-203 | with a ramp of non-decreasing costs, the admitted payloads of at least a given size have paid at least its cost each |
| LimiterBudget.PayloadsAreBounded | include/admissionspec/ConnectionLimiter.hpp:75-83 | their number times that cost is at most one capacity per bucket plus the window's refill |
| Varint.VarintRoundTrip | include/admissionspec/ProtobufVisitor.hpp:102-118 | decoding inverts base-128 encoding, whatever follows |
| Varint.VarintPrefix | include/admissionspec/ProtobufVisitor.hpp:105-118 | every strict prefix of a varint is reported as cut short |
| Varint.VarintLength | include/admissionspec/ProtobufVisitor.hpp:102-118 | a value below 2^64 takes at most ten bytes |
| Varint.ReadVarint | include/admissionspec/ProtobufVisitor.hpp:102-118 | the reading loop fails exactly on a cut varint, and otherwise advances past it and yields its value modulo 2^64 |
| Varint.LittleEndianRoundTrip | include/admissionspec/ProtobufVisitor.hpp:173-183 | fixed-width words read back |
| Varint.LittleEndianConcat | include/admissionspec/ProtobufVisitor.hpp:173-183 | bytes further on weigh more: a word followed by another reads as the first plus the second shifted past it |
| Varint.TwosComplement | include/admissionspec/ProtobufVisitor.hpp:182-195 | the signed reading of a word lies in the signed range and differs from it by a multiple of the word size |
| Varint.SignedReadsBack | include/admissionspec/ProtobufVisitor.hpp:182-195 | every signed number is read back from its word |
| ProtobufVisitor.VisitProtobuf | include/admissionspec/ProtobufVisitor.hpp:151-239 | the scanning loop decides as the check on the recursive scan of the bytes: its first drop, else an admission or the invalid-payload drop |
| ProtobufVisitor.VisitField | include/admissionspec/ProtobufVisitor.hpp:157-167 | a tag and what follows it are read as one item, and the position advances by its bytes |
| ProtobufVisitor.VisitBody | include/admissionspec/ProtobufVisitor.hpp:185-236 | the wire type alone decides what is read after a tag; an unknown one takes no bytes and reports nothing |
| ProtobufVisitor.VisitScalar | include/admissionspec/ProtobufVisitor.hpp:188-199 | a varint is reported as a signed 64-bit value |
| ProtobufVisitor.VisitFixed | include/admissionspec/ProtobufVisitor.hpp:173-183 | a fixed word is malformed when its bytes run out, and is otherwise zero-extended |
| ProtobufVisitor.VisitSpan | include/admissionspec/ProtobufVisitor.hpp:215-234 | a span is malformed when its length is cut or runs past the end, and otherwise covers exactly its bytes |
| ProtobufVisitor.FieldReadsBack | include/admissionspec/ProtobufVisitor.hpp:164-235 | an encoded field in front of any bytes is read back as that field, taking exactly its own bytes |
| ProtobufVisitor.MessageRoundTrip | include/admissionspec/ProtobufVisitor.hpp:151-239 | visiting an encoded message shows the check exactly its fields in order, bodies spanning exactly their bytes, and stops at the first drop with that decision |
| ProtobufVisitor.MessageReported | include/admissionspec/ProtobufVisitor.hpp:165-231 | field by field: every event has its field's number and kind, a varint or 64-bit word as the int64 congruent to it, a 32-bit word as it is, a body as its bytes, and no key, size or depth |
| ProtobufVisitor.SignedFieldReadsBack | include/admissionspec/ProtobufVisitor.hpp:173-199 | any int64, sent as a varint or as a fixed word, is reported as that number under its field |
| ProtobufVisitor.TruncatedMessage | include/admissionspec/ProtobufVisitor.hpp:157-221 | a prefix of a message is reported as the fields wholly inside it, and is well formed exactly when it ends on a field boundary |
| ProtobufVisitor.VisitPackedVarint | include/admissionspec/ProtobufVisitor.hpp:260-286 | the packed loop decides as the check on the element-wise reading of the body |
| ProtobufVisitor.VisitPackedFixed | include/admissionspec/ProtobufVisitor.hpp:304-328 | whole elements only, sign-extended, in order, up to the first drop |
| ProtobufVisitor.PackedEqualsUnpacked | include/admissionspec/ProtobufVisitor.hpp:241-286 | a packed varint field gives every check the stream and decision of the unpacked repeated field |
| ProtobufVisitor.PackedFixed64EqualsUnpacked | include/admissionspec/ProtobufVisitor.hpp:288-328 | so does a packed 64-bit field, trailing bytes ignored |
| ProtobufVisitor.PackedFixed32EqualsUnpackedIff | include/admissionspec/ProtobufVisitor.hpp:173-183 | a packed 32-bit field looks like the unpacked one exactly when no delivered element has its sign bit set, and is then decided alike |
| ProtobufVisitor.SignedPackedReadsBack | include/admissionspec/ProtobufVisitor.hpp:260-286 | packed int64s are reported in order as the numbers they are |
| ProtobufVisitor.SignedFixedReadsBack | include/admissionspec/ProtobufVisitor.hpp:304-328 | so are packed fixed-width int32s and int64s, whatever incomplete bytes follow |
| JsonVisitor.JsonVisitor.constructor | include/admissionspec/JsonVisitor.hpp:116-118 | a handler starts outside every container with no pending key |
| JsonVisitor.JsonVisitor.Emit | include/admissionspec/JsonVisitor.hpp:351-357 | the check sees the event in its latest state, and only its drop stops the parse |
| JsonVisitor.JsonVisitor.EmitLeaf | include/admissionspec/JsonVisitor.hpp:359-368 | the check sees the given kind, size and value with the pending key and the enclosing-container count, and the key is consumed |
| JsonVisitor.JsonVisitor.BeginContainer | include/admissionspec/JsonVisitor.hpp:370-377 | the check sees the pending key at the current depth; the key goes onto the stack and the depth goes up |
| JsonVisitor.JsonVisitor.EndContainer | include/admissionspec/JsonVisitor.hpp:379-388 | the check sees the stacked key and the depth that the container began with, and both are restored |
| JsonVisitor.JsonVisitor.On | include/admissionspec/JsonVisitor.hpp:406-544 | every callback moves the handler's state as stated and stops the parse exactly on a drop |
| JsonVisitor.VisitJson | include/admissionspec/JsonVisitor.hpp:598-632 | a drop wins over a parse error; without a drop a parse error is the invalid-payload drop, and otherwise the check's last decision stands |
| JsonVisitor.DocProduces | include/admissionspec/JsonVisitor.hpp:353-544 | any value, at any nesting, emits its recursive reading, consumes the pending key and leaves one stacked key per open container |
| JsonVisitor.DocumentVisit | include/admissionspec/JsonVisitor.hpp:598-632 | for every document and every cutting of its texts the events are its recursive reading, and a check's verdict is the fold of that reading up to its first drop |
| JsonVisitor.PartialVisit | include/admissionspec/JsonVisitor.hpp:598-632 | a parse that fails part way has shown a prefix of the document's reading |
| JsonEvents.EveryValueReported | include/admissionspec/JsonVisitor.hpp:351-544 | field by field, for every value at any depth: its events carry its own name (the whole key, or nothing for the root and for elements), the number of containers around it, its kind and its value; pieces carry the length so far; Begin and End agree in key and depth, End has the number of children, and everything between them is deeper |
| JsonEvents.EveryMemberReported | include/admissionspec/JsonVisitor.hpp:467-487 | every member's key is reported, unnamed and in its pieces, directly before the events of its value, which carry the whole key |
| OverridePlan.BuildOverridePlan | include/rpcspec/RpcSpec.hpp:43-72 | a field runs exactly when its key is new, and its slot is filled by the key's last field |
| OverridePlan.OneSlotPerKey | include/rpcspec/RpcSpec.hpp:43-72 | each key is visited once |
| OverridePlan.ExtendedField | include/rpcspec/RpcSpec.hpp:289-301 | in an extended spec a key is decided by the extra spec's last definition if it has one, else by the base's last |
| OverridePlan.ExtendedWalk | include/rpcspec/Typed.hpp:892-906 | the walk over an extended spec is the base's sequence with redefined keys replaced in their slots, then the extra's sequence restricted to new keys |
| JsonDocument.ChildAfterSet | include/rpcspec/backends/BoostJson.hpp:330-374 | a write through a child's view is read back under its key and nowhere else; a view of an absent child writes nothing |
| DocumentViews.ReachedFromRoot | include/rpcspec/backends/BoostJson.hpp:330-374 | whatever children and elements a view is reached by, from a mutable root it is writable exactly when it is present and then writes where it reads; from a const root no view is ever writable |
| DocumentViews.ChildViewSees | include/rpcspec/backends/BoostJson.hpp:330-348 | the view of a child reads that child of what its parent reads, under its key, and is absent when there is none |
| DocumentViews.ElementViewSees | include/rpcspec/backends/BoostJson.hpp:359-374 | the view of an element reads that element, under its array's key, and is there exactly below the array's size, which is none outside an array |
| DocumentViews.ChildWritten | include/rpcspec/backends/BoostJson.hpp:330-374 | a write through a child's view replaces that member in what the parent's view reads and nothing else in the document |
| Requests.Request.SetSeen | include/rpcspec/backends/BoostJson.hpp:429-474 | through a mutable view that is present, a write (which needs the write handle) changes what the view reads and nothing else; every modifier below gets there by its own test |
| Requests.Request.ModifyClamp | include/rpcspec/Validators.hpp:461-466 | writes only to a number of the clamp's own type, so never through an absent view |
| Requests.Request.ModifyClampAs | include/rpcspec/Validators.hpp:516-557 | writes only to a present integer |
| Requests.Request.ModifyNullAs | include/rpcspec/Validators.hpp:2068-2073 | writes only to a null, which an absent field is not |
| Requests.Request.ModifyToNumber | include/rpcspec/Validators.hpp:1109-1132 | writes only to a string that holds a uint32 and fails on any other string |
| Requests.Request.ModifyLexical | include/rpcspec/Validators.hpp:1180-1189 | writes only to a string that reads as a uint32, with or without a plus sign, and fails on any other string |
| Requests.Request.ModifyToLower | include/rpcspec/Validators.hpp:1611-1621 | writes only to a string |
| Requests.Request.ValidateOracle | include/rpcspec/handlers/get_aggregate_price/Spec.hpp:45-63 | an oracle's id is rewritten through the view of that child before its account is looked at, and stays rewritten when the account is bad |
| Requests.Request.ValidateOracles | include/rpcspec/handlers/get_aggregate_price/Spec.hpp:35-66 | the loop rewrites ids in place up to the first bad element, leaves the rest alone and reports that element's error |
| Requests.Request.ModifySection | include/rpcspec/Section.hpp:56-73 | sub-fields rewrite their children in place one after another up to the first failure; an absent field passes, any other value than an object fails |
| Requests.Request.ModifyIfType | include/rpcspec/IfType.hpp:71-79 | the sub-items run on a value of the type and on no other |
| Requests.Request.ModifyConditional | include/rpcspec/ServerConditional.hpp:162-185 | on its own server the modifiers among the inner items run in order up to the first failure; elsewhere nothing happens |
| Requests.Request.Modify | include/rpcspec/WithCustomError.hpp:97-105 | a custom error replaces the status of what it wraps and keeps what was written |
| Requests.Request.RunProcessors | include/rpcspec/FieldSpec.hpp:81-92 | requirements and modifiers run in declaration order on the current value, up to the first failure, and touch nothing but what the view sees |
| SpecParse.ParseInto | include/rpcspec/Typed.hpp:167-191 | guards come before everything, then the items rewrite the selected child in place, then the converter or the last default fills the member; a selector reads its keys and writes nothing |
| SpecParse.Parse | include/rpcspec/RpcSpec.hpp:93-124 | the walk over the override plan runs a prefix of the effective sequence of fields, ending right after the first that fails and all of it otherwise; the rewritten document, the Input and the failure are those of parsing the winning fields in order |
| SpecParse.ParseConcat | include/rpcspec/Typed.hpp:788-804 | parsing fields in two runs continues from the document and Input the first left, unless it failed |
| ModifierLaws.NumberKinds | include/rpcspec/backends/BoostJson.hpp:151-203 | the integer tests and reads depend on the number a document spells, not on the kind the parser gave it |
| ModifierLaws.ClampLaw | include/rpcspec/Validators.hpp:461-557 | every clamp leaves other types alone and brings a number to the nearest point of its range, keeping one that is in it |
| ModifierLaws.DigitsIff | include/rpcspec/Validators.hpp:1118-1123 | a text of digits reads as n exactly when, without its leading zeros, it is the decimal form of n |
| ModifierLaws.NumberLaw | include/rpcspec/Validators.hpp:1109-1189 | for every string: the lexical reading gives n exactly when the text, behind an optional plus sign and leading zeros, is the decimal form of the uint32 n; the other reading takes no plus sign, and a minus sign on zero only |
| ModifierLaws.NumberModifiers | include/rpcspec/Validators.hpp:1109-1189 | the two number modifiers store exactly the number that a text spells, signed or unsigned, fail on any other text without writing, and leave every other value |
| ModifierLaws.LowerLaw | include/rpcspec/Validators.hpp:1611-1621 | each upper-case letter becomes the same letter in lower case, and nothing else changes |
| ItemLaws.CustomErrorLaw | include/rpcspec/WithCustomError.hpp:78-105 | a custom error changes nothing but the status of a failure |
| ItemLaws.ConditionalLaw | include/rpcspec/ServerConditional.hpp:95-185 | on its own server a conditional runs the items inside it as they would run alone, elsewhere nothing |
| ItemLaws.MixedConditional | include/rpcspec/FieldSpec.hpp:27-43 | a conditional that holds any requirement never writes: the modifiers beside the requirement are not run |
| ItemLaws.TypeBranchLaw | include/rpcspec/IfType.hpp:71-79 | a type branch runs its items on a value of its type and passes any other |
| SpecFrame.RewriteShape | include/rpcspec/Validators.hpp:461-557 | no built-in modifier adds or removes a key or an element at any depth |
| SpecFrame.ProcessorsShape | include/rpcspec/FieldSpec.hpp:81-92 | running any items, however nested, leaves a field present or absent as it was, with its shape |
| SpecFrame.FieldFrame | include/rpcspec/Typed.hpp:423-450 | a field writes at most the child it selected, and only if it has a modifier |
| SpecFrame.ParseFrame | include/rpcspec/Typed.hpp:788-804 | parsing keeps every key and array length at every depth, and every child that no reached field writes is untouched: fields after a failure and fields without a modifier write nothing |
| SpecParse.LastDefaultStays | include/rpcspec/Typed.hpp:227-239 | of several defaults on an absent field the last one counts |
| SpecInput.SpellingLaw | include/rpcspec/Typed.hpp:433-450 | a field given under its second spelling alone is parsed as a field of that key, without it as a field of its own key, and under both it is refused |
| SpecInput.OwnSpelling | include/rpcspec/Typed.hpp:167-191 | a field of one spelling reads and rewrites the child under its key, and its member gets that child's conversion |
| SpecInput.GuardLaw | include/rpcspec/FieldSpec.hpp:110-135 | a field with a guard at any place does nothing while the guard is shut and otherwise what it does without it: `ifAbsent` is shut while its key is present, `never` always, and a guard for one server only there |
| SpecInput.InputFrame | include/rpcspec/Typed.hpp:788-804 | fields bound to other members leave a member as it was |
| SpecInput.InputOfDocument | include/rpcspec/Typed.hpp:167-191 | after a successful parse a member holds the conversion of its field's value in the final, rewritten document, under the second spelling if the request uses it and the own key otherwise; the field's last default when it is absent, and nothing when a guard skipped it |
| SpecErasure.EraseApply | include/rpcspec/WithCustomError.hpp:94-105 | removing custom errors at any nesting keeps an item's acceptance and the value it leaves, also when it fails |
| SpecErasure.EraseKeepsKind | include/rpcspec/ServerConditional.hpp:12-16 | erasing keeps whether an item is a requirement or a modifier |
| SpecErasure.SkipsSurvive | include/rpcspec/FieldSpec.hpp:110-135 | erasing wrappers only brings guards to light: a field that is skipped is still skipped |
| SpecErasure.FieldErasesIff | include/rpcspec/Typed.hpp:167-191 | for a member not filled yet, erasing a field's wrappers keeps its outcome exactly when the field fills no member, both spellings are given, its guards decide alike, or it is absent, has no default and its items do not complain |
| SpecErasure.ErasesIff | include/rpcspec/Typed.hpp:788-804 | a whole spec and its erased form agree after every number of fields exactly when that condition holds of every field that is reached, at the document found there |
| SpecErasure.WrappersErase | include/rpcspec/WithCustomError.hpp:78-105 | with no guard below a wrapper, erasing every custom error of a spec keeps acceptance, the rewritten document (also at the failing point) and the Input for every document; only statuses change |
| SpecErasure.HiddenGuardShows | include/rpcspec/FieldSpec.hpp:110-135 | with a guard below a custom error the condition can fail: the erased field is skipped where the wrapped one fails |
| SpecIdempotence.RewriteSettles | include/rpcspec/Validators.hpp:516-557 | every built-in modifier with an ordered range fixes what it produces |
| SpecIdempotence.OraclesSettle | include/rpcspec/handlers/get_aggregate_price/Spec.hpp:35-66 | so does the oracle validator that rewrites nested ids |
| SpecIdempotence.SectionSettles | include/rpcspec/Section.hpp:56-73 | a section of settling sub-fields with different keys settles |
| SpecIdempotence.IfTypeSettles | include/rpcspec/IfType.hpp:71-79 | a type branch of a settling chain settles, even when the chain changes the type |
| SpecIdempotence.SettlesConcat | include/rpcspec/FieldSpec.hpp:81-92 | a chain settles when its second half does and its first half fixes what the second leaves |
| SpecIdempotence.ReparseIsStable | include/rpcspec/Typed.hpp:167-191 | if a spec of settling fields, and of selectors whose keys no other field writes, accepts a document, it accepts the rewritten one, leaves it unchanged and builds the same Input |
| SpecIdempotence.OwnKeysAreApart | include/rpcspec/RpcSpec.hpp:43-72 | without second spellings the override walk itself keeps the fields' keys apart |
| SpecChains.ClampedSettles | include/rpcspec/handlers/account_tx/Spec.hpp:215-221 | minimum then clamp settles exactly when the range reaches the minimum |
| SpecChains.LimitRun | include/rpcspec/handlers/account_offers/Spec.hpp:23-39 | what a limit becomes on each server: null as the default and no clamping on xrpld, checked and clamped on Clio |
| SpecChains.LimitSettles | include/rpcspec/handlers/account_offers/Spec.hpp:23-39 | the limit chain settles on xrpld always, on Clio exactly when the range reaches 1 |
| SpecChains.LedgerBoundSettles | include/rpcspec/handlers/account_tx/Spec.hpp:212-213 | the ledger bound chain settles |
| SpecChains.ThresholdRun | include/rpcspec/handlers/get_aggregate_price/Spec.hpp:270-276 | a threshold that is a number stays, on xrpld a text that spells a uint32 becomes it, and anything else is refused |
| SpecChains.TrimRun | include/rpcspec/handlers/get_aggregate_price/Spec.hpp:262-269 | a trim is accepted exactly when it is a threshold within its range, bounds included |
| SpecChains.ThresholdSettles | include/rpcspec/handlers/get_aggregate_price/Spec.hpp:262-276 | on either server the time threshold chain settles, strings turned into numbers included, and so does the trim chain with its range |
| SpecChains.TxTypeSettles | include/rpcspec/handlers/account_tx/Spec.hpp:234 | lower-casing then any requirement settles |
| SpecChains.OraclesFieldSettles | include/rpcspec/handlers/get_aggregate_price/Spec.hpp:238-247 | on either server the oracles chain settles, Clio's rewriting of nested ids included |
| SpecChains.OracleSectionSettles | include/rpcspec/handlers/ledger_entry/Spec.hpp:1114-1125 | the oracle section, with its nested number rewriting, settles |
| ShippedSpecs.SpecReparses | include/rpcspec/Typed.hpp:788-804 | any spec whose fields settle and leave the ledger keys alone accepts again what it accepted, unchanged and with the same Input |
| ShippedSpecs.AccountOffersReparses | include/rpcspec/handlers/account_offers/Spec.hpp:20-42 | so does account_offers, on either server and with any converters |
| ShippedSpecs.AccountTxReparses | include/rpcspec/handlers/account_tx/Spec.hpp:209-236 | so does the first version of account_tx |
| ShippedSpecs.AccountTxV2Reparses | include/rpcspec/handlers/account_tx/Spec.hpp:241-244 | so does the second version, which redefines two of its fields |
| ShippedSpecs.AggregatePriceReparses | include/rpcspec/handlers/get_aggregate_price/Spec.hpp:236-276 | so does get_aggregate_price, with the oracle ids that Clio rewrites and the numbers that xrpld reads from text |
| Oracles.OracleConverts | include/rpcspec/handlers/get_aggregate_price/Spec.hpp:132-143 | a validated oracle converts without a rejection, to the document id the request spelled and the account it names, which is not account zero |
| Oracles.OraclesConvert | include/rpcspec/handlers/get_aggregate_price/Spec.hpp:97-147 | so does every element of a validated array |
| Xrpl.AccountLaw | include/rpcspec/detail/XrplParse.hpp:36-82 | the texts that name an account: a hex public key is its account, of the others only alphanumeric ones, a base58 public key before a base58 address |
| ModifierLaws.AlphanumericLaw | include/rpcspec/detail/XrplParse.hpp:36-58 | a base58 decoder is asked only about texts of figures and unaccented letters |
| Xrpl.CStrWhole | include/rpcspec/detail/XrplParse.hpp:113-119 | reading through a C string pointer loses nothing of a text without NUL |
| ElementLoops.CheckEach | include/rpcspec/handlers/subscribe/Spec.hpp:48-64 | a validator's loop returns the first element's failure, and success exactly when every element passes |
| ElementLoops.ConvertEach | include/rpcspec/Converters.hpp:383-397 | a converter's loop yields every element's value in order, or is abandoned when one faults |
| Subscribe.StreamConverts | include/rpcspec/handlers/subscribe/Spec.hpp:160-192 | an accepted stream converts to the type of its name, the deprecated alias to what it stands for, and Clio gets none it does not serve |
| Subscribe.StreamAccepted | include/rpcspec/handlers/subscribe/Spec.hpp:160-192 | a stream is accepted exactly when it names one that the server serves; the deprecated name only on xrpld |
| Subscribe.BookSays | include/rpcspec/handlers/subscribe/Spec.hpp:495-545 | the converter reads a book to exactly what the request says: `taker_pays` is the side paid, `taker_gets` the side got, each with its own currency and issuer or the XRP account, the taker and domain given, and flags off unless given as true |
| Subscribe.BookAccepted | include/rpcspec/handlers/subscribe/Spec.hpp:204-390 | a book is accepted exactly when it converts without a fault into two different proper sides with a valid taker and a domain that is hex to its last character |
| Subscribe.AcceptedBooks | include/rpcspec/handlers/subscribe/Spec.hpp:204-390 | a book is accepted exactly when what it says is a proper market and its domain is hex to its last character |
| Subscribe.SubscribeConverts | include/rpcspec/handlers/subscribe/Spec.hpp:563-572 | whatever the items of streams, accounts, books and issuances let through converts without a throw or a wrongly typed read, element by element to what the request says; every book pairs XRP with the XRP account and any other currency with another account that is not account one, and its sides differ |
| Subscribe.SubscribeAccepts | include/rpcspec/handlers/subscribe/Spec.hpp:563-575 | exactly these arrays are let through: served streams, at least one account or issuance that reads as one, and proper markets with whole domains |
| LedgerEntry.IssueAccepted | include/rpcspec/Validators.hpp:1042-1083 | a currency and issuer pair is accepted exactly when it converts and XRP is given no issuer |
| LedgerEntry.FormReads | include/rpcspec/handlers/ledger_entry/Spec.hpp:82-113 | a value that passed a sub-field's validator can be read as every kind of value that validator serves |
| LedgerEntry.SectionPasses | include/rpcspec/handlers/ledger_entry/Spec.hpp:1000-1003 | after a section passed, every sub-field has the form its items ask for, those rewritten included |
| LedgerEntry.ReadsAreCovered | include/rpcspec/handlers/ledger_entry/Spec.hpp:137-779 | for each of the 19 locators, everything its converter reads is validated by its items: under the same key, in a form readable as that kind, and required exactly when the converter does not look first |
| LedgerEntry.EntryConverts | include/rpcspec/handlers/ledger_entry/Spec.hpp:137-163 | what a locator's items let through, any converter whose reads they cover unpacks without a fault, as a hash exactly when the request gave a string |
| LedgerEntry.LocatorsConvert | include/rpcspec/handlers/ledger_entry/Spec.hpp:995-1257 | so no located object that the shipped spec lets through makes its locator's own converter fault |
| LocatorLaws.LocatorSays | include/rpcspec/handlers/ledger_entry/Spec.hpp:137-779 | a located object that was let through converts to what it says: a string to the hash it spells, an object to an entry each of whose members is the value under the member's own key, and which lacks a member exactly when the object does |
| EntryAcceptance.FormAccepted | include/rpcspec/Validators.hpp:854-1330 | each form's validator accepts exactly the values written in that form, two different accounts for a trust line and non-empty credentials up to the limit among them |
| EntryAcceptance.LocatorAccepts | include/rpcspec/handlers/ledger_entry/Spec.hpp:995-1257 | a located object is let through exactly if it is a hash (which a bridge cannot be) or an object in which each sub-field has its form and is there if it is required |
| TotalSpecs.TotalSpec | include/rpcspec/Typed.hpp:788-804 | a spec whose converters take whatever their items let through is parsed without an exception, whatever the request |
| TotalSpecs.SubscribeNeverThrows | include/rpcspec/handlers/subscribe/Spec.hpp:563-575 | no subscribe request makes a converter throw or read an absent or wrongly typed value |
| TotalSpecs.LedgerEntryNeverThrows | include/rpcspec/handlers/ledger_entry/Spec.hpp:988-1265 | no ledger_entry request does, on either server |
| LedgerSelection.ServersAgree | include/rpcspec/Ledger.hpp:262-323 | what Clio accepts xrpld accepts with the same specifier exactly when there is no legacy key and not both a hash and an index |
| LedgerSelection.DefaultLedgers | include/rpcspec/Ledger.hpp:35-123 | a request that names no ledger is answered as one that asks Clio for "validated" and xrpld for "current" |
| LedgerSelection.LegacyLaw | include/rpcspec/Ledger.hpp:262-323 | the legacy key selects what `ledger_hash` would of a text of 64 characters and what `ledger_index` would of anything else |
| LedgerSelection.SameLedgerIff | include/rpcspec/Ledger.hpp:116-123 | with each server's default put in, both answer from the same ledger exactly when Clio accepts the request and it has one of hash and index and no legacy key, or the legacy key alone asking for the validated ledger |
| LedgerSelection.XrpldAcceptsMore | include/rpcspec/Ledger.hpp:219-253 | with one key, what only xrpld accepts is a string index naming the current or closed ledger, an empty one, or a number with a plus sign |
| LedgerSelection.IndexRoundTrip | include/rpcspec/Ledger.hpp:142-253 | every printed sequence and shortcut parses back on xrpld; Clio reads the sequences and the validated shortcut only |
| LedgerSelection.MarkersAgree | include/rpcspec/Converters.hpp:502-523 | the validator and Clio's converter accept the same markers; xrpld's converter accepts all of them, passes on the same text and reads it as the same index and hint, and can differ only on a second comma or a plus sign |
| LedgerSelection.MarkerRoundTrip | include/rpcspec/Validators.hpp:1880-1907 | every (hash, uint64) pair prints to a marker that the validator and both converters accept and both servers read back |
| LedgerSelection.DecimalReadsBack | include/rpcspec/Ledger.hpp:162-166 | reading a printed number gives it back |

## Left out

- Floating point: tokens and times are exact reals, so rounding, infinities and NaN are not modelled.
- The real clock, `sleep_for` in `consumeWithBorrowAndWait` and cache-line layout.
- A bucket whose refill rate or capacity is not positive: only its start is modelled, since the bucket's own assertions exclude the rest.
- `consumeOrDrain`, borrowing, `reset` and `setCapacity` under concurrency: the concurrent model covers the all-or-nothing `consume` the limiter uses.
- The limiter's mutex: its operations are modelled one at a time, as the mutex makes them.
- `makeChecker`, tunable resolution, `Resolver.hpp` and `PassthroughVisitor.hpp`: a check is any stateful function here.
- The internals of the JSON parser, its size limits, and comments: documents carry none, so the two comment callbacks are not modelled.
- Varints of more than ten bytes, where the source's shift is undefined (the model drops what is shifted past the word), and lengths so large that position plus length wraps.
- Big-endian hosts.
- The values of the re-parsing specs' converters and the requirements behind `tx_type` and `delegate`: any deterministic ones will do, so they are parameters.
- The names and messages of faults: a throwing conversion is one outcome, and the exception's own text is not kept.
- Warnings: `check`, `runChecks` and the deprecated marker produce no result here; checks only appear as items that neither verify nor modify.
- `consteval` construction, member counting, version selection, type erasure, the schema dump and the wire form of warnings.
- The handlers not named above, which repeat the same chains; `AccountIdArrayValidator`, `Hex256ArrayValidator` and `unsubscribe` repeat loops that are modelled.
- xrpld's branch of the oracle converter, which defers its errors to the handler.
- Base58, hex, currency, issuer and public-key decoding: libxrpl is not part of this model.
- Error codes are distinct numbers and messages are kept only where they tell two failures apart.
- EntryAcceptance.LocatorAccepts: says which objects are refused, not with which of the locators' error statuses, which are data of the spec.
- Subscribe.SubscribeAccepts: likewise says nothing of the error that a refused element gets.
