# Lumera: verified models

Dafny models of the parts of the Lumera chain where correctness is hardest to see, and proofs about them.
`dafny verify dfyconfig.toml` checks everything.

- **Wire format** (`Bytes`, `Varint`, `Wire`, `Message`, `Writer`, `UnknownFields`, `PolicyCodec`, `ClaimCodec`).
  The generated protobuf code: sizes, backward writing into one buffer, the decoding loops with their 64-bit
  arithmetic, unknown fields with nested groups. A message is a list of records; a decoder is a fold over them.
  For every message: the bytes tag by tag, the round trip, and what one more known or unknown field does.
- **Broadcast dispatcher** (`Sums`, `Dispatcher`). The dedupe set, the bounded queue, callers and worker as
  a state machine over their atomic steps. Every interleaving is covered.
- **Claims** (`Claim`, `ClaimRuns`, `ClaimKeeper`). Genesis, claims, delayed claims, parameter updates, deposits
  and the burn, as a run over a ledger of events.
- **Registration policy** (`Lex`, `TraceKeys`, `RegistrationPolicy`, `PolicyKeeper`). The byte-keyed store refines
  an abstract policy; runs of governance messages and packets.
- **Rate limiter** (`RateLimiter`). Token buckets that are forgotten, against a limiter that never forgets.
- **Store plans** (`StoreUpgrades`) and the **EVM bring-up** (`BringUp`).
- **Action migration** (`ActionMigration`). Rewriting through secondary indexes, against a full scan.

State that the program changes in place is a class or an array here, and each method is proved against a
function of the old state. The lemmas are about those functions.

Where the code and its comments differ, the model follows the code:

- The dispatcher releases a hash on panic and on stop only for the batch in process. Batches still queued when
  the worker exits keep theirs (`DispatcherRuns.StuckAfterExit`; such runs are `PanicStrands` and `StopStrands`).
- The comment on the validation of base denomination entries says that delimiters cannot occur. That holds for
  the identifiers of hops; a base may hold a NUL, and such an entry is listed as another one
  (`RegistrationPolicy.NulBaseAccepted`), which removing what is listed need not undo
  (`RegistrationPolicy.StrayStays`). Removals are not validated and can take another entry
  (`RegistrationPolicy.RemovalAlias`). `RegistrationPolicy.SetPolicyRefines` says, for every store, exactly which
  accepted messages turn the listed entries into (old + added) - removed.
- The comment on the trace check says that it matches an allowed entry exactly. The base of a packet is not checked
  for NUL either: a packet that carries the first hop of an allowed entry in its base has the key of that entry and
  is handed on (`RegistrationPolicy.SomePacketSlips`, `PolicyRuns.SlippedIsRegistered`). And an entry that is listed
  but stored under another key holds its packets back (`RegistrationPolicy.SomePacketHeldBack`).
  `RegistrationPolicy.DelegatesExactly` says, for every store, that the decision is that of the listed policy in all
  other cases.
- The claim module account can receive coins, so a claim can be paid to the module itself; it then counts as
  a payment and a deposit.

## Model

| member | source | states |
|---|---|---|
| Varint.SovIsLength | x/erc20policy/types/tx.pb.go:691-693 | the bit-length formula for the size of a varint counts exactly the bytes that the encoding loop writes, for every number |
| Varint.EncodeVarint | x/erc20policy/types/tx.pb.go:594-604 | the loop fills the bytes just before the offset with the varint, returns where it starts, and touches no other byte |
| Varint.Examples | x/erc20policy/types/tx.pb.go:594-604 | concrete varints: seven bits a byte, the lowest first, the high bit on all but the last |
| Varint.ReadEncode | x/erc20policy/types/tx.pb.go:703-716 | every 64-bit word is read back from its varint, whatever follows it, with the right length |
| Varint.ReadLocal | x/erc20policy/types/tx.pb.go:703-716 | a varint that can be read is read the same whatever is appended |
| Varint.SignedRoundTrip | x/claim/types/params.pb.go:225-332 | every int64, negative ones included, survives the conversion to a word, writing, reading and the conversion back |
| Varint.ReadVarint | x/erc20policy/types/tx.pb.go:703-716 | the loop with a 64-bit accumulator that is shifted and or-ed computes the specified word and end, and reports overflow and missing input in the same cases |
| Varint.Unfinished | x/erc20policy/types/tx.pb.go:703-716 | a varint that ends neither within ten bytes nor within the input is refused |
| Wire.SkipField | x/erc20policy/types/tx.pb.go:1223-1300 | the skipper, with every index sum taken in wrapping 64-bit arithmetic, returns the specified end of a field or group, or its error; the sign checks catch each sum that wraps |
| Wire.ReadNext | x/erc20policy/types/tx.pb.go:703-730 | one turn of the field loop reads the tag and the field and moves to the next one, with all errors |
| Wire.ReadUnknown | x/erc20policy/types/tx.pb.go:790-803 | a field of another number is skipped, or refused when it does not end inside the message |
| Wire.ReadPayload | x/erc20policy/types/tx.pb.go:730-757 | a length-delimited field is read, and a negative, wrapping or overlong length is refused |
| Wire.ReadNumber | x/claim/types/params.pb.go:254-273 | a varint field is read as a 64-bit word |
| Wire.NextLocal | x/erc20policy/types/tx.pb.go:697-810 | what is read at a place does not depend on what follows, nor on where in the message it stands |
| Wire.ReadsBack | x/erc20policy/types/tx.pb.go:422-442 | every writable record is read back as itself with its exact length, whatever follows |
| Wire.BadTagRefused | x/erc20policy/types/tx.pb.go:717-730 | an end of group, field number zero and a known field of another wire type are refused |
| Wire.ShortPayloadRefused | x/erc20policy/types/tx.pb.go:736-757 | a payload announced longer than what follows is refused |
| Wire.BadSkipRefused | x/erc20policy/types/tx.pb.go:1223-1300 | wire types 6 and 7 and an end of group that closes nothing are not skipped but refused |
| Message.DecodeWritten | x/erc20policy/types/tx.pb.go:927-1172 | decoding the bytes of any list of records applies exactly those records, in order |
| Message.DecodeConcat | x/erc20policy/types/tx.pb.go:927-1172 | decoding is a homomorphism: a message followed by more bytes decodes as those bytes on top of the message |
| Message.DecodeAnywhere | x/erc20policy/types/tx.pb.go:927-1172 | a nested message decodes the same at every position; only the kind of an error may differ |
| Message.DecodeField | x/erc20policy/types/tx.pb.go:927-1172 | a field behind a message that decodes is applied on top of it |
| Message.DecodeRefuses | x/erc20policy/types/tx.pb.go:927-1172 | what cannot be read behind a message that decodes spoils the whole |
| UnknownFields.SkipsField | x/erc20policy/types/tx.pb.go:1223-1300 | the skipper walks over every well-formed field, groups nested to any depth included, to just after its last byte |
| UnknownFields.ReadsAsUnknown | x/erc20policy/types/tx.pb.go:790-803 | every well-formed field outside the schema is consumed whole as one unknown record |
| UnknownFields.UnknownFieldIsNeutral | x/erc20policy/types/tx.pb.go:1152-1165 | an unknown well-formed field put after or between parts of any message of any format leaves the outcome the same |
| Writer.PutBytes | x/erc20policy/types/tx.pb.go:424-441 | a string field is written back to front: bytes, length, tag, and nothing outside its place changes |
| Writer.PutRepeated | x/erc20policy/types/tx.pb.go:534-552 | a repeated string field is written from the last element to the first and stands in order |
| Writer.PutOptionalWord | x/claim/types/params.pb.go:166-187 | a number field is written when it is not zero |
| PolicyCodec.SizeHop | x/erc20policy/types/tx.pb.go:605-620 | the size is the number of bytes of the encoding |
| PolicyCodec.SizeTrace | x/erc20policy/types/tx.pb.go:622-639 | the size is the number of bytes of the encoding, nested hops included |
| PolicyCodec.SizePolicy | x/erc20policy/types/tx.pb.go:641-680 | the size is the number of bytes of the encoding, through all three levels |
| PolicyCodec.MarshalHop | x/erc20policy/types/tx.pb.go:422-442 | backward writing fills exactly the last `Size` bytes before the end with the encoding and leaves the rest of the buffer alone |
| PolicyCodec.MarshalTrace | x/erc20policy/types/tx.pb.go:459-486 | the same for a base denomination with nested hops |
| PolicyCodec.MarshalPolicy | x/erc20policy/types/tx.pb.go:503-569 | the same for the governance message with nested traces |
| PolicyCodec.Marshal | x/erc20policy/types/tx.pb.go:488-496 | a buffer of the computed size is filled down to its first byte |
| PolicyCodec.UnmarshalHop | x/erc20policy/types/tx.pb.go:697-810 | the loop computes the specified decoding of every byte string, errors included |
| PolicyCodec.UnmarshalTrace | x/erc20policy/types/tx.pb.go:811-926 | the same with nested hops |
| PolicyCodec.Unmarshal | x/erc20policy/types/tx.pb.go:927-1172 | the same for the governance message with nested traces |
| PolicyCodec.HopRoundTrip | x/erc20policy/types/tx.pb.go:697-810 | every hop is read back equal |
| PolicyCodec.TraceRoundTrip | x/erc20policy/types/tx.pb.go:811-926 | every base denomination with its hops is read back equal |
| PolicyCodec.PolicyRoundTrip | x/erc20policy/types/tx.pb.go:503-1172 | every governance message that fits a slice is read back equal, list orders and empty strings in lists included |
| PolicyCodec.ConcatMerges | x/erc20policy/types/tx.pb.go:927-1172 | two messages written one after the other decode as one: later scalars win, lists are joined |
| PolicyCodec.UnknownFieldIgnored | x/erc20policy/types/tx.pb.go:1152-1165 | a well-formed field of another number, anywhere between fields, is as good as absent |
| PolicyCodec.UnknownFieldIgnoredInside | x/erc20policy/types/tx.pb.go:790-803 | the same inside hops and inside base denominations with their traces |
| PolicyCodec.HopLayout | x/erc20policy/types/tx.pb.go:422-442 | the bytes of a hop: tag 0x0a with the port, then 0x12 with the channel, empty ones left out |
| PolicyCodec.TraceLayout | x/erc20policy/types/tx.pb.go:459-486 | tag 0x0a with the base, then one 0x12 for each hop, in order |
| PolicyCodec.PolicyLayout | x/erc20policy/types/tx.pb.go:503-569 | tags 0x0a and 0x12 with authority and mode, then one tag 0x1a, 0x22, 0x2a or 0x32 for each list element |
| PolicyCodec.HopField | x/erc20policy/types/tx.pb.go:726-789 | behind a hop that decodes, one more field 0x0a or 0x12 replaces its port or its channel |
| PolicyCodec.TraceField | x/erc20policy/types/tx.pb.go:840-905 | behind a base denomination that decodes, one more field 0x0a replaces its base and one more 0x12 appends its hop |
| PolicyCodec.PolicyField | x/erc20policy/types/tx.pb.go:956-1083 | behind a message that decodes, one more authority or mode replaces the old one, one more denomination is appended to its list |
| PolicyCodec.PolicyEntryField | x/erc20policy/types/tx.pb.go:1084-1151 | one more entry is appended to its list |
| ClaimCodec.SizeParams | x/claim/types/params.pb.go:201-217 | the size is the number of bytes of the encoding |
| ClaimCodec.MarshalParams | x/claim/types/params.pb.go:162-188 | backward writing fills exactly the place of the encoding |
| ClaimCodec.UnmarshalParams | x/claim/types/params.pb.go:225-332 | the loop computes the specified decoding, with the conversions to int64 and to bool |
| ClaimCodec.ParamsRoundTrip | x/claim/types/params.pb.go:162-332 | every parameter set is read back equal, negative end times included |
| ClaimCodec.ParamsLayout | x/claim/types/params.pb.go:162-188 | tags 0x08, 0x18 and 0x20 with flag, end time and limit, in this order, zeros left out |
| ClaimCodec.ParamsField | x/claim/types/params.pb.go:254-311 | behind parameters that decode, one more field replaces the value of its number |
| ClaimCodec.UnknownFieldIgnored | x/claim/types/params.pb.go:312-325 | a well-formed field of another number, 2 included, is as good as absent |
| ClaimCodec.SizeRecord | x/claim/types/claim_record.pb.go:234-264 | the size is the number of bytes of the encoding |
| ClaimCodec.MarshalRecord | x/claim/types/claim_record.pb.go:167-221 | backward writing fills exactly the place of the encoding, coins in order |
| ClaimCodec.UnmarshalRecord | x/claim/types/claim_record.pb.go:272-477 | the loop computes the specified decoding, with the truncation of the tier to 32 bits |
| ClaimCodec.RecordRoundTrip | x/claim/types/claim_record.pb.go:167-477 | every claim record is read back equal, for every coin codec that reads back what it writes |
| ClaimCodec.RecordLayout | x/claim/types/claim_record.pb.go:167-221 | tags 0x0a to 0x30 with the six fields in order, empty and zero ones left out, one tag for each coin |
| ClaimCodec.RecordField | x/claim/types/claim_record.pb.go:301-437 | behind a record that decodes, one more address replaces the old one and one more coin is appended |
| ClaimCodec.RecordWordField | x/claim/types/claim_record.pb.go:367-456 | behind a record that decodes, one more flag, time or tier replaces the old one; a tier is cut to 32 bits |
| ClaimCodec.UnknownRecordFieldIgnored | x/claim/types/claim_record.pb.go:457-470 | a well-formed field of another number is as good as absent |
| Dispatcher.FilterKeeps | app/evm_broadcast.go:145-164 | the filter keeps exactly the first occurrence of every hash that was not pending, in order |
| Dispatcher.FilterReserves | app/evm_broadcast.go:145-164 | afterwards the reserved hashes are the old ones and the submitted ones |
| Dispatcher.FilterTimes | app/evm_broadcast.go:145-164 | each kept transaction reserves one hash that nobody had; kept and deduplicated add up to submitted |
| Dispatcher.ReleaseUndoes | app/evm_broadcast.go:222-232 | releasing what was kept restores the dedupe set that was found |
| Dispatcher.Shared.Reserve | app/evm_broadcast.go:145-164 | the loop under the lock computes the specified filter |
| Dispatcher.Shared.TrySend | app/evm_broadcast.go:170-177 | a batch is appended exactly when the queue has room |
| Dispatcher.Shared.Enqueue | app/evm_broadcast.go:138-178 | an uninterrupted call: counts, queue and dedupe set in all cases; a full queue leaves the dedupe set as it was |
| Dispatcher.Shared.ReleasePending | app/evm_broadcast.go:222-232 | exactly the hashes of the batch are released |
| DispatcherRuns.InvStep | app/evm_broadcast.go:138-232 | every atomic step of callers, worker and stop keeps the invariant: a hash is reserved exactly when one caller, queued batch or worker holds it, once |
| DispatcherRuns.InvRun | app/evm_broadcast.go:138-232 | the invariant holds in every state of every interleaving |
| DispatcherRuns.RollbackReleasesOwn | app/evm_broadcast.go:170-177 | a rollback releases the hashes of its own caller and of nobody else |
| DispatcherRuns.NeverTwice | app/evm_broadcast.go:138-218 | no transaction is twice in a batch or in two hands: queued batches, the batch in process, batches of callers |
| DispatcherRuns.ReservedAtRest | app/evm_broadcast.go:182-232 | when calls have returned and nothing is processed, a hash is reserved if and only if a queued batch holds it |
| DispatcherRuns.NothingLeaks | app/evm_broadcast.go:182-232 | hence nothing is reserved once the queue is drained |
| DispatcherRuns.Accounting | app/evm_broadcast.go:261-296 | submitted = accepted + deduplicated + rejected + in flight, and accepted = completed + in process + queued, also after panics and stops; batches complete in the order sent |
| DispatcherRuns.HistoryGrows | app/evm_broadcast.go:182-218 | the history of sent and completed batches only grows at its end |
| DispatcherRuns.ExitIsFinal | app/evm_broadcast.go:182-218 | after the worker exits it stays so and the queue only grows |
| DispatcherRuns.StuckAfterExit | app/evm_broadcast.go:182-218 | after the worker exits, by panic or stop, queued hashes stay reserved in every later state and each resubmission is dropped as a duplicate |
| DispatcherRuns.PanicStrands | app/evm_broadcast.go:182-218 | a concrete run that ends with the worker gone by panic and a batch queued |
| DispatcherRuns.StopStrands | app/evm_broadcast.go:107-128 | a concrete run that ends with the worker stopped and a batch queued |
| Claim.DebitSucceeds | x/claim/keeper/msg_server_claim.go:101-104 | a transfer out of the module succeeds when the balance covers the coins |
| ClaimKeeper.Keeper.SetClaimRecord | x/claim/keeper/claim_record.go:29-46 | stores the record by its address and counts it when it is new, in 64 bits |
| ClaimKeeper.Keeper.CheckRows | x/claim/module/genesis.go:105-149 | the rows are accepted exactly when there are some, the denomination is that of a coin and each row has an address and a valid amount |
| ClaimKeeper.Keeper.Genesis | x/claim/module/genesis.go:20-76 | genesis is accepted exactly for valid rows, amounts and totals; then the keys are the row addresses, each record holds the amount of its last row, unclaimed, and the module holds the minted coins; the invariant is established |
| ClaimKeeper.Keeper.CreateBaseAccount | x/claim/keeper/msg_server_claim.go:135-142 | an existing account stays, a missing one becomes a base account |
| ClaimKeeper.Keeper.CreateDelayedAccount | x/claim/keeper/msg_server_delayed_claim.go:33-72 | only a missing or base account becomes a delayed vesting account of the tier; otherwise refused unchanged |
| ClaimKeeper.Keeper.Check | x/claim/keeper/msg_server_claim.go:30-93 | passes exactly when claims are open and below the limit, the record is there and unclaimed, the public key hashes to its address, the signature is over old address, key and new address, and the destination is an address; the checks stand in their order with their errors |
| ClaimKeeper.Keeper.Move | x/claim/keeper/msg_server_claim.go:84-104 | counter, account and payment are written together or not at all |
| ClaimKeeper.Keeper.MarkClaimed | x/claim/keeper/msg_server_claim.go:106-117 | the record is stored as claimed with time and tier |
| ClaimKeeper.Keeper.Process | x/claim/keeper/msg_server_claim.go:21-133 | succeeds exactly when the claim is signed and open and can be paid; then record, account, balance, counter and log are as stated field by field; on an error nothing changed; the invariant is kept, and before the burn funds suffice |
| ClaimKeeper.Keeper.EndBlocker | x/claim/keeper/abci.go:15-61 | exactly when the period is over and claims are enabled, all ulume is burned and claims are disabled; records and other coins stay; the invariant is kept |
| ClaimRuns.RowsCovered | x/claim/module/genesis.go:105-149 | the records are worth at most the total of the rows, however often addresses repeat |
| ClaimRuns.GenesisAccepted | x/claim/module/genesis.go:20-76 | genesis succeeds if and only if the rows, the denomination and the totals are valid |
| ClaimRuns.GenesisLoads | x/claim/module/genesis.go:20-76 | the records are those of the last row of each address, with its whole amount |
| ClaimRuns.GenesisWorth | x/claim/module/genesis.go:20-76 | with distinct addresses the unclaimed records are worth the sum of the rows, which is what the module holds and the declared total |
| ClaimRuns.GenesisInv | x/claim/module/genesis.go:20-76 | genesis establishes the invariant: conserved, solvent, paid once, paid in full, counted, within the block limit |
| ClaimRuns.ClaimInv | x/claim/keeper/msg_server_claim.go:21-133 | every accepted claim or delayed claim keeps the invariant |
| ClaimRuns.ClaimAccepted | x/claim/keeper/msg_server_claim.go:21-133 | a claim succeeds if and only if it is open, unclaimed, signed for its address, and payable |
| ClaimRuns.ClaimDoes | x/claim/keeper/msg_server_claim.go:84-133 | what a claim does: the coins of the record go to the destination, the record keeps time, destination and tier, a delayed claim vests for six months a tier, nothing else changes |
| ClaimRuns.ClaimIsFunded | x/claim/keeper/msg_server_claim.go:95-104 | before the burn no claim fails for lack of funds |
| ClaimRuns.DepositInv | app/app_config.go:237-246 | coins sent to the module account keep the invariant |
| ClaimRuns.BurnInv | x/claim/keeper/abci.go:15-61 | the burn keeps the invariant and leaves no ulume |
| ClaimRuns.BurnAndSolvency | x/claim/keeper/abci.go:35-57 | after a burn the module covers what it owes if and only if it owed no ulume |
| ClaimRuns.InvStep | x/claim/keeper/msg_server_claim.go:21-133 | every step of a run (claim, delayed claim, deposit, parameter update, end of block) keeps the invariant |
| ClaimRuns.InvRun | x/claim/keeper/msg_server_claim.go:21-133 | in every state of every run from genesis: income = outgo + balance, each address paid once iff its record is claimed, payments = claimed records, count = records, claims per block within the largest limit in force |
| ClaimRuns.PaidWasSigned | x/claim/keeper/msg_server_claim.go:70-104 | over every run, every payment comes from a step whose message was signed for that address and that destination |
| ClaimRuns.RecordsFrozen | x/claim/keeper/claim_record.go:29-46 | no step removes a record, changes its balance, or changes a claimed record |
| ClaimRuns.ClaimedForGood | x/claim/keeper/msg_server_claim.go:49-117 | over every run a claimed record never changes again |
| ClaimRuns.DeadlineStep | x/claim/keeper/abci.go:15-61 | a step with steady parameters keeps the deadline invariant |
| ClaimRuns.DeadlineRun | x/claim/keeper/abci.go:15-61 | with non-decreasing time, an unchanged end time and no re-enabling, payments happen up to the end time, the burn after it and at most once, and no claim succeeds after it |
| ClaimRuns.ClosedForGood | x/claim/keeper/msg_server_claim.go:30-33 | once claims are off, by whatever step, such steps pay and burn nothing any more |
| ClaimRuns.ExpiryIsFinal | x/claim/keeper/abci.go:15-61 | nothing is paid or burned after the first end of a block past the deadline, whether or not it finds anything to burn |
| TraceKeys.TraceRoundTrip | x/erc20policy/types/keys.go:42-79 | decoding inverts encoding for a list of hops if and only if no port has a slash or NUL and no channel a NUL |
| TraceKeys.EntryRoundTrip | app/evm_erc20_policy.go:229-236 | the store key of an entry is listed as that entry if and only if its hops are separable and its base is free of NUL |
| TraceKeys.EntryKeyInjective | app/evm_erc20_policy.go:229-236 | separable entries with the same key are equal |
| TraceKeys.KeyLayout | x/erc20policy/types/keys.go:42-57 | ports and channels joined by a slash, hops by a NUL, and the base in front of a NUL |
| TraceKeys.NulInBaseCollides | app/evm_erc20_policy_msg.go:123-140 | a base with a NUL in it shares its key with an entry of the shorter base and a longer trace |
| TraceKeys.ReadableExactly | app/evm_erc20_policy.go:278-300 | reading a key and writing what was read gives the key again if and only if it is the key of a separable entry |
| TraceKeys.StrayPartDropped | x/erc20policy/types/keys.go:61-79 | a part without a slash behind the base is lost when the key is read, so the key is listed as an entry that has another key |
| TraceKeys.EncodeTraceKey | x/erc20policy/types/keys.go:42-57 | the loop writes the specified key |
| TraceKeys.DecodeTraceKey | x/erc20policy/types/keys.go:61-79 | the loop reads the specified hops, skipping parts without a slash |
| Lex.RangeIsPrefix | app/evm_erc20_policy.go:251-264 | the byte range from a prefix to its end holds exactly the keys with that prefix |
| RegistrationPolicy.EntryIn | app/evm_erc20_policy.go:278-300 | in a well-kept store the listed entries are the separable ones whose key is stored |
| RegistrationPolicy.ValidIsSeparable | app/evm_erc20_policy_msg.go:123-140 | a validated entry is separable if and only if its base is free of NUL |
| RegistrationPolicy.UpdatedKeys | app/evm_erc20_policy_msg.go:53-91 | which denomination and trace keys any message leaves in any store |
| RegistrationPolicy.SetPolicyAccepts | app/evm_erc20_policy_msg.go:29-106 | a message is accepted if and only if the authority is that of governance, the mode is empty or one of three, and every added denomination and entry is valid |
| RegistrationPolicy.UpdateRefines | app/evm_erc20_policy_msg.go:80-91 | which entries any message leaves listed in any store |
| RegistrationPolicy.SetPolicyRefines | app/evm_erc20_policy_msg.go:29-106 | in every store every accepted message updates mode and denominations as it says; the entries become (old + added) - removed if and only if what it adds for good is free of NUL and its removals take every key of the entries it removes and leave one of each other entry |
| RegistrationPolicy.ClearedByKey | app/evm_erc20_policy_msg.go:88-91 | in a well-kept store the removals take an entry if and only if one of them has its key |
| RegistrationPolicy.StrayStays | app/evm_erc20_policy_msg.go:123-140 | a concrete entry is accepted and listed as another one, and an accepted message that removes the one listed leaves it listed |
| RegistrationPolicy.NulBaseAccepted | app/evm_erc20_policy_msg.go:123-140 | a concrete entry with a NUL in its base is accepted and listed as another entry |
| RegistrationPolicy.UpdateFrame | x/erc20policy/types/keys.go:6-25 | keys of other users of the store are untouched |
| RegistrationPolicy.UpdateKeeps | app/evm_erc20_policy_msg.go:80-91 | the store stays well kept if and only if the keys that a message adds for good are readable |
| RegistrationPolicy.RemovalAlias | app/evm_erc20_policy_msg.go:88-91 | an accepted message that removes one concrete entry removes another that is listed |
| RegistrationPolicy.WithoutBaseRefines | app/evm_erc20_policy.go:251-264 | in every store, for a base free of NUL, deleting the range deletes exactly the entries listed with that base; mode and denominations stay |
| RegistrationPolicy.DelegatesExactly | app/evm_erc20_policy.go:64-121 | in every store the decision about an unregistered voucher is that of the listed policy, which asks for its name or an entry with its base, the destination hop first and the incoming hops behind it in order, if and only if the packet neither slips through nor is held back |
| RegistrationPolicy.OthersPass | app/evm_erc20_policy.go:64-101 | packets that cannot be read, coins that are no vouchers and registered vouchers are handed on, whatever is stored |
| RegistrationPolicy.CoversOne | app/evm_erc20_policy.go:123-138 | exactly one entry covers a packet |
| RegistrationPolicy.TwoHopsLookedUp | app/evm_erc20_policy.go:64-138 | a packet with one incoming hop is looked up under the destination hop followed by that hop |
| RegistrationPolicy.TwoHopsInOrder | app/evm_erc20_policy.go:64-138 | a concrete store hands on a packet over two hops and holds back the one over the same hops in the other order |
| RegistrationPolicy.WellKeptHoldsNone | app/evm_erc20_policy.go:269-275 | in a well-kept store no packet is held back |
| RegistrationPolicy.SomePacketHeldBack | app/evm_erc20_policy.go:269-275 | a concrete store and packet whose entry is listed and yet held back |
| RegistrationPolicy.DelegatesSafely | app/evm_erc20_policy.go:64-121 | in any store a voucher is handed on only when the listed policy allows it or when it slips through |
| RegistrationPolicy.HopInBaseSlips | app/evm_erc20_policy.go:266-275 | in every store, a packet whose base holds the first hop of a stored entry is handed on against the policy |
| RegistrationPolicy.SomePacketSlips | app/evm_erc20_policy.go:266-275 | such a store and packet, concretely |
| RegistrationPolicy.PlaceholderIsInert | app/evm_erc20_policy.go:266-275 | an entry without a trace and without a NUL has the key of no packet; some entry without a trace has it if and only if the last channel of the packet ends with NUL |
| RegistrationPolicy.SeededKeeps | app/evm_erc20_policy.go:334-343 | seeding keeps the store well kept, never overwrites a policy, and sets the allowlist mode otherwise |
| RegistrationPolicy.SeededLists | app/evm_erc20_policy.go:334-343 | seeding lists the four default bases without traces, and else what was listed |
| RegistrationPolicy.SeededDenoms | app/evm_erc20_policy.go:334-343 | seeding changes no allowed denomination |
| RegistrationPolicy.SeededAllowsNothing | app/evm_erc20_policy.go:334-343 | on a freshly seeded store every unregistered voucher is held back, whatever the packet |
| PolicyKeeper.RangeDeleted | app/evm_erc20_policy.go:251-264 | deleting the keys that the iterator delivers is deleting the range |
| PolicyKeeper.EntriesListed | app/evm_erc20_policy.go:278-300 | reading the keys that the iterator delivers lists the entries of any store, and those of a well-kept one once each |
| PolicyKeeper.Wrapper.EntryStoreKey | app/evm_erc20_policy.go:229-236 | the store key of an entry |
| PolicyKeeper.Wrapper.CheckEntry | app/evm_erc20_policy_msg.go:123-140 | accepts exactly the valid entries |
| PolicyKeeper.Wrapper.AddDenomLoop | app/evm_erc20_policy_msg.go:68-73 | adds up to the first invalid denomination and reports it |
| PolicyKeeper.Wrapper.RemoveDenomLoop | app/evm_erc20_policy_msg.go:76-78 | removes every listed denomination |
| PolicyKeeper.Wrapper.AddEntryLoop | app/evm_erc20_policy_msg.go:81-86 | adds up to the first invalid entry and reports it |
| PolicyKeeper.Wrapper.RemoveEntryLoop | app/evm_erc20_policy_msg.go:89-91 | removes the key of every listed entry |
| PolicyKeeper.Wrapper.Handle | app/evm_erc20_policy_msg.go:29-106 | the handler leaves the specified store, or reports the specified error having written the message up to its first invalid addition |
| PolicyKeeper.Wrapper.Deliver | app/evm_erc20_policy_msg.go:29-106 | succeeds exactly for acceptable messages; a refused one leaves the store as it was |
| PolicyKeeper.Wrapper.RemoveAllTraces | app/evm_erc20_policy.go:251-264 | collecting and deleting the range leaves the store without it |
| PolicyKeeper.Wrapper.ListEntries | app/evm_erc20_policy.go:278-300 | the list holds the entries of any store, and those of a well-kept one exactly once; keys without NUL are skipped |
| PolicyKeeper.Wrapper.ListDenoms | app/evm_erc20_policy.go:211-221 | the list holds every allowed denomination exactly once |
| PolicyKeeper.Wrapper.BuildFullTrace | app/evm_erc20_policy.go:125-138 | one hop more than came in: the destination hop first, then each incoming hop at its place |
| PolicyKeeper.Wrapper.OnRecvPacket | app/evm_erc20_policy.go:64-121 | unreadable packets, non-vouchers and registered vouchers pass; other vouchers pass as the mode and the policy say, unless the packet slips through or is held back |
| PolicyKeeper.Wrapper.InitDefaults | app/evm_erc20_policy.go:334-343 | first genesis leaves the seeded store |
| PolicyKeeper.Wrapper.SeedAtUpgrade | app/upgrades/v1_20_0/upgrade.go:144-158 | the upgrade leaves the same seeded store |
| PolicyRuns.ModeRun | app/evm_erc20_policy_msg.go:53-65 | in every run of any messages and packets the mode stays valid |
| PolicyRuns.ChangedByAuthority | app/evm_erc20_policy_msg.go:37-51 | over every run, a changed store means that an acceptable message of the governance authority was delivered |
| PolicyRuns.KeyWasGranted | app/evm_erc20_policy_msg.go:80-91 | over every run a stored trace key was stored at its start or is the key of an entry that messages added and did not remove since |
| PolicyRuns.ListedWasGranted | app/evm_erc20_policy_msg.go:80-91 | over every run whatever is listed was listed from its start on, or is what the listing shows for such an entry, which is the entry itself if and only if it has no delimiters in its names |
| PolicyRuns.RegisteredThrough | app/evm_erc20_policy.go:64-121 | over every run, every registered voucher came with a packet that the policy listed at that moment allows, or that slips through |
| PolicyRuns.RegisteredWasAllowed | app/evm_erc20_policy.go:64-121 | for packets without delimiters in their names every registered voucher was allowed by its name or its own base and trace |
| PolicyRuns.SlippedIsRegistered | app/evm_erc20_policy.go:64-121 | a concrete run that registers a voucher the policy never allows |
| PolicyRuns.SeededRegistersNothing | app/evm_erc20_policy.go:334-343 | on a freshly seeded chain no voucher is registered until governance acts |
| RateLimiter.LevelOfLater | app/evm_jsonrpc_ratelimit.go:137-155 | the tokens of an address at a later time depend on what is kept through the present tokens alone |
| RateLimiter.EvictedIsFull | app/evm_jsonrpc_ratelimit.go:96-106 | when a lifetime refills the burst, whoever is evicted has a full bucket |
| RateLimiter.ForgettingIsTransparent | app/evm_jsonrpc_ratelimit.go:66-106 | then, on every trace with any cleanups, each request gets the answer of a limiter that never forgets |
| RateLimiter.ShortLifetimeShows | app/evm_jsonrpc_ratelimit.go:96-106 | with a shorter lifetime a concrete trace gets a different answer |
| RateLimiter.TransparentExactly | app/evm_jsonrpc_ratelimit.go:96-106 | forgetting changes no answer on any trace if and only if lifetime * rate >= burst |
| RateLimiter.Spent | app/evm_jsonrpc_ratelimit.go:143-152 | admitted + left <= available before + rate * time, over every trace |
| RateLimiter.WindowBound | app/evm_jsonrpc_ratelimit.go:143-152 | without forgetting any window of length T admits at most burst + rate * T requests of an address |
| RateLimiter.ForgettingWindowBound | app/evm_jsonrpc_ratelimit.go:66-106 | the same bound for every window of every trace of the limiter with cleanups |
| RateLimiter.EmptiedRefills | app/evm_jsonrpc_ratelimit.go:143-152 | a bucket that is empty at t has a token again exactly from t + 1 / rate on |
| RateLimiter.AdmitsAgain | app/evm_jsonrpc_ratelimit.go:143-152 | an address that spends a full burst at t is admitted again exactly from t + 1 / rate on |
| RateLimiter.IpRateLimiter.GetLimiter | app/evm_jsonrpc_ratelimit.go:66-93 | finds or makes the entry of the address and marks it as seen; others are unchanged |
| RateLimiter.IpRateLimiter.Serve | app/evm_jsonrpc_ratelimit.go:143-152 | admits exactly when the bucket has a token, which it takes |
| RateLimiter.IpRateLimiter.CleanUp | app/evm_jsonrpc_ratelimit.go:96-106 | the loop in any order drops exactly the entries last seen before now - lifetime and leaves the others as they are |
| StoreUpgrades.SortedUnique | app/upgrades/store_upgrade_manager.go:242-252 | a set has one sorted enumeration, so a plan does not depend on the order of map iteration |
| StoreUpgrades.SortedKeys | app/upgrades/store_upgrade_manager.go:242-252 | strictly sorted, with exactly the elements of the set |
| StoreUpgrades.UniqueSortedStores | app/upgrades/consensus_store_loader.go:174-188 | strictly sorted, with exactly the elements of the list |
| StoreUpgrades.ComputeAddOnly | app/upgrades/store_upgrade_manager.go:128-147 | the declared additions that are missing, and nothing else |
| StoreUpgrades.AddOnlyKeeps | app/upgrades/store_upgrade_manager.go:88-147 | adding only loses no store, mounts all that is declared, and has nothing left to do |
| StoreUpgrades.ComputeAdaptive | app/upgrades/store_upgrade_manager.go:177-240 | the loops compute the merged difference; additions are new, deletions exist, the two are disjoint, and the last pruning pass finds nothing |
| StoreUpgrades.AdaptiveReaches | app/upgrades/store_upgrade_manager.go:177-240 | for every base, renames included, the plan leads to the expected stores if and only if the base agrees with them |
| StoreUpgrades.FilterStores | app/upgrades/consensus_store_loader.go:114-138 | keeps, in order, the names that are new or that exist |
| StoreUpgrades.FilterStoreRenames | app/upgrades/consensus_store_loader.go:140-151 | keeps, in order, the renames from an existing to a new name |
| StoreUpgrades.RemoveStoreName | app/upgrades/consensus_store_loader.go:161-172 | in place: the kept names move to the front in order and nothing behind them is written |
| StoreUpgrades.ComputeConsensus | app/upgrades/consensus_store_loader.go:60-101 | the consensus-aware plan, with and without an expected set |
| StoreUpgrades.LegacySurvives | app/upgrades/consensus_store_loader.go:60-101 | for all inputs the legacy consensus store is not deleted, deletions exist and additions are new |
| StoreUpgrades.ConsensusReaches | app/upgrades/consensus_store_loader.go:60-101 | the result is the expected stores, plus the legacy store if both existed, if and only if the base agrees with them and renames no legacy store that is to stay |
| StoreUpgrades.ReplanIsEmpty | app/upgrades/consensus_store_loader.go:60-101 | planning again on a result that was reached yields an empty plan if and only if the base has no addition outside it and no deletion or possible rename inside it, the legacy store aside |
| StoreUpgrades.ConsensusUnaided | app/upgrades/consensus_store_loader.go:60-101 | without an expected set, for every base: the resulting stores, when the consensus store is missing from them, and when planning again yields nothing |
| BringUp.PathsAgree | app/upgrades/v1_20_1/upgrade.go:54-89 | from any chain without the EVM, v1.20.0 followed by v1.20.1 at any later time ends in the state of v1.20.1 alone at the time of the first: stores, versions, policy, parameters, end of the migration period, initialised modules, one bring-up |
| BringUp.BringUpSets | app/upgrades/v1_20_0/upgrade.go:98-139 | the bring-up gives the modules the parameters of Lumera and none of them its default genesis |
| BringUp.BringUpLeaves | app/upgrades/v1_20_0/upgrade.go:98-190 | the end of the migration period is that of the network, other new modules get their default genesis once, the versions are those of the release, and stores and older modules stay |
| BringUp.HotfixKeeps | app/upgrades/v1_20_1/upgrade.go:76-88 | after the bring-up v1.20.1 leaves parameters, policy and end of the migration period alone |
| BringUp.PartialRefused | app/upgrades/v1_20_1/upgrade.go:64-73 | some EVM modules without the others are refused |
| BringUp.InvStep | app/upgrades/v1_20_1/upgrade.go:54-89 | each release keeps the invariant, loses no store, and after the bring-up leaves the settings alone |
| BringUp.BringUpOnce | app/upgrades/v1_20_1/upgrade.go:54-89 | however often and in whatever order the releases are applied, the bring-up runs at most once and no store is lost |
| BringUp.EvmModuleState | app/upgrades/v1_20_1/upgrade.go:36-45 | splits the four modules, in order, by presence |
| BringUp.Node.Finalise | app/upgrades/v1_20_0/upgrade.go:117-190 | parameters, policy and end of the migration period are set as specified |
| BringUp.Node.BringUpHandler | app/upgrades/v1_20_0/upgrade.go:69-193 | enters the EVM modules, migrates and sets what the release sets, or fails unchanged |
| BringUp.Node.SecondHandler | app/upgrades/v1_20_1/upgrade.go:54-89 | none: bring-up; some: refused unchanged; all: migrations only |
| BringUp.Node.StartSecond | app/upgrades/store_upgrade_manager.go:88-123 | add-only loading, then the handler; unreadable stores or an error leave the committed state |
| ActionMigration.RemarkedExact | x/action/v1/keeper/action.go:353-457 | writing an action whose values hold no slash over an older version keeps the index keys exact |
| ActionMigration.KeyScan | x/action/v1/keeper/action.go:534-556 | a scan of the prefix of a value without slash meets only keys of that value |
| ActionMigration.KeyInjective | x/action/v1/keeper/action.go:24-30 | markers of all five indexes whose values hold no slash have different keys |
| ActionMigration.IndexedIsAffected | x/action/v1/keeper/action.go:519-530 | with exact indexes an action refers to an address if and only if one of its two keys is there |
| ActionMigration.FiledExactly | x/action/v1/keeper/action.go:353-457 | with exact indexes an action is filed under its own state, creator, type, height and supernodes and nothing else |
| ActionMigration.LegacyIsGone | x/evmigration/keeper/migrate_action.go:15-62 | after the rewriting nothing refers to the legacy address and rewriting again changes nothing |
| ActionMigration.RewrittenExactly | x/evmigration/keeper/migrate_action.go:47-55 | the creator and each supernode position change if and only if they were the legacy address; everything else is the same |
| ActionMigration.Keeper.Move | x/action/v1/keeper/action.go:374-424 | one index loses the stale key and gains the current one |
| ActionMigration.Keeper.MoveSuperNodes | x/action/v1/keeper/action.go:426-455 | the supernode index loses stale keys and gains current ones, for lists with repetitions |
| ActionMigration.Keeper.SetAction | x/action/v1/keeper/action.go:353-457 | writes the action, brings all five indexes up to date, and keeps them exact |
| ActionMigration.Keeper.ActionsBy | x/action/v1/keeper/action.go:534-556 | scans the byte range of the prefix, reads the identifier behind it and finds exactly the actions filed under the value; keys without an action are skipped |
| ActionMigration.Keeper.Collect | x/evmigration/keeper/migrate_action.go:31-44 | each action once; the order is extended by the new identifiers where they are first met |
| ActionMigration.Keeper.RewriteAction | x/evmigration/keeper/migrate_action.go:47-55 | the creator and each supernode position become the new address exactly where they were the legacy one, and nothing else changes |
| ActionMigration.Keeper.FindAffected | x/evmigration/keeper/migrate_action.go:19-44 | exactly the actions that refer to the address, as stored, each once |
| ActionMigration.Keeper.WriteBack | x/evmigration/keeper/migrate_action.go:46-59 | rewrites and writes each found action once, in order, and no other |
| ActionMigration.Keeper.MigrateActions | x/evmigration/keeper/migrate_action.go:15-62 | the same identifiers, and in every action exactly the creator and the supernode positions that were the legacy address become the new one; each affected identifier is written once and no other; the indexes stay exact |

## Left out

- HTTP servers, reverse proxies, extraction of the client address, metrics, logging, events and command lines: input and output.
- Bech32, signatures and public keys are functions that the claim model gets; bank, account and staking keepers are reduced to the ledger operations that claims use.
- The codec of coins is a parameter of the claim record codec; it is required to read back what it writes.
- On a decoding error Go leaves a partly filled message; the model returns the error alone.
- Slices of 2^63 bytes or more: decoders require a length that an int can hold.
- Times so far from 1970 that Go's time arithmetic wraps.
- Coins that the bank genesis gives to the claim module are modelled as a deposit.
- The ledger that conserves coins covers the claim module account; other accounts are not modelled.
- Sending to a broadcast queue is one atomic step, and the wait of `stop` for the worker has no step of its own.
- The test hook that sets an arbitrary registration mode; the model starts from a valid mode.
- Parsing of packet data and the derivation of voucher names: the model starts from what they yield.
- Iterators over a store are given as the keys they deliver; the database behind them is not modelled.
- RateLimiter.IpRateLimiter.Serve: does not model the moment between looking up a bucket and asking it, in which another goroutine can run, nor the rounding of floating point tokens to nanoseconds.
- BringUp.Node.BringUpHandler: the wiring of the keepers and the success of the migrations are one flag of a release.
- BringUp.Node.Finalise: coin information and denomination metadata are left out; a set of parameters is one value.
- The loading of stores is the set operation that a plan describes; versions of single stores are not modelled, and v1.20.0 is modelled with its standard loader, not with the adaptive one of development networks.
- BringUp.Node.RunMigrations: reduced to the versions it reports and the modules it initialises; the migrations of the modules are not modelled.
- ActionMigration.Keeper.SetAction: keeps the indexes exact for values without a slash, which addresses, states, types and heights are; encoding errors and errors of the store are not modelled.
- The remaining migrations of a legacy account (staking, authz, feegrant, supernodes), the life cycle of actions, and the supernode and audit modules.
