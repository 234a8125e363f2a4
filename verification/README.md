# TEENet Wallet: a verified model

TEENet Wallet is a Go backend, with a TypeScript plugin, that decides whether a transaction may be
signed and then builds, signs and broadcasts it. This project models the parts of it whose
correctness is hard to see by reading, and proves what they promise for every input, every run and
every interleaving. `dafny verify dfyconfig.toml` checks everything.

**Byte codecs.** `Numerals`, `Base58`: the in-place base conversions and their bijection.
`AccountOrder`, `SolanaMessage`, `SolanaTransfer`, `SolanaLimits`: the Solana legacy message compiler
against an independent reader of the format, and the hand-written messages against the compiler.
`AbiTypes`, `AbiWords`, `AbiCodec`, `AbiEncoder`, `AbiCall`, `AbiSupport`, `AbiSize`, `AbiLayout`: Solidity type
strings, the two-pass head/tail encoder, a strict decoder written from "Formal Specification of the Encoding" in the
Solidity Contract ABI Specification, the exact length of every encoding, and worked layouts.

**Approval and spending.** `WalletModel` is a step machine of concurrent requests over approval rows,
garbage-collected approval mutexes, address locks, wallet shards, the daily ledger and the chain; a
run is any sequence of actions, so every statement about runs is about every interleaving.
`WalletLocks` (deadlock freedom), `WalletApproval` (at most one effect per approval), `WalletLedger`
and `WalletMidnight` (the daily limit), `WalletNonce` (nonce agreement), `WalletGate` (the approval gate
under interleaving), `WalletRows`, `WalletOutcome` and `WalletExpiry` (what an approval row and its label say about
what happened), `WalletProgress` (what nothing stops goes through). `SpendingPolicy` is the policy row and the gate in front of the signer, request by request.

**Signing and broadcasting.** `IntText`, `EthTx`: EVM transactions as numbers and bytes when they are
hashed, as decimal and hex text when they are stored, refreshed and broadcast. `FeeBump`: the
replace-by-fee retry loop, and both ways from a request to its last round. `SolanaDispatch`: the two
dispatchers that guess a transaction's type from its stored fields.

**Delivery and limits.** `RateLimit`: both sliding-window limiters. `EventStream`: server-sent events
from printer to reader. `Watcher`, `WatcherCode`: the crash-tolerant notifier. `EmailVerification`,
`EmailService`: verification codes.

Loops, buffers and objects of the source are methods and classes here; each is tied by its contract to
a specification function or machine, and the promises are lemmas about that. Six promises turned out to
hold only under a condition; each has a lemma stating exactly when, and a concrete input that fails:

- a fixed-size suffix on a tuple array, such as `(bool)[][1]`, is not recognised by the type parser
  (`AbiTypes.FixedArrayRecognised`), so the encoder is right on exactly the types without one
  (`AbiSupport.SupportedExactly`, `AbiCall.TupleArraySuffixRejected`);
- a node that reports a negative base fee, which the signed hex parser lets through, makes a transaction whose
  fee cap is below its tip (`EthTx.FeesOrderedIff`, `EthTx.NegativeBaseFee`);
- the one-byte header and index fields of a Solana message wrap beyond 256 accounts or 255 signers
  (`SolanaMessage.CompiledFaithfully`, `SolanaLimits.CrowdMisread`);
- a refund that crosses midnight unbalances the daily ledger (`WalletLedger.RefundExact`,
  `WalletLedger.StaleRefundExact`, `WalletMidnight.RefundAfterMidnight`);
- an approval row whose transaction was accepted, or whose settings were applied, may end up labelled "expired",
  because a request that only looks at the row writes that label without the row's mutex; no other label is
  wrong (`WalletOutcome.HappenedIsLabelled`, `WalletOutcome.FailedMeansNothing`, `WalletRows.LabelsTellTheTruth`,
  `WalletOutcome.ExpiredThoughApplied`);
- an approval may be announced again once its tombstone has aged out, thirty days and a millisecond
  later (`Watcher.AnnouncedOnce`, `Watcher.AnnouncedAgain`).

The gate's exact condition (`SpendingPolicy.PolicyStore.DecideTransfer`) also shows that it fails closed for
tokens only: a native coin for which no source has a price is signed at once under an active policy
(`SpendingPolicy.UnpricedCoin`).

Where a comment in the source says something else than the code, the model follows the code: the
comment on compactU16 lists one- and two-byte forms and the code also writes three bytes; a comment in
VerifyCode says that a row closed after too many attempts is gone for the next call, while the code
leaves it there, expired; and the comment on BumpETHGas says that fees are rounded up, while the code
rounds down and adds one.

## Model

| member | source | states |
|---|---|---|
| Numerals.ValueOfDigits | chain/address.go:168-201 | writing a number in a base and reading it back is the identity |
| Numerals.DigitsOfValue | chain/address.go:168-201 | digits below the base without a leading zero are the only way to write their value |
| Numerals.RebaseBack | chain/address.go:76-102 | changing base and back restores a digit string, leading zeros included |
| Base58.LetterExactly | chain/address.go:62-73 | letters and digits correspond one to one |
| Base58.Alphabet | chain/address.go:62-62 | the letters in digit order spell the alphabet of the source |
| Base58.DecodeEncode | chain/address.go:76-201 | decoding an encoded byte string gives it back, for every byte string |
| Base58.EncodeDecode | chain/address.go:76-201 | encoding a decoded text gives it back, for every text over the alphabet |
| Base58.DecodeInjective | chain/address.go:76-102 | two texts that decode to the same bytes are the same text |
| Base58.SameNumber | chain/address.go:168-201 | the text spells the number of the bytes, with exactly one leading `1` for each leading zero byte |
| Base58.TimesPlusIsArithmetic | chain/address.go:181-190 | the carry loop multiplies the little-endian number by the base and adds the byte |
| Base58.Multiply | chain/address.go:181-186 | the in-place pass keeps digits below 58 and leaves the right carry |
| Base58.PushByte | chain/address.go:180-191 | one input byte: value times 256 plus the byte, no leading zero digit appears |
| Base58.ConvertDigits | chain/address.go:178-191 | after all bytes the digits are the number in base 58 |
| Base58.Encode | chain/address.go:168-201 | the loops compute the encoding the bijection is about |
| Base58.Accumulate | chain/address.go:77-86 | the accumulating loop computes the number, or stops at the first foreign character |
| Base58.Decode | chain/address.go:76-102 | the loops compute the decoding the bijection is about, errors included |
| AccountOrder.PickSwap | chain/tx_sol.go:575-580 | swapping neighbours of different groups keeps every group's order |
| AccountOrder.SortedIsOrdered | chain/tx_sol.go:556-580 | a list sorted by group is the concatenation of its groups |
| AccountOrder.Sink | chain/tx_sol.go:577-579 | one pass of the in-place sort moves an account past higher groups only |
| AccountOrder.SortByGroup | chain/tx_sol.go:575-580 | the in-place sort is the stable partition into the four header groups |
| SolanaMessage.ReadCompact | chain/tx_sol.go:972-983 | a compact-u16 length is read back from what was written, for all 65536 values |
| SolanaMessage.MergeAllSummarises | chain/tx_sol.go:517-554 | merging lists each mentioned key once with its flags or-ed over all mentions, payer first |
| SolanaMessage.OrderedSummarises | chain/tx_sol.go:556-580 | ordering keeps keys, flags and the payer's place |
| SolanaMessage.LayoutSummarises | chain/tx_sol.go:517-580 | the key table is distinct, sorted, complete and correctly flagged |
| SolanaMessage.ParseCompiled | chain/tx_sol.go:500-636 | a reader of the legacy format recovers exactly the fields that were written |
| SolanaMessage.FaithfulWhenSmall | chain/tx_sol.go:582-635 | within one byte every index, flag and field resolves to what was asked for |
| SolanaMessage.WrappedSigners | chain/tx_sol.go:588-608 | 256 signers, the most that 256 accounts allow: the header count wraps to zero and no longer says what was asked |
| SolanaMessage.WrappedIndex | chain/tx_sol.go:619-630 | more than 256 accounts: some index no longer resolves to its account |
| SolanaMessage.CompileOutcome | chain/tx_sol.go:500-536 | a request is rejected exactly when a key is not 32 base-58 bytes, and panics exactly when accounts, listed accounts or data exceed 65535 |
| SolanaMessage.CompiledFaithfully | chain/tx_sol.go:500-636 | the message means the request if and only if there are at most 256 accounts and 255 signers |
| SolanaMessage.Visit | chain/tx_sol.go:532-545 | one mention updates the seen map and the list as merging says |
| SolanaMessage.Collect | chain/tx_sol.go:524-554 | the collecting loop yields the merged mentions, or rejects an invalid key |
| SolanaMessage.Arrange | chain/tx_sol.go:556-580 | the collected accounts come out ordered |
| SolanaMessage.CountHeader | chain/tx_sol.go:588-603 | the three counters are the group sizes |
| SolanaMessage.IndexMap | chain/tx_sol.go:582-586 | the index map gives every key its position |
| SolanaMessage.AppendKeys | chain/tx_sol.go:609-614 | the key bytes follow one another in table order |
| SolanaMessage.AppendIndices | chain/tx_sol.go:621-628 | one byte per account, the truncated position |
| SolanaMessage.ParseSerialized | chain/tx_sol.go:605-635 | a reader finds in the appended bytes exactly the header, keys, blockhash and instruction that were appended |
| SolanaMessage.Assemble | chain/tx_sol.go:582-635 | the message of an ordered list, or the panic of an oversized length |
| SolanaMessage.BuildMessage | chain/tx_sol.go:500-636 | the whole compiler, with its rejections and its panic |
| SolanaLimits.Misread | chain/tx_sol.go:588-608 | every encodable request with more than 255 signers compiles to a message that means something else |
| SolanaLimits.CrowdMisread | chain/tx_sol.go:588-608 | a concrete request with 256 signers that does so |
| SolanaTransfer.LittleEndianBack | chain/tx_sol.go:174-177 | a little-endian number of any width is read back |
| SolanaTransfer.TransferMessage | chain/tx_sol.go:159-197 | the native transfer builder, with its rejections |
| SolanaTransfer.UnwrapMessage | chain/tx_sol.go:845-884 | the unwrap builder, with its rejections |
| SolanaTransfer.TwoPartyLayout | chain/tx_sol.go:517-580 | payer, one writable account and program always take slots 0, 1 and 2 |
| SolanaTransfer.CompiledIff | chain/tx_sol.go:500-636 | the compiler writes the three-slot message if and only if the three keys differ |
| SolanaTransfer.TransferAgrees | chain/tx_sol.go:159-197 | the hand-written transfer equals the compiled one if and only if the keys differ, with the same rejections |
| SolanaTransfer.UnwrapAgrees | chain/tx_sol.go:845-884 | the same for unwrapping |
| SolanaTransfer.TransferRead | chain/tx_sol.go:159-197 | a node that reads a transfer sees exactly that transfer: payer signing and writable, recipient writable |
| SolanaTransfer.UnwrapRead | chain/tx_sol.go:845-884 | a node that reads an unwrap sees the token program asked to close the account in favour of its owner |
| SolanaTransfer.AmountRead | chain/tx_sol.go:174-177 | the instruction data is the transfer tag and spells out every 64-bit amount |
| AbiTypes.SplitLoop | chain/abi.go:82-101 | the depth-counting loop computes the recursive top-level split |
| AbiTypes.SplitJoin | chain/abi.go:82-101 | splitting a printed type list returns exactly the printed types |
| AbiTypes.FixedArrayRecognised | chain/abi.go:135-176 | a printed fixed-size array is taken apart into element and size if and only if its element is not an array over a tuple |
| AbiTypes.FixedOfTupleArray | chain/abi.go:135-176 | on an array over a tuple the parser finds nothing |
| AbiTypes.IsDynamicAgrees | chain/abi.go:104-125 | on every supported type the string test for dynamic types is the structural one |
| AbiWords.EncodeWordAccepts | chain/abi.go:249-402 | a word type encodes exactly the arguments in its range |
| AbiWords.DecodeWordBack | chain/abi.go:347-402 | a reader that refuses nonzero padding and numbers out of range reads every encoded word back, two's complement and left-aligned bytes included |
| AbiWords.DecodeIntBack | chain/abi.go:564-587 | signed integers of every width are read back from two's complement |
| AbiCodec.EncodeAccepts | chain/abi.go:179-511 | encoding succeeds exactly on the arguments that match the type, at every nesting |
| AbiCodec.StaticLength | chain/abi.go:202-222 | the length of a static encoding depends on the type alone |
| AbiCodec.Aligned | chain/abi.go:179-246 | every encoding is a whole number of 32-byte words |
| AbiCodec.RoundTrip | chain/abi.go:179-511 | decoding an encoding, whatever follows it, gives the argument back, for every nested type; the decoder refuses any padding that is not zero |
| AbiCodec.FrameBack | chain/abi.go:179-246 | the same for argument lists |
| AbiCodec.ComponentsBack | chain/abi.go:211-245 | following each offset from any position of a frame finds the remaining components |
| AbiSize.EncodedSize | chain/abi.go:179-511 | an encoding has exactly the bytes its parts need: a word per static value and offset, and the padded tails |
| AbiLayout.BytesBoolList | chain/abi.go:179-246 | `f(bytes,bool,uint256[])` word by word, for all contents |
| AbiLayout.StringList | chain/abi.go:443-468 | `f(string[])`: the inner offsets count from after the inner length |
| AbiLayout.StringPair | chain/abi.go:493-511 | `f(string[2])`: dynamic although its length is fixed, and without a length word |
| AbiLayout.ThreeBytesPair | chain/abi.go:384-402 | `f(bytes3[2])`: in place, each value at the left of its word, zeros after it |
| AbiEncoder.OffsetPointsAtTail | chain/abi.go:211-234 | every offset word is where its tail starts within its frame |
| AbiEncoder.EncodeEach | chain/abi.go:180-200 | the first pass collects heads and tails, or the first error |
| AbiEncoder.MeasureHeads | chain/abi.go:211-222 | the loop measures the head area |
| AbiEncoder.FillOffsets | chain/abi.go:223-234 | the loop fills in each tail's true offset |
| AbiEncoder.AppendHeads | chain/abi.go:236-239 | the head area is the heads in order |
| AbiEncoder.AppendTails | chain/abi.go:240-245 | the tail area is the tails in order |
| AbiEncoder.EncodeArgsLoop | chain/abi.go:179-246 | the two-pass loop is the recursive head/tail layout, errors included |
| AbiEncoder.StaticAgrees | chain/abi.go:249-315 | dispatch on a printed static type encodes as the grammar says |
| AbiEncoder.DynamicAgrees | chain/abi.go:317-344 | dispatch on a printed dynamic type encodes as the grammar says |
| AbiEncoder.ArrayAgrees | chain/abi.go:443-468 | length word and elements of a dynamic array |
| AbiEncoder.FixedAgrees | chain/abi.go:493-511 | elements of a fixed-size array, of the right number |
| AbiEncoder.TupleAgrees | chain/abi.go:471-490 | components of a tuple, of the right number |
| AbiEncoder.ArgsAgree | chain/abi.go:179-246 | a list of printed types encodes as the grammar's list |
| AbiCall.ParseSignature | chain/abi.go:64-80 | parsing a printed signature gives back its parameter types |
| AbiCall.SignatureShape | chain/abi.go:64-80 | a signature is accepted exactly when it has an opening parenthesis and ends with a closing one |
| AbiCall.CallAccepts | chain/abi.go:40-62 | calldata is produced exactly for matching arguments, and a printed signature never crashes |
| AbiCall.CallRoundTrip | chain/abi.go:40-62 | calldata is the selector followed by bytes that the strict decoder reads as the arguments |
| AbiCall.AddrAmountAgrees | chain/tx_eth.go:43-62 | the hand-written ERC-20 encoder equals the general one for every address and amount, rejecting the same amounts |
| AbiCall.TupleArraySuffixRejected | chain/abi.go:135-176 | a well-typed argument of type `(bool)[][1]` that the string encoder refuses |
| AbiSupport.JunkFails | chain/abi.go:249-344 | text that closes more parentheses than it opens encodes no argument without empty lists, however deep the dispatch follows it |
| AbiSupport.UnsupportedFails | chain/abi.go:179-344 | every value of an unsupported type without empty lists is refused, at any nesting |
| AbiSupport.SupportedExactly | chain/abi.go:179-344 | the string encoder computes the encoding of a type for all arguments if and only if the type is supported |
| WalletLocks.LockStepHolds | handler/approval.go:202-203 | what a thread holds changes exactly as its lock operation says |
| WalletLocks.LockInvRun | handler/wallet.go:1500-1503 | after every run the lock table and the threads agree on who holds what |
| WalletLocks.Exclusive | chain/addr_lock.go:24-30 | at most one thread holds a lock |
| WalletLocks.LockOrder | handler/contract_call.go:195-196 | a thread only waits for a lock above all those it holds: approval, address, shard |
| WalletLocks.NoDeadlock | handler/approval.go:202-460 | in every reachable state with an unfinished request some request can step |
| WalletApproval.ApprovalInvRun | handler/approval.go:27-90 | after every run, although mutexes are deleted while held, at most one thread is committed to an approval and its effects are on record |
| WalletApproval.OnePastCheck | handler/approval.go:202-218 | at most one thread is past the pending check of an approval |
| WalletApproval.AtMostOneEffect | handler/approval.go:567-602 | an approval is broadcast, applied or rejected at most once, and never two of these |
| WalletRows.RowsWereAsked | handler/wallet.go:518-560 | after every run a row that spends carries the wallet and amount of a request that had to ask |
| WalletRows.ApprovedSpendIsRow | handler/approval.go:363-602 | a thread about to broadcast an approved spend works on its row's own wallet and amount |
| WalletRows.LabelsTellTheTruth | handler/approval.go:567-602 | after every run "approved" means accepted by the node or applied, and "rejected" that nothing was even tried |
| WalletRows.CheckDecides | handler/approval.go:205-218 | under the mutex only a row that is pending and within its time goes further |
| WalletOutcome.FailedMeansNothing | handler/approval.go:567-590 | after every run "failed" means that no node accepted the transaction and nothing was applied |
| WalletOutcome.HappenedIsLabelled | handler/approval.go:567-602 | once nobody is resolving it, a row whose transaction was accepted or settings applied says "approved" or "expired" |
| WalletOutcome.ExpiredThoughApplied | handler/approval.go:153-162 | a run after which applied settings are labelled "expired", because a look at the row writes without its mutex |
| WalletExpiry.ExpiredWasLate | handler/approval.go:79-162 | after every run a row that says "expired" is one whose time a request on it or the expiry loop saw run out |
| WalletExpiry.SweepExactly | handler/approval.go:79-84 | the expiry loop labels exactly the pending rows it finds late |
| WalletProgress.SettingsGoThrough | handler/approval.go:202-400 | from any state, approving a pending settings row whose mutex is free can apply it, once, label it and free the mutex |
| WalletProgress.ApprovalGoesThrough | handler/approval.go:202-602 | from any state, approving a pending EVM spend whose locks are free can put one transaction with the pending nonce on the chain, label the row and free the locks |
| WalletProgress.TransferGoesThrough | handler/wallet.go:746-989 | from any state, a transfer that needs no approval, with its address lock free and no daily limit, can reach the chain with the pending nonce |
| WalletProgress.LimitedGoesThrough | handler/wallet.go:746-989 | so can one under a daily limit that leaves room, and its amount stays counted |
| WalletProgress.RejectionGoesThrough | handler/approval.go:674-705 | from any state, rejecting a pending row whose mutex is free can label it, once |
| WalletProgress.MutexCollected | handler/approval.go:56-72 | from any state, the collector can drop the mutex of a row that is not pending, and changes nothing else |
| WalletLedger.NoResidue | handler/wallet.go:953-989 | a finished transfer, wrap or approval holds no reservation |
| WalletLedger.LedgerInvRun | handler/wallet.go:1500-1616 | over same-day runs each counter is reservations plus completed plus recorded spends |
| WalletLedger.SpentWithinLimit | handler/wallet.go:1500-1549 | over same-day runs the counter covers completed spends and reservations never pass the limit |
| WalletLedger.GrantedExactly | handler/wallet.go:1521-1541 | over same-day runs a reservation is granted if and only if the day's reservations, completed and recorded spends leave room for it |
| WalletLedger.ClampNeverFires | handler/wallet.go:1553-1582 | over same-day runs a refund is always covered by the counter |
| WalletLedger.RefundExact | handler/wallet.go:1553-1582 | a refund keeps the books if and only if the counter is of the reservation's day or already empty |
| WalletLedger.StaleRefundExact | handler/wallet.go:1568-1572 | a skipped refund unbalances the books if and only if the counter is still of the reservation's day |
| WalletMidnight.RefundAfterMidnight | handler/wallet.go:1553-1582 | a run in which a refund after midnight leaves the counter below the day's completed spends |
| WalletNonce.NonceInvRun | chain/tx_eth.go:105-126 | after every run each live nonce is the pending count of its address |
| WalletNonce.SignedNonceIsPending | handler/contract_call.go:195-201 | a request about to broadcast signs the node's current pending count |
| WalletNonce.AcceptedNoncesContiguous | chain/addr_lock.go:13-30 | the accepted nonces of every address are 0, 1, 2, ... without gap or repetition |
| SpendingPolicy.PolicyStore.SetPolicy | handler/wallet.go:337-416 | only sound settings are stored or proposed; an API key only proposes |
| SpendingPolicy.PolicyStore.ApproveChange | handler/approval.go:339-360 | a granted proposal replaces the settings and keeps the counter |
| SpendingPolicy.PolicyStore.CheckAndDeduct | handler/wallet.go:1500-1549 | reserves exactly when the day's total fits, with the daily reset |
| SpendingPolicy.PolicyStore.Release | handler/wallet.go:1553-1582 | takes back on the same day, clamped at zero |
| SpendingPolicy.PolicyStore.Add | handler/wallet.go:1585-1616 | records without a check, with the daily reset |
| SpendingPolicy.AskSources | handler/wallet.go:905-940 | what an amount is worth, source by source: symbol, then contract, then Jupiter for Solana tokens, then the last resort for named tokens; nothing exactly when none has a price |
| SpendingPolicy.PolicyStore.DecideTransfer | handler/wallet.go:901-982 | in terms of what the amount is worth: the exact condition for signing at once, for refusing and for asking, and what is reserved; asking and refusing leave the day's counter as it was |
| SpendingPolicy.PolicyStore.DecideCall | handler/contract_call.go:233-346 | an API key's contract call is never signed at once; the exact condition for a passkey's |
| SpendingPolicy.UnpricedCoin | handler/wallet.go:901-982 | a concrete transfer of a native coin without a price that is signed at once under an active policy |
| SpendingPolicy.Govern | handler/wallet.go:337-982 | over every run of settings changes, deletions and requests an API key's token transfer is signed at once only with a known price whose value is within threshold and limit, and settings change only by passkey or by granting an earlier proposal |
| WalletGate.SentOnlyThroughGate | handler/wallet.go:942-982 | under every interleaving a request about to be broadcast on its own is within the threshold of an active policy, priced if it is an API key's token transfer, a passkey's if it is a contract call, and fully reserved where a daily limit applies |
| WalletGate.AskedOnlyByGate | handler/wallet.go:970-982 | conversely, a request that asks for an approval is over the threshold, an API key's unpriced token transfer, or an API key's contract call |
| WalletGate.ApiKeyGate | handler/contract_call.go:233-241 | under every interleaving an API key's token transfer is sent at once only with a known price, within the threshold and reserved; its contract calls never are |
| WalletGate.CallsNeverRefund | handler/contract_call.go:233-346 | contract calls never take a reservation back |
| WalletGate.ApprovedSpendCounted | handler/approval.go:519-660 | an approved spend that can be priced is reserved before the broadcast where a limit applies, and recorded after it exactly if nothing was reserved |
| WalletGate.RetryKeepsReservation | handler/wallet.go:1288-1370 | a transfer whose broadcast may be retried keeps its reservation |
| IntText.ParseShow | chain/tx_eth.go:286-298 | every integer is read back from its decimal text |
| IntText.ParsePlus | chain/tx_eth.go:429-451 | a plus sign before digits is read over, and anything else after it is refused |
| IntText.ParseHexText | chain/tx_eth.go:109-125 | every number a node spells in hex after `0x` is read as that number |
| IntText.HexDigitExactly | chain/tx_eth.go:459-465 | a character is a hex digit exactly if it is one of the two spellings of it |
| IntText.HexBack | chain/tx_eth.go:640-652 | every byte string is read back from its hex text, which is never mistaken for one with a prefix |
| IntText.HexDecodeExactly | chain/tx_eth.go:459-465 | decoding accepts exactly two hex digits, in either case, for every byte |
| EthTx.Fetch | chain/tx_eth.go:109-247 | nonce, fees and chain id from any answers of the node; the tip has its floor, the cap covers it exactly when the base fee is not negative |
| EthTx.FetchedNumbers | chain/tx_eth.go:109-247 | with a node that spells its numbers: that nonce and chain id, the larger of the suggested tip and 0.001 gwei, and twice the base fee on top |
| EthTx.WithoutBaseFee | chain/tx_eth.go:183-217 | a block without a base fee counts as one of zero: the cap is the tip |
| EthTx.TxHasFetched | chain/tx_eth.go:264-348 | both builders and the refresh sign the fetched nonce, chain id, tip and cap |
| EthTx.PositivePaymentsBuilt | chain/tx_eth.go:264-301 | with a node that answers, exactly the payments of nothing or less are refused |
| EthTx.EstimatedCallsBuilt | chain/tx_eth.go:589-660 | with a node that answers, a call is built exactly when there is a gas estimate |
| EthTx.SilentNode | chain/tx_eth.go:109-247 | one question without an answer stops both builders and the refresh |
| EthTx.GasPlusFifth | chain/tx_eth.go:636-638 | a call gets the estimate plus a fifth, rounded down |
| EthTx.BuiltIsBroadcast | chain/tx_eth.go:264-301 | for every order and all answers of the node the broadcast recovers from the stored text exactly the transaction whose hash was signed |
| EthTx.SignedIsBroadcast | chain/tx_eth.go:483-545 | a signature of 64 bytes or more is attached to the transaction the stored text stands for, a shorter one to nothing |
| EthTx.AddressRead | chain/tx_eth.go:282-282 | whichever of its usual spellings is given, upper or lower case, with or without prefix, the twenty bytes spelled are the recipient |
| EthTx.AddressOfBytes | chain/tx_eth.go:282-282 | shorter byte strings are padded on the left, longer ones lose their front |
| EthTx.BuiltCarries | chain/tx_eth.go:589-660 | the built transaction pays the twenty bytes the order spells, with its value and data, and 21000 gas for a payment |
| EthTx.RebuiltIsBroadcast | chain/tx_eth.go:305-348 | the same after a refresh at approval time, for all stored parameters |
| EthTx.RebuildKeeps | chain/tx_eth.go:305-348 | a refresh works exactly when the node answers and the stored request can be read, and keeps recipient, value, data and gas |
| EthTx.ApprovedCarriesOrder | handler/approval.go:449-487 | from order to approval, whatever the node answers each time, what is signed pays the address spelled in the order, with its value and data |
| EthTx.FeesOrderedIff | chain/tx_eth.go:202-217 | built and rebuilt fees have 0 <= tip <= cap if and only if the reported base fee is not negative |
| EthTx.NegativeBaseFee | chain/tx_eth.go:190-204 | a node answering "-1" as base fee makes a transaction whose cap is below its tip |
| EthTx.LegacyRead | chain/tx_eth.go:438-457 | a record from before there were two fees is read with its gas price as both |
| EthTx.NewFeesFirst | chain/tx_eth.go:438-447 | a record that has both fees is read with them, whatever gas price it has |
| EthTx.PrefixedData | chain/tx_eth.go:459-465 | stored calldata may carry a prefix |
| EthTx.FreshFees | chain/tx_eth.go:202-217 | the tip has its floor, and the cap covers the tip exactly when the base fee is not negative |
| FeeBump.BumpRaises | chain/tx_eth.go:356-387 | a bump raises a fee by more than 12.5 percent, by at most a quarter plus one, and is monotone |
| FeeBump.BumpGas | chain/tx_eth.go:369-387 | on success both fees read back more than 12.5 percent higher, cap covering tip, tip within 10 gwei, nothing else changed; on failure nothing changed |
| FeeBump.PrepareRetry | handler/wallet.go:1314-1367 | the step between two rounds, tied to the function whose meaning NextAnswered and NextExists state |
| FeeBump.NextAnswered | handler/wallet.go:1319-1353 | an underpriced transaction is replaced at the same nonce with both fees a quarter up plus one wei; a spent nonce by the number the node spells, at the same fees |
| FeeBump.NextExists | handler/wallet.go:1319-1367 | there is another round exactly when the answer is retryable, its data readable and, for a bump, the tip stays within 10 gwei |
| FeeBump.SignAndBroadcast | handler/wallet.go:1273-1371 | from any message: at most four signings whatever signer and node answer; each round is what the answer before calls for, and the loop ends below four only when no retry is possible |
| FeeBump.RoundsEscalate | handler/wallet.go:1288-1370 | each signed transaction differs from the one before by a fresh nonce or by one bump of both fees |
| FeeBump.IntentKept | handler/wallet.go:1273-1371 | recipient, value, data, gas and chain of every signed transaction are those of the first |
| FeeBump.FeesBounded | handler/wallet.go:1319-1369 | fees after i rounds are the first fees bumped at most i times, cap at least tip, bumped tip within 10 gwei |
| FeeBump.FinalFees | handler/wallet.go:1273-1371 | cap and tip of every round are at most 125/64 of the first plus 4 wei and never lower |
| FeeBump.SendOrder | handler/wallet.go:746-985 | the direct path from request to last round: every round broadcasts what was signed and pays the address the order spells, fees stay bounded |
| FeeBump.SendApproved | handler/approval.go:449-602 | the approval path from stored text to broadcast: what is signed is what is broadcast, and it is the stored order |
| SolanaDispatch.DispatchersAgree | handler/wallet.go:1391-1415 | on any stored object both dispatchers agree if and only if the two tests for a wrap give the same answer |
| SolanaDispatch.BuiltIsFound | handler/approval.go:403-447 | on every record a builder stored both dispatchers find that record |
| SolanaDispatch.Rebuilt | chain/tx_sol.go:886-927 | a rebuilt record is again one a builder could have stored |
| SolanaDispatch.Refresh | handler/approval.go:403-487 | what is signed after a refresh is what the broadcast recomputes, field by field the approved request, with the fresh blockhash whenever there is one and the stored message otherwise |
| RateSpec.WindowBound | handler/ratelimit.go:45-69 | over every run each half-open window of the configured length holds at most `limit` accepted requests per key |
| RateSpec.RefusedOnlyWhenFull | handler/ratelimit.go:63-69 | a request is refused if and only if its window holds exactly that many |
| RateLimit.Slide | handler/ratelimit.go:52-61 | the in-place compaction keeps exactly the recent timestamps |
| RateLimit.Refill | handler/ratelimit.go:148-154 | so does appending to the emptied slice |
| RateLimit.Evict | handler/ratelimit.go:82-94 | the sweep drops exactly the keys without a recent timestamp |
| RateLimit.RateLimiter.Allow | handler/ratelimit.go:45-69 | answers as the full history would, whatever was compacted or evicted |
| RateLimit.RateLimiter.Cleanup | handler/ratelimit.go:73-98 | evicts without touching what later answers depend on |
| RateLimit.IPRateLimiter.Exceeded | handler/ratelimit.go:135-162 | the opposite answer from the same specification |
| RateLimit.IPRateLimiter.Cleanup | handler/ratelimit.go:166-191 | evicts without touching what later answers depend on |
| RateLimit.ServeKeys | handler/ratelimit.go:45-98 | every run of requests and sweeps against a new limiter answers as the specification, and as the same run without its sweeps |
| RateLimit.ServeAddresses | handler/ratelimit.go:135-191 | so does every run against the per-address limiter |
| EventStream.SplitAppend | plugin/src/approval-watcher.ts:218-220 | cutting text in one go, or cutting a first part and then its remainder with what follows, gives the same blocks |
| EventStream.StreamBack | handler/sse_hub.go:22-28 | reading a printed stream yields exactly its events if and only if every field is one trimmed line |
| EventStream.EventOnTheWire | handler/sse_hub.go:22-28 | the text of one event, and that the watcher reads it back |
| EventStream.ObjectClean | handler/sse_hub.go:22-28 | a JSON object printed on one line meets the condition |
| EventStream.MessagesClean | plugin/src/approval-watcher.ts:241-252 | whatever arrives, only trimmed single-line fields are reported |
| EventStream.CommentIgnored | handler/sse.go:47-76 | comment frames carry no event |
| EventStream.DroppedStream | plugin/src/approval-watcher.ts:211-225 | a connection that drops anywhere delivers a prefix |
| EventStream.HandleMessage | plugin/src/approval-watcher.ts:241-252 | the line loop reads the last event and data field |
| EventStream.ReadStream | plugin/src/approval-watcher.ts:211-225 | the buffer loop's messages depend on the text alone, not on how it was cut |
| EventStream.Deliver | plugin/src/approval-watcher.ts:211-262 | the payloads of the frames named approval_resolved reach the handler, all and in order, or a prefix if the stream is cut short |
| Watcher.RunKeeps | plugin/src/approval-watcher.ts:266-387 | after every run with crashes at any step, every recent announcement has a tombstone on disk and in memory |
| Watcher.AnnouncedOnce | plugin/src/approval-watcher.ts:266-387 | two announcements of one approval were claimed more than thirty days apart |
| Watcher.TrackedIsAnnounced | plugin/src/approval-watcher.ts:127-387 | a session that tracks an approval and saves the file is told of its resolution within a day, through any crashes, restarts, sweeps and other approvals |
| Watcher.SweptExactly | plugin/src/approval-watcher.ts:144-163 | a sweep drops exactly routes older than a day and tombstones older than thirty |
| Watcher.AnnouncedAgain | plugin/src/approval-watcher.ts:144-163 | the bound is exact: a run that announces twice thirty days and a millisecond apart |
| Watcher.AnnouncedWhereTracked | plugin/src/approval-watcher.ts:127-131 | an announcement only goes to a session tracked for that approval |
| Watcher.FallbackUnused | plugin/src/approval-watcher.ts:339-387 | a watcher that has the file to itself never takes a route from it |
| WatcherCode.SweepTracked | plugin/src/approval-watcher.ts:149-155 | deleting while walking leaves exactly the fresh routes |
| WatcherCode.SweepNotified | plugin/src/approval-watcher.ts:156-161 | deleting while walking leaves exactly the fresh tombstones |
| WatcherCode.LoadTracked | plugin/src/approval-watcher.ts:457-466 | loading keeps exactly the routable, fresh entries |
| WatcherCode.LoadNotified | plugin/src/approval-watcher.ts:468-477 | loading keeps exactly the fresh tombstones |
| WatcherCode.ApprovalWatcher.constructor | plugin/src/approval-watcher.ts:108-116 | starting is the machine's start, from any file |
| WatcherCode.ApprovalWatcher.LoadPersistedMap | plugin/src/approval-watcher.ts:437-485 | memory is replaced by what the file holds, in both layouts |
| Watcher.SavedIsLoaded | plugin/src/approval-watcher.ts:437-512 | what was saved is loaded unchanged if and only if every route can still be followed and no tombstone has aged out |
| WatcherCode.ApprovalWatcher.TrackApproval | plugin/src/approval-watcher.ts:127-131 | tracking is the machine's track and save |
| WatcherCode.ApprovalWatcher.Cleanup | plugin/src/approval-watcher.ts:144-163 | a tick is the machine's sweep, saved only if something changed |
| WatcherCode.ApprovalWatcher.ClaimApproval | plugin/src/approval-watcher.ts:325-387 | who gets to announce, from memory or from disk, and what is written before |
| WatcherCode.ApprovalWatcher.OnApprovalResolved | plugin/src/approval-watcher.ts:266-323 | an event is exactly the machine's steps up to the next idle point |
| EmailVerification.WithDefaults | handler/email_verification.go:44-55 | all three settings end up positive, good ones unchanged |
| EmailVerification.Defaults | handler/email_verification.go:44-55 | the defaults are ten minutes, one minute and five guesses |
| EmailVerification.RunKeeps | handler/email_verification.go:133-291 | after every run the table agrees with the history of codes, guesses and ids |
| EmailVerification.ConsumedAtMostOnce | handler/auth.go:246-271 | over every run no verification id is consumed twice |
| EmailVerification.ConsumedWasVerified | handler/email_verification.go:200-291 | a consumed id belongs to an address to which a code was sent, presented and used before it expired |
| EmailVerification.VerifiedAgain | handler/email_verification.go:231-245 | verifying again returns the same id, and different rows have different ids |
| EmailVerification.GuessesBounded | handler/email_verification.go:220-229 | no row is compared with more than MaxAttempts wrong codes |
| EmailVerification.SentIsNewest | handler/email_verification.go:133-190 | a sent code is the newest row of its address and lives for the configured time |
| EmailVerification.OtherRowsStay | handler/email_verification.go:162-166 | sending removes the address's expired rows and touches no other row |
| EmailVerification.ResendAfterCooldown | handler/email_verification.go:150-160 | after a code was sent the next may be sent exactly when the cooldown is over or the code is dead |
| EmailVerification.RightCodeVerifies | handler/email_verification.go:200-246 | the right code within its lifetime gets an id as long as the guesses are not used up |
| EmailVerification.ExhaustedMakesRoom | handler/email_verification.go:220-224 | with the guesses used up even the right code is refused, and a new one may be sent |
| EmailVerification.CodeRegisters | handler/email_verification.go:133-291 | a code sent, presented and used makes a user of the address exactly as long as the code lives |
| EmailService.CheckFormat | handler/email_verification.go:93-110 | accepts exactly one `@` inside, a dot in the domain, 5 to 254 characters |
| EmailService.QueryNewest | handler/email_verification.go:204-212 | the newest row of an address, if any |
| EmailService.EmailVerificationService.SendCode | handler/email_verification.go:133-190 | one step of the machine, with each refusal exactly when it applies |
| EmailService.EmailVerificationService.VerifyCode | handler/email_verification.go:200-246 | one step of the machine, and which answer leaves which trace |
| EmailService.EmailVerificationService.LookupVerification | handler/email_verification.go:252-268 | finds the address exactly when the id could be consumed now |
| EmailService.EmailVerificationService.ConsumeVerification | handler/email_verification.go:274-291 | one step of the machine: row and user change together or not at all |

## Left out

- HTTP handlers, JSON binding, audit text, middleware, address book, contract whitelist, wallet records and the chain registry: plumbing that would add only easy members.
- Keccak, SHA-256, Ed25519 and ECDSA, the TEE SDK and WebAuthn: a selector is a parameter, a digest is a collision-free constructor, signer and passkey answers are arbitrary.
- JSON-RPC transport, retries and price fetching: arbitrary answers; the stored JSON object is its fields.
- The recovery id of an ECDSA signature, and the conversion of an ETH amount from decimal text to wei: the wei are given.
- Floating point and decimal text: amounts are integers (micro-USD, base units); the rounding of the native-SOL rebuild through float64 is an arbitrary positive amount in `SolanaDispatch.Refresh`.
- Conversion of ABI arguments from JSON (hex, decimal text, address checks): arguments are taken after conversion; encodings longer than a 63-bit length cannot exist in Go and are excluded from the round trip.
- FindProgramAddress and the multi-instruction token-transfer and wrap messages: fixed layouts without further dispatch.
- Wall-clock saturation in the rate limiters; timestamps are unbounded integers.
- UTF-8 decoding of stream chunks: chunks are taken as the text the stateful decoder yields; the subscriber hub and its bounded channels are not modelled.
- Watcher files whose entries lack numeric timestamps, a watcher without a storage path, and two processes sharing one file.
- The "already known" answer of a node: an accepted transaction is appended to the chain once per accepted broadcast.
- Failed database writes, except the rollback of a mail that could not be sent and of a registration that was not committed.
- E-mail addresses before trimming and lower-casing.
- WalletLedger.LedgerInvRun: covers runs without a policy edit and with each refund on the day of its reservation, because a refund across midnight really unbalances the books; contract calls never refund, so their failed reservations stay counted.
- WalletLedger.SpentWithinLimit: the upper bound is the limit plus spends recorded after the fact, because those are recorded without a check.
- WalletApproval.AtMostOneEffect: speaks about effects; what the status labels mean is the subject of WalletRows and WalletOutcome.
- WalletOutcome.HappenedIsLabelled: allows "expired" as well as "approved", because the expiry written by a viewer is unconditional (`WalletOutcome.ExpiredThoughApplied`).
- Whether an approval's own spend can be priced, and so is reserved or recorded, is an arbitrary answer in the step machine; price lookups are the subject of SpendingPolicy.
- SpendingPolicy.Govern: requests run one at a time; interleavings are the subject of WalletLedger and WalletGate, where the policy does not change during a run.
- AbiTypes.IsDynamicAgrees: says nothing about unsupported types, on which the string test reads cut-off text; what matters there is that the encoder refuses them, which AbiSupport.SupportedExactly states.
