# wDingocoin bridge authority: a Dafny model

The wDingocoin bridge moves coins between the Dingocoin chain and an SPL
token on Solana. A fixed set of authority nodes controls the bridge. Each
node holds one key of every multisig deposit address and keeps its own
SQLite database of registered deposit addresses and submitted
withdrawals. An operator console (`cli.js`) coordinates the nodes.

- **Mints.** The operator asks the nodes to agree on what each deposit
  address may still mint. Every node then checks the request against its
  own chain view and database before it signs.
- **Payouts.** Tax on deposits and withdrawals is paid out in one
  Dingocoin transaction. The nodes co-sign it in turn. Each node first
  re-validates the proposal, its inputs and the transaction's outputs.

This project models the node (`authorityDaemon.js`) and the parts of its
helpers it relies on: the RPC wrappers and amount conversions of
`dingo.js`, the signed-message envelope and burn decoder of
`splToken.js`, and the tables of `database.js`. It also models how the
console merges the nodes' answers (`cli.js`).

## Modules

| module | models |
|---|---|
| `Results` | the error path of the code (`throw`) as a `Result` |
| `Js` | the JSON values nodes exchange, and `split`/`join` |
| `Decimal` | `BigInt(s)` with its white-space trim and `0x`/`0o`/`0b` forms, `toString()`, and Web3's gwei conversions |
| `Dicts` | JS objects used as dictionaries, with their key order |
| `Sorting` | the ascending `fast-sort` used by `verifyRawTransaction` |
| `Dingo` | `toSatoshi`/`fromSatoshi`, the received-amount readers, `listUnspent`, `verifyRawTransaction` |
| `SplToken` | signed messages, `isAddress`, `getBurn` |
| `TimedMessage` | the block-height and block-hash anchor that keeps a message fresh |
| `Database` | the three tables and the queries on them; writers are methods of class `Store` |
| `Accounting` | the node's computations: tax, pending mints and payouts, `validatePayouts`, `computeVouts` |
| `Settlement` | what `applyPayouts` writes back |
| `Handlers` | each HTTP handler's checks, up to its state change |
| `Approval` | `computePendingPayouts`, `computeUnspent`/`validateUnspent`, and the checks before a payout signature |
| `Node` | class `AuthorityNode`: the locked handlers as methods over a `Store`, and the loops of the code as methods |
| `Cli` | the console's consensus merges, flag parsing and approval rounds |

External effects are parameters of the functions and methods that need
them:

- the chain's tip height and block hashes;
- `listreceivedbyaddress` entries and `listunspent` answers;
- `createmultisig`, `createrawtransaction`, `decoderawtransaction`,
  `signrawtransaction`, `verifyAddress`, `getTransaction`;
- base58 decoding, message signing and verification, and
  `JSON.stringify`;
- each node's validated answers to the console.

A handler's validated request is passed in whole. So is the `Envelope`
(tip height, sync delay, hash lookup, stringify, verify).

Amounts are unbounded integers in satoshi (10^-8 coin). The code keeps
them as decimal strings and `BigInt`s, so they do not wrap. Where it
mixes in JS `Number`s, the model uses exact integers (see "Left out").

## Model

| member | source | states |
|---|---|---|
| Results.Need | authorityDaemon.js:413-415 | a guard passes exactly when its condition holds, and fails with its message otherwise |
| Js.SplitPiecesFree | splToken.js:206-209 | no piece of `s.split(c)` contains `c` |
| Js.SplitLength | splToken.js:206-209 | `split` returns one more piece than the string has separators |
| Js.JoinSplit | splToken.js:206-209 | joining the pieces of a split gives back the string |
| Js.SplitJoin | splToken.js:206-209 | splitting a join of separator-free pieces gives back the pieces |
| Decimal.NatToStringValue | authorityDaemon.js:38-44 | `toString` writes only digits, and reading them gives back the number |
| Decimal.ParseIntToString | authorityDaemon.js:38-44 | `BigInt(i.toString()) == i` for every integer |
| Decimal.ParsePadded | authorityDaemon.js:502 | `BigInt` reads a literal the same with white space around it |
| Decimal.ParseHex | authorityDaemon.js:502 | `BigInt("0x" + h)` reads the hexadecimal digits `h` |
| Decimal.IntToStringInjective | authorityDaemon.js:743-744 | distinct integers print differently |
| Decimal.ReadsWhole | dingo.js:37-42 | a run of digits reads as that many whole coins in gwei |
| Decimal.ReadsWithFraction | dingo.js:37-42 | digits, a point and up to nine digits read as coins plus gwei |
| Decimal.UnsignedDecimalReads | dingo.js:44-49 | what `fromWei` prints reads back as the same whole part and remainder |
| Decimal.GweiRoundTrip | dingo.js:37-49 | `toWei(fromWei(n, "gwei"), "gwei") == n` for every integer |
| Dicts.IndexByKeys | authorityDaemon.js:628-631 | filing elements by key yields exactly the elements' keys |
| Dicts.IndexByLast | authorityDaemon.js:628-631 | each key is bound to the last element carrying it |
| Dicts.TotalAddTo | authorityDaemon.js:768-772 | adding `x` under one key raises the total by exactly `x` |
| Dicts.AddToValid | authorityDaemon.js:768-772 | adding under one key keeps the dictionary well formed and changes only that key |
| Sorting.SortByCorrect | dingo.js:192-193 | the sort is a permutation of its input, in ascending key order |
| Sorting.SortByMembers | dingo.js:192-193 | the sort has exactly the members of its input |
| Sorting.SortByLength | dingo.js:192-193 | the sort keeps the length |
| Sorting.SortedUnique | dingo.js:192-197 | two ascending orders of one multiset with distinct keys are equal |
| Sorting.SortByMap | dingo.js:192-193 | sorting then mapping equals mapping then sorting, when the map keeps the key |
| Dingo.ToSatoshi | dingo.js:37-42 | a value that is not a non-empty string is refused with "Expected string input" |
| Dingo.FromSatoshi | dingo.js:44-49 | a value that is not a non-empty string is refused with "Expected string input" |
| Dingo.WholeCoinsToGwei | dingo.js:37-42 | `toWei(n)` of a whole number is `n * 10^9` |
| Dingo.ToSatoshiOfCoins | dingo.js:37-42 | `toSatoshi` of `n` whole coins is `n * 10^8` |
| Dingo.SatoshiRoundTrip | dingo.js:37-49 | `toSatoshi(fromSatoshi(s)) == s` for every integer written in decimal |
| Dingo.ReceivedDictKeys | dingo.js:136-143 | the received dictionary has exactly the addresses with an entry |
| Dingo.ReceivedDictLast | dingo.js:136-143 | each address maps to its last entry |
| Dingo.ListReceivedByAddress | dingo.js:136-143 | the loop builds the dictionary: exactly the addresses with an entry, each bound to its last |
| Dingo.GetReceivedAmountByAddress | dingo.js:145-151 | the amount is `0` exactly when the address has no entry, and otherwise is its last entry's amount |
| Dingo.AmountsDictSpec | dingo.js:153-164 | the result is keyed by exactly the asked addresses, each with its received amount |
| Dingo.AmountsDictKeys | dingo.js:153-164 | the keys are exactly the asked addresses |
| Dingo.AmountsDictValues | dingo.js:153-164 | each key holds its received amount or `0` |
| Dingo.GetReceivedAmountByAddresses | dingo.js:153-164 | the loop computes that dictionary |
| Dingo.ListUnspent | dingo.js:166-172 | no addresses, or an empty list, give `[]` without an RPC call; otherwise the RPC's answer |
| Dingo.ListUnspentAsksNothing | dingo.js:166-172 | with no addresses the answer does not depend on the RPC |
| Dingo.OutpointKeyInjective | dingo.js:192-193 | for txids of one length, equal sort keys mean equal outpoints |
| Dingo.CheckVinsOrderFree | dingo.js:188-197 | the input half passes exactly when the transaction spends the proposed outputs as a multiset |
| Dingo.ProposedKeysDistinct | dingo.js:192-193 | the proposed outpoints have distinct sort keys |
| Dingo.CheckVinsKeyCollision | dingo.js:192-197 | with txids of unequal length, `txid + vout` can collide and reorder inputs (`"a"+"12"` and `"a1"+"2"`) |
| Dingo.EveryMatchesSpec | dingo.js:211-216 | an `every` over the pairs passes exactly when each pair matches the map |
| Dingo.PairsToMapSpec | dingo.js:206-207 | `new Map(pairs)` has exactly the pairs' keys, and binds each to one of its pairs |
| Dingo.PairsOfKeysToMap | dingo.js:200-207 | the proposed pairs, as a map, are the payout dictionary on those keys |
| Dingo.ProposedPairsSpec | dingo.js:200-207 | the proposed pairs are the payout dictionary itself |
| Dingo.StandardPairsSpec | dingo.js:201-205 | the filter keeps all outputs exactly when each is a standard single-address output |
| Dingo.PayeesCovered | dingo.js:198-216 | when the counts agree and every payee is paid, every output is standard and pays a different address |
| Dingo.CheckVoutsSteps | dingo.js:198-216 | the output half is the count check followed by the two `every` checks |
| Dingo.KeysCovered | dingo.js:214-216 | the second `every` puts every payee among the outputs |
| Dingo.CheckVoutsSound | dingo.js:198-216 | an accepted transaction pays every payee once, with its amount |
| Dingo.OutPairsMatch | dingo.js:211-213 | the first `every` makes each output pay a payee its amount |
| Dingo.PayeesPresent | dingo.js:214-216 | every payee has an output |
| Dingo.TxPairsPaid | dingo.js:211-213 | outputs that pay the payees pass the first `every` |
| Dingo.PayeePaid | dingo.js:214-216 | each payee's output carries its amount in satoshi |
| Dingo.PayeeListed | dingo.js:206-207 | each payee is a key of the transaction's output map |
| Dingo.PayeeAmount | dingo.js:211-213 | each key of the output map is a payee with that amount |
| Dingo.ProposedPairsPaid | dingo.js:214-216 | outputs that pay the payees pass the second `every` |
| Dingo.CheckVoutsComplete | dingo.js:198-216 | a transaction that pays every payee once, with its amount, is accepted |
| Dingo.CheckVoutsSpec | dingo.js:198-216 | the output half passes exactly when the outputs pay the payees one to one |
| Dingo.VerifyRawTransactionSpec | dingo.js:186-218 | `verifyRawTransaction` passes exactly when the transaction spends the proposed outputs and pays the payouts one to one; a bad input half is reported first |
| SplToken.CreateSignedMessage | splToken.js:72-77 | the message is `{data, signature}`, with the signature over the stringified data |
| SplToken.CheckStructure | splToken.js:79-93 | the four structural checks in order, with their messages; passes exactly on a well-formed message |
| SplToken.ValidateSignedMessage | splToken.js:95-104 | accepts exactly a specified message whose signature verifies for the wallet, and returns the data or the message |
| SplToken.VerificationsNone | splToken.js:108-111 | the count is zero exactly when no wallet verifies |
| SplToken.VerificationsOne | splToken.js:108-113 | the count is one exactly when a single wallet verifies |
| SplToken.ValidateSignedMessageOne | splToken.js:106-118 | on success it returns the data or the message |
| SplToken.ValidateSignedMessageOneSpec | splToken.js:106-118 | accepts exactly a well-formed message that exactly one wallet verifies |
| SplToken.SignedMessageRoundTrip | splToken.js:72-104 | a message signed by a wallet validates against that wallet and yields its data |
| SplToken.GetBurnSpec | splToken.js:182-215 | `getBurn` succeeds exactly on a burn-then-memo transaction, and returns the signature, a signed 64-bit amount and the memo's second field |
| SplToken.GetBurnOfBurnTx | splToken.js:188-214 | a burn-then-memo transaction decodes |
| SplToken.Int64Range | splToken.js:203 | `readBigInt64LE` gives a signed 64-bit value |
| SplToken.Int64RoundTrip | splToken.js:203 | a signed 64-bit value written little-endian reads back |
| SplToken.AsciiRoundTrip | splToken.js:205 | ASCII text written as bytes reads back |
| SplToken.GetBurnRoundTrip | splToken.js:182-215 | a burn of `amount` with memo `head|destination|tail` decodes to that amount and destination |
| TimedMessage.CreateTimed | authorityDaemon.js:133-143 | refuses a non-object; otherwise stamps the height `blocks - syncDelay` and its hash into the data and signs it |
| TimedMessage.CheckAnchor | authorityDaemon.js:144-161 | the anchor passes exactly when the data is an object whose height is recent and whose hash is the chain's; "Message expired" for an old height |
| TimedMessage.ValidateTimed | authorityDaemon.js:144-165 | accepts exactly a fresh, correctly anchored message that verifies for the wallet |
| TimedMessage.ValidateTimedOne | authorityDaemon.js:166-187 | on success it returns the data or the message |
| TimedMessage.ValidateTimedOneSpec | authorityDaemon.js:166-187 | accepts exactly a fresh, well-formed message that exactly one wallet verifies |
| TimedMessage.FreshnessWindow | cli.js:83-115 | a message created at height `h` validates exactly while the tip is at most `h + syncDelay` |
| Database.HasUsedDepositAddresses | database.js:52-57 | true exactly when some address is in the used table |
| Database.RegisteredAreUsed | database.js:52-65 | once a non-empty batch is registered, it reads as used |
| Database.GetMintDepositAddress | database.js:74-86 | `null` exactly when no row has the mint address; a found row has it; two rows are an error |
| Database.GetMintDepositAddresses | database.js:88-97 | the rows whose deposit address is in the filter, or all rows without one |
| Database.GetWithdrawal | database.js:115-127 | `null` exactly when no row has the burn; a found row has it; two rows are an error |
| Database.GetUnapprovedWithdrawals | database.js:135-139 | exactly the rows whose approved tax is zero |
| Database.UpdateMintsSpec | database.js:100-106 | every row keeps its identity; a named row takes the counters of its last update; others are unchanged |
| Database.UpdateMintsLast | database.js:100-106 | a row takes the counters of the last update naming its deposit address |
| Database.UpdateMintsUnmatched | database.js:100-106 | a row no update names is unchanged |
| Database.UpdateWithdrawalRowsSpec | database.js:141-147 | the same for the withdrawal table, keyed by burn signature |
| Database.UpdateWithdrawalsLast | database.js:141-147 | a row takes the counters of the last update naming its burn |
| Database.UpdateWithdrawalsUnmatched | database.js:141-147 | a row no update names is unchanged |
| Database.Store.RegisterUsedDepositAddresses | database.js:59-65 | appends the addresses to the used table; the other tables are unchanged |
| Database.Store.RegisterMintDepositAddress | database.js:67-72 | appends one mint row with zero counters; the other tables are unchanged |
| Database.Store.UpdateMintDepositAddresses | database.js:100-106 | the mint table becomes `UpdateMints` of the old one; the other tables are unchanged |
| Database.Store.RegisterWithdrawal | database.js:108-113 | appends one withdrawal row with zero counters; the other tables are unchanged |
| Database.Store.UpdateWithdrawals | database.js:141-147 | the withdrawal table becomes `UpdateWithdrawalRows` of the old one; the other tables are unchanged |
| Accounting.ThresholdInSatoshi | authorityDaemon.js:30 | `AMOUNT_THRESHOLD` is `toSatoshi("100000")` |
| Accounting.DustInSatoshi | authorityDaemon.js:31 | `DUST_THRESHOLD` is `toSatoshi("1")` |
| Accounting.FeeInSatoshi | authorityDaemon.js:32 | `PAYOUT_NETWORK_FEE_PER_TX` is `toSatoshi("20")` |
| Accounting.TaxSplit | authorityDaemon.js:38-44 | tax plus amount after tax is the amount; for a non-negative amount the tax is its hundredth, rounded down, and at most the rest |
| Accounting.Satoshi | authorityDaemon.js:417 | `BigInt(toSatoshi(s))` succeeds exactly when `toSatoshi` does, and reads its result |
| Accounting.SatoshiOfCoins | authorityDaemon.js:417 | `n` whole coins read as `n * 10^8` satoshi |
| Accounting.CollectSpec | authorityDaemon.js:376-390 | a push loop that may throw: it succeeds exactly when every step does, keeps exactly the pushed values, or fails with the first failing step's error |
| Accounting.MapAllSpec | authorityDaemon.js:849-861 | a map loop that may throw: it succeeds exactly when every step does, and then holds each step's value |
| Accounting.EverySpec | authorityDaemon.js:633-652 | the checks all pass, or the first failing one gives the error |
| Accounting.DepositedSatoshi | authorityDaemon.js:377-380 | an address without deposits is an error; otherwise its deposits in satoshi |
| Accounting.PendingMintsSpec | authorityDaemon.js:366-394 | `computePendingMint` succeeds exactly when every row's deposits read; it lists each row whose mintable amount meets the threshold, and nothing else |
| Accounting.PendingMintOfSpec | authorityDaemon.js:377-389 | one step: the row's mintable amount, listed only at or above the threshold |
| Accounting.PendingMintsOk | authorityDaemon.js:376-390 | success exactly when every row's deposits read |
| Accounting.PendingMintsComplete | authorityDaemon.js:384-389 | every row at or above the threshold is listed |
| Accounting.PendingMintsSound | authorityDaemon.js:384-389 | every listed mint is a row at or above the threshold, with its amounts |
| Accounting.DepositTaxPayoutsSpec | authorityDaemon.js:538-560 | each deposit payout is the unapproved tax of one row with a balance |
| Accounting.PendingPayoutsSpec | authorityDaemon.js:532-585 | a switched-off half is empty, and the proposal has the node's own shape |
| Accounting.UnapprovedPairs | authorityDaemon.js:563-578 | the `k`-th withdrawal payout and tax payout come from the same unapproved withdrawal |
| Accounting.SumAmountsOk | authorityDaemon.js:610-612 | the sum of amounts succeeds exactly when every amount reads |
| Accounting.FeeCheck | authorityDaemon.js:613-622 | passes exactly when the tax covers the fee; otherwise the message names the fee in coins |
| Accounting.FeeMessageLost | authorityDaemon.js:616-621 | the code as written replaces the fee message by "Expected string input" |
| Accounting.CheckTaxFits | authorityDaemon.js:640-651 | the amount checks pass exactly when the requested tax fits what the row has earned |
| Accounting.CheckDepositTaxSpec | authorityDaemon.js:633-652 | a deposit payout passes exactly when its address has a balance and its row has room; both refusals have their messages |
| Accounting.CheckPaysBurn | authorityDaemon.js:676-701 | the row checks pass exactly when both payouts pay the unapproved burn its split, to its destination |
| Accounting.CheckWithdrawalSpec | authorityDaemon.js:662-701 | a withdrawal pair passes exactly when the signatures agree and the one row of that burn is paid correctly; an unknown burn is "Withdrawal not registered" |
| Accounting.CheckWithdrawalAccepts | authorityDaemon.js:662-701 | an allowed pair passes |
| Accounting.CheckWithdrawalSound | authorityDaemon.js:662-701 | a passing pair is allowed |
| Accounting.CheckWithdrawalUnregistered | authorityDaemon.js:670-675 | a burn with no row is refused as not registered |
| Accounting.GetWithdrawalOnly | database.js:115-127 | a burn held by one row returns that row, and a returned row is the only one with its burn |
| Accounting.CheckDepositTaxesSpec | authorityDaemon.js:625-652 | the deposit loop passes exactly when every deposit payout is allowed |
| Accounting.CheckWithdrawalsSpec | authorityDaemon.js:655-702 | the withdrawal loop passes exactly when every pair is allowed |
| Accounting.ValidatePayoutsSpec | authorityDaemon.js:605-703 | `validatePayouts`, with the corrected fee message of Findings, passes exactly when the tax covers the fee, every deposit payout is allowed, the lists pair up and every pair is allowed |
| Accounting.DepositTaxOfFits | authorityDaemon.js:544-559 | a deposit payout the node proposes passes the check on its own row |
| Accounting.DepositTaxOfAmount | authorityDaemon.js:548-555 | a proposed deposit payout is the row's earned tax less its approved tax |
| Accounting.ProposalDepositAllowed | authorityDaemon.js:625-652 | with distinct deposit addresses, each proposed deposit payout is allowed |
| Accounting.ProposalWithdrawalAllowed | authorityDaemon.js:655-702 | with distinct burns, each proposed withdrawal pair is allowed |
| Accounting.ProposalDepositsAllowed | authorityDaemon.js:605-652 | the proposed deposit amounts sum, and each is allowed |
| Accounting.ProposalWithdrawalsAllowed | authorityDaemon.js:605-702 | the proposed withdrawal taxes sum, and each pair is allowed |
| Accounting.ProposalShapeValid | authorityDaemon.js:605-703 | a proposal of the node's shape is valid exactly when its tax covers the fee |
| Accounting.ProposalVerdict | authorityDaemon.js:605-703 | for such a proposal, `validatePayouts` comes down to the fee check |
| Accounting.ProposalPasses | authorityDaemon.js:532-703 | the node's own pending proposal passes `validatePayouts` unless the fee check refuses it |
| Accounting.ValidAccepted | authorityDaemon.js:605-703 | a valid proposal is accepted, fee check included |
| Accounting.FeeRefusal | authorityDaemon.js:613-622 | a proposal whose tax is below the fee is refused by the fee check first |
| Accounting.WithdrawalVoutsTotal | authorityDaemon.js:766-773 | the withdrawal outputs succeed exactly when the amounts read, and total their sum |
| Accounting.WithdrawalVoutsKeys | authorityDaemon.js:766-773 | the withdrawal outputs are keyed by exactly the destinations |
| Accounting.WithdrawalVoutsLast | authorityDaemon.js:768-772 | the last payout adds its destination to the keys of the others |
| Accounting.PayEachTotal | authorityDaemon.js:787-793 | paying `x` to each of `n` tax addresses raises the total by `n * x` |
| Accounting.TaxShareSpec | authorityDaemon.js:776-786 | a share exists exactly when the tax covers the fee and there are tax addresses; less than one satoshi per address is left unpaid |
| Accounting.TaxedVoutsTotal | authorityDaemon.js:765-793 | before the change, the outputs total the withdrawals plus the tax shares |
| Accounting.RawVouts | authorityDaemon.js:765-814 | the outputs with change, plus the fee, spend the inputs to the satoshi |
| Accounting.WithChange | authorityDaemon.js:796-814 | the change exists exactly when the inputs cover the outputs and the fee, and makes them balance |
| Accounting.Coins | authorityDaemon.js:820 | `fromSatoshi(v.toString())` always succeeds |
| Accounting.CoinsRoundTrip | authorityDaemon.js:820 | an output written as coins reads back as its satoshi |
| Accounting.DustFilteredSpec | authorityDaemon.js:816-822 | exactly the outputs of at least one coin are kept, each written as coins |
| Accounting.ComputedVoutsSpec | authorityDaemon.js:759-825 | `computeVouts` spends inputs equal to outputs plus fee before the dust filter, and keeps exactly the non-dust outputs as coins |
| Settlement.ApplyDepositTaxes | authorityDaemon.js:838-846 | the deposit loop keeps the set of rows |
| Settlement.ApplyDepositTaxesOk | authorityDaemon.js:838-846 | the deposit loop succeeds exactly when every payout names a read row and its amount reads |
| Settlement.ApplyDepositTaxesRows | authorityDaemon.js:838-846 | each read row gains the sum of the taxes paid to its address |
| Settlement.PayoutRowsKeyed | authorityDaemon.js:832-837 | the rows read are filed under their own deposit address |
| Settlement.PayoutRowsHold | authorityDaemon.js:832-837 | a row is read exactly when a payout names its address, and is read as stored |
| Settlement.AppliedMintsOk | authorityDaemon.js:832-847 | the deposit step succeeds exactly when every payout names a registered row and its amount reads |
| Settlement.AppliedNamedRow | authorityDaemon.js:838-847 | a read row is written back with its taxes added |
| Settlement.AppliedUnnamedRow | authorityDaemon.js:832-847 | a row no payout names is unchanged |
| Settlement.AppliedMintRow | authorityDaemon.js:832-847 | each mint row's approved tax rises by exactly the taxes paid to its address |
| Settlement.AppliedMintsSpec | authorityDaemon.js:832-847 | the deposit step keeps the mint table's rows and raises each one's approved tax by the taxes paid to it |
| Settlement.WithdrawalUpdate | authorityDaemon.js:851-860 | a recorded row keeps the payout's burn |
| Settlement.WithdrawalUpdatesEach | authorityDaemon.js:849-861 | the withdrawal loop succeeds exactly when every step does, and records one row per payout, in order |
| Settlement.WithdrawalUpdateOk | authorityDaemon.js:851-857 | a step succeeds exactly when one row has the burn, both amounts read and the tax payout exists |
| Settlement.WithdrawalUpdateRow | authorityDaemon.js:851-859 | a step adds both amounts to the stored row |
| Settlement.WithdrawalUpdatesNamed | authorityDaemon.js:849-861 | the recorded rows are the payouts' burns, in payout order |
| Settlement.WithdrawalUpdatesAt | authorityDaemon.js:849-861 | the row recorded for payout `i` is the stored row with payout `i`'s amounts added |
| Settlement.AppliedWithdrawalRow | authorityDaemon.js:849-862 | a paid withdrawal row takes the amounts of the last payout of its burn, once |
| Settlement.AppliedWithdrawalUnnamed | authorityDaemon.js:849-862 | a withdrawal no payout names is unchanged |
| Settlement.AppliedWithdrawalsOk | authorityDaemon.js:849-862 | the withdrawal step succeeds exactly when every payout can be recorded |
| Handlers.Validated | authorityDaemon.js:144-165 | a request is accepted exactly when its envelope is, and yields its data |
| Handlers.GenerateDepositAddress | authorityDaemon.js:224-244 | succeeds exactly for a valid mint address that has a token account, and returns it with a new deposit address |
| Handlers.TokenAccountNeverChecked | authorityDaemon.js:230-235 | the handler as written succeeds exactly on a valid mint address, and agrees with the checked handler whenever that succeeds |
| Handlers.TokenAccountWitness | authorityDaemon.js:233-235 | a mint address with no token account is served as written and refused by the checked handler |
| Handlers.ResponseDataSpec | authorityDaemon.js:257-264 | the responses are accepted exactly when each verifies for its node, and yield their data in order |
| Handlers.RegistrationFromSpec | authorityDaemon.js:265-281 | the data yields a registration exactly when the nodes agree on a valid mint address and each gives a deposit address |
| Handlers.DataOfResponses | authorityDaemon.js:265-276 | that condition, restated on the responses |
| Handlers.RegistrationSpec | authorityDaemon.js:251-281 | the wrong number of responses is "Incorrect authority count"; otherwise a registration is built exactly from valid responses, one deposit address per node |
| Handlers.RegistrationNotReplayable | authorityDaemon.js:282-289 | once registered, the same deposit addresses read as used |
| Handlers.Amount | authorityDaemon.js:502 | an amount field is read when it is a string or a Number; a Number as its decimal text, which `BigInt` reads back as that integer |
| Handlers.MintRequestOf | authorityDaemon.js:404-420 | the request is `data.mint`'s two address strings and its amount, a string or a Number |
| Handlers.ReceivedSatoshi | authorityDaemon.js:417 | a received amount that is not a string is refused by `toSatoshi` |
| Handlers.OnlyMintFound | authorityDaemon.js:410-412 | the mint lookup finds a row exactly when one row has the mint address |
| Handlers.MintApprovalAt | authorityDaemon.js:405-433 | with that row, approval succeeds exactly when the request is allowed, and adds the amount; a wrong deposit address is "Deposit address details incorrect" |
| Handlers.MintApprovalSpec | authorityDaemon.js:405-433 | approval succeeds exactly when one row has the mint address and allows the request, and adds the amount to that row |
| Handlers.MintApprovalBound | authorityDaemon.js:417-433 | an approved row never passes the deposits after tax, and a non-negative request never lowers it |
| Handlers.NoDepositNoMint | authorityDaemon.js:406-424 | an address with no deposits is refused |
| Handlers.BurnStatusSpec | authorityDaemon.js:473-481 | `null` exactly for an unknown burn; SUBMITTED or APPROVED by its tax; two rows are an error |
| Handlers.BurnClaimOf | authorityDaemon.js:495-512 | the claim is `data.burn`'s signature and destination strings and its amount, a string or a Number |
| Handlers.WithdrawalOfSpec | authorityDaemon.js:499-521 | a claim is accepted exactly when it passes every check, and registers the burn with zero counters; a known burn is "Withdrawal already submitted" |
| Handlers.WithdrawalKeepsBurnsDistinct | authorityDaemon.js:506-521 | registering keeps burns distinct, and the same claim is then refused |
| Approval.PendingProposal | authorityDaemon.js:586-603 | a proposal is computed only from a request one node signed; switched-off halves are empty; it has the node's own shape |
| Approval.UnspentSources | authorityDaemon.js:706-722 | the node's outputs are the change address's, plus those of registered deposit addresses that received coins, asked only when there are any |
| Approval.UnspentCheck | authorityDaemon.js:740-756 | a refusal is "Non-existent UTXO" |
| Approval.HashSeparators | authorityDaemon.js:743-744 | the key of an output whose fields hold no separator holds exactly four |
| Approval.UtxoHashInjective | authorityDaemon.js:743-744 | an output whose fields hold no separator shares its key with no other output, whatever that output's fields hold |
| Approval.UnspentCheckExact | authorityDaemon.js:740-756 | when the node's own outputs hold no separator, the check passes exactly when every proposed output, whatever its fields, is one the node holds |
| Approval.ChainToSignChecks | authorityDaemon.js:881-904 | before signing: every proposed output's key is one of the node's and, when the node's outputs hold no separator, the output is one of them; the payouts are valid; and outputs plus fee spend the inputs exactly |
| Approval.ChainToSignTransaction | authorityDaemon.js:899-904 | the signed chain is the one received, or the one built from the proposal; it spends the proposed outputs and pays the computed outputs one to one |
| Approval.ChainToSignOrder | authorityDaemon.js:881-885 | an unheld output is refused before the payouts are read, and invalid payouts before a transaction is built |
| Node.MintAttemptSpec | authorityDaemon.js:396-425 | an approved mint comes from the coordinator, touches the one row of its mint address, and stays within the deposits after tax |
| Node.MintUpdateOnlyRow | authorityDaemon.js:431-434 | writing the approved row changes that row and no other |
| Node.StatusesSpec | authorityDaemon.js:473-481 | the history succeeds exactly when each burn's status does, and lists them in order |
| Node.WithdrawalAttemptSpec | authorityDaemon.js:494-521 | an accepted withdrawal passed every check, keeps burns distinct, and cannot be submitted again |
| Node.ValidPayoutsRecorded | authorityDaemon.js:827-863 | recording a valid proposal succeeds, and writes both tables as `Settlement` describes |
| Node.ApprovedPayoutsRecorded | authorityDaemon.js:865-914 | an approved payout was signed by the coordinator and is recorded as `Settlement` describes |
| Node.CollectLoop | authorityDaemon.js:544-559 | the push loop computes `Collect` |
| Node.MapAllLoop | authorityDaemon.js:849-861 | the map loop computes `MapAll` |
| Node.WithdrawalPayoutLoop | authorityDaemon.js:563-578 | the loop pushes, for each unapproved withdrawal, its payout and its tax payout |
| Node.HashSetLoop | authorityDaemon.js:745-749 | the loop builds the set of the node's output hashes |
| Node.UnspentCheckLoop | authorityDaemon.js:750-755 | the loop computes `UnspentCheck` |
| Node.WithdrawalVoutsLoop | authorityDaemon.js:766-773 | the loop computes the withdrawal outputs |
| Node.PayEachLoop | authorityDaemon.js:787-793 | the loop pays each tax address its share |
| Node.DustLoop | authorityDaemon.js:816-822 | the loop computes the dust filter |
| Node.DepositTaxLoop | authorityDaemon.js:838-846 | the loop computes `ApplyDepositTaxes` |
| Node.TaxedVoutsLoop | authorityDaemon.js:765-793 | the withdrawal and tax loops compute `TaxedVouts` |
| Node.RawVoutsLoop | authorityDaemon.js:765-814 | with the change, they compute `RawVouts` |
| Node.AuthorityNode.RegisterMintDepositAddress | authorityDaemon.js:278-306 | refuses invalid responses and used addresses with the store unchanged; otherwise marks the addresses used, then registers the multisig row unless `createMultisig` fails |
| Node.AuthorityNode.ComputePendingMint | authorityDaemon.js:366-394 | the result is `PendingMints` of the node's table and deposits |
| Node.AuthorityNode.ApproveMint | authorityDaemon.js:396-454 | a refused request changes nothing; a test approval returns no signature and changes nothing; a real one returns the signature and writes the approved row |
| Node.AuthorityNode.QueryBurnHistory | authorityDaemon.js:466-489 | the statuses of the asked burns |
| Node.AuthorityNode.SubmitWithdrawal | authorityDaemon.js:491-526 | a refused claim changes nothing; an accepted one appends its row |
| Node.AuthorityNode.ComputePendingPayouts | authorityDaemon.js:586-603 | the result is `PendingProposal` of the node's tables |
| Node.AuthorityNode.ComputeUnspent | authorityDaemon.js:706-722 | the result is the node's outputs |
| Node.AuthorityNode.ValidateUnspent | authorityDaemon.js:740-756 | the result is `UnspentCheck` against the node's outputs |
| Node.AuthorityNode.ComputeVouts | authorityDaemon.js:759-825 | the result is `ComputedVouts` |
| Node.AuthorityNode.ApplyPayouts | authorityDaemon.js:827-863 | both tables change as `Settlement` describes; the used table is unchanged |
| Node.AuthorityNode.CheckedChain | authorityDaemon.js:881-904 | the chain is `ChainToSign` of the node's outputs and tables |
| Node.AuthorityNode.CheckedPayoutChain | authorityDaemon.js:884-904 | the chain is `CheckedPayoutChain` of the node's tables |
| Node.AuthorityNode.ApprovePayouts | authorityDaemon.js:865-930 | a refused request changes nothing; a test approval returns the chain unsigned and changes nothing; a real one records the payouts and returns the signed chain, or the error of recording them |
| Cli.ParseBool | cli.js:38-46 | only `"true"` and `"false"` parse, to their values; anything else is refused with its text |
| Cli.ParseBoolRoundTrip | cli.js:38-46 | printing a boolean parses back, and only its literal parses to it |
| Cli.PayoutFlags | cli.js:724-743 | both flags parse and at least one is set; two `false` flags are refused |
| Cli.FindMint | cli.js:381-385 | `find` returns an entry with the same mint and deposit address, or nothing exactly when none exists |
| Cli.MintConsensus | cli.js:354-400 | the merge loop computes `MintList` |
| Cli.AgreedKeysMembers | cli.js:376-399 | the agreed pairs are the first node's pairs that every later node names |
| Cli.MergeMintKeys | cli.js:379-398 | one merge step keeps, in order, the pairs the next node names |
| Cli.MintListKeys | cli.js:354-400 | the merged list is keyed by exactly the agreed pairs, in the first node's order |
| Cli.MergeMintBounds | cli.js:389-396 | a merged amount is the smaller of the two, and equals one of them |
| Cli.MergedBounds | cli.js:379-398 | a merged entry stays at most every node's amount and equal to one of them |
| Cli.MintListAmounts | cli.js:354-400 | each merged amount is the minimum of the nodes' amounts for its pair |
| Cli.ChosenMintSpec | cli.js:408-413 | the chosen mint is the first agreed pair at its minimum amount; nothing is chosen exactly when no pair is agreed |
| Cli.PayoutConsensus | cli.js:488-587 | the merge loop, with the corrected burn comparison of Findings, computes `Proposal` |
| Cli.PayoutListAgreed | cli.js:549-578 | each merged list holds exactly the entries every node proposes |
| Cli.ProposalSpec | cli.js:549-587 | with answers, a switched-off half is empty, and each other list holds exactly the entries every node proposes |
| Cli.MatchAsWrittenIgnoresBurn | cli.js:560-577 | the comparison as written matches two payouts exactly when their destination and amount agree |
| Cli.MergeAsWrittenKeepsOtherBurn | cli.js:560-568 | two payouts of different burns to one destination survive the merge as written, and not the corrected one |
| Cli.KeepUtxoSpec | cli.js:638-644 | an output is kept exactly when the next node has one output at that outpoint, with the same satoshi |
| Cli.UnspentConsensus | cli.js:620-646 | the merge loop computes `UnspentList` |
| Cli.UnspentStepMembers | cli.js:635-645 | one step keeps exactly the outputs the next node keeps |
| Cli.UnspentListAgreed | cli.js:620-646 | the merged outputs are exactly the first node's outputs that every later node holds with the same amount |
| Cli.TestRound | cli.js:657-686 | every node is sent a `null` chain in the test round |
| Cli.ChainsSentAt | cli.js:689-716 | in the real round node `i` is sent what node `i - 1` returned |
| Cli.RealRound | cli.js:689-716 | the loop sends those chains and ends with the last node's chain |
| Cli.ConsensusCell | cli.js:773-793 | YES exactly when all non-empty cells of the column agree |

## Left out

- Transport is left out: HTTP, Express, rate limits, the AsyncLock, and logging. Every handler runs as one atomic step, as the lock makes it.
- The `stats`, `dumpDatabase` and reset endpoints, and the harakiri switch, are left out. They only report or erase state.
- `queryMintBalance` (authorityDaemon.js:317-364) is left out. It is a read-only report of the same quantities as `computePendingMint`.
- The console's `createMintDepositAddress` (cli.js:208-286) is left out. It only forwards the nodes' answers to `registerMintDepositAddress`, which is modelled.
- The console's display is left out: totals, `fromSatoshi` for printing and `consensus` tables. Only `consensusCell` is modelled.
- The mint approval rounds of `executeMintHandler` (cli.js:415-474) and `finalizeMintAndSend` are left out. They send one fixed request to each node in turn and thread no state.
- `signMint`, `signRawTransaction`, `createMultisig`, `createRawTransaction`, `decodeRawTransaction`, `verifyAddress`, `getTransaction`, `getNewAddress`, base58 decoding and signature checks are parameters.
- `importAddress` is not modelled. The code ignores its errors (authorityDaemon.js:297-299), so it cannot change an outcome.
- Database connection, schema creation and `getWithdrawals` are left out. The model reads the tables directly.
- The schema is not part of this model. Uniqueness of a mint row per deposit address (`Accounting.DistinctDepositAddresses`) and of a withdrawal row per burn (`Accounting.DistinctBurns`) is therefore a precondition of the lemmas that need it. Registration refuses used addresses and `submitWithdrawal` refuses known burns, which is what makes them hold.
- Handlers.MintApprovalBound: states "amount never lowered" only for a non-negative request. The code checks no sign (authorityDaemon.js:420-424), so a negative `mintAmount` lowers `approvedAmount`.
- Handlers.MintApprovalAt: with Handlers.MintApprovalSpec, models `mintableAmount - approvedAmount < mintAmount` (authorityDaemon.js:422) on exact integers. In the code, `mintableAmount` and `approvedAmount` are a string and a JS Number, so the subtraction rounds above 2^53 satoshi.
- Accounting.PendingMints: models the subtractions at authorityDaemon.js:382 and 387 on exact integers, for the same reason.
- Settlement.AppliedWithdrawalRow: a burn listed twice in one proposal is paid twice by `computeVouts` (`Accounting.WithdrawalVoutsTotal`). Its row, though, records only the last payout's amounts, because each row is read before the loop.
- Dingo.VerifyRawTransactionSpec: the length check at dingo.js:209 compares `Object.keys` of two `Map`s and is always `0 === 0`, so it is omitted. The spec assumes txids of one length. `Dingo.CheckVinsKeyCollision` shows why unequal lengths matter.
- The error of a `Promise.all` is the error of its first failing element. The code does not fix which rejection comes first.
- Handlers.Text: a request field the code uses as text (an address, a signature) is refused with "Malformed request field" when it is not a string. The code passes such a value on and fails later, at an RPC or a comparison, with another message. The model does not follow such values further.
- Handlers.Amount: an amount that is neither a string nor a Number is refused with "Malformed request field". `BigInt` converts some such values (`true` is 1n, `[]` is 0n) and throws a `TypeError` or `SyntaxError` on the others.
- Approval.ReadUtxo: `vout` must be a Number. The code prints it into the key, so a string such as `"0"` would match the node's own output there, and it passes the value on to `createrawtransaction`.
- Approval.PayoutsRequestOf: reads and type-checks every field of the request before `validateUnspent` runs. The code checks the outputs first (authorityDaemon.js:881). A request with both a malformed payout and an output the node does not hold is refused as malformed here, and with "Non-existent UTXO" by the code. Both refuse it.
- Accounting.ValidatePayouts: uses the corrected `Accounting.FeeCheck` of the Findings table. An under-taxed proposal is refused with "Insufficient tax to cover network fees of …" here, where the code throws "Expected string input". The same applies to everything built on it: `Accounting.ValidatePayoutsSpec`, `Approval.ChainToSign`, `Approval.PayoutDecision` and `Node.AuthorityNode.ApprovePayouts`. Both versions refuse exactly the same proposals (`Accounting.FeeMessageLost`, `Accounting.FeeCheck`).
- Cli.PayoutConsensus: merges withdrawal payouts with the corrected whole-entry comparison of the Findings table. A burn that not every node proposes is therefore dropped. The code keeps the first node's entry when another node proposes a different burn to the same destination for the same amount. `Cli.PayoutListAgreed` and `Cli.ProposalSpec` describe the corrected merge. `Cli.MergeWithdrawalsAsWritten` is the code's merge.
- TimedMessage.CheckAnchor: refuses an anchor height that is not a number with "Message anchor height is not a number". The code compares such a height as it is (authorityDaemon.js:152-160) and fails later, in the `getblockhash` RPC. Both refuse it, with different messages.
- Dicts: keys keep insertion order. JavaScript lists integer-like keys first, in ascending order. Here the keys are Dingo addresses and burn signatures, which are never integer-like (an array index has at most ten digits), so the two orders agree.
- Floating-point amounts are not modelled. `listreceivedbyaddress` and `listunspent` amounts are carried as their decimal text. A `Js.Value` number is an integer, so a fractional Number in a request's `unspent` cannot be expressed. The code would print it into the key and accept it.
- The bridge's design description says each node checks that the caller holds a token account before it generates an address. The code never calls that check (authorityDaemon.js:233). The model follows the code in `Handlers.GenerateDepositAddressAsWritten` and records the difference under Findings.

## Findings

| source | as written | input that shows it | evidently intended | confidence | as-written member | corrected member |
|---|---|---|---|---|---|---|
| authorityDaemon.js:233 | `await splToken.hasTokenAccount` tests the function object, which is always truthy, so the check never runs | any valid mint address with no token account gets a deposit address | call `hasTokenAccount` for the mint address and refuse with "Token account not found for wallet" | high, not executed | Handlers.GenerateDepositAddressAsWritten (shown by Handlers.TokenAccountWitness) | Handlers.GenerateDepositAddress |
| cli.js:560-577 | withdrawal payouts are compared on `burnAddress` and `burnIndex`, fields the nodes never send, so `undefined === undefined` holds and the burn is not compared | node 1 proposes burn A and node 2 burn B, both to one destination with one amount: the merge keeps A | compare `burnSignature` with the other fields, so only entries every node proposes survive | high, not executed | Cli.MergeWithdrawalsAsWritten (shown by Cli.MergeAsWrittenKeepsOtherBurn) | Cli.PayoutConsensus (with Cli.PayoutListAgreed) |
| authorityDaemon.js:616-621 | the fee message calls `dingo.fromSatoshi` on a BigInt, which throws "Expected string input" | any proposal whose tax is below the network fee | "Insufficient tax to cover network fees of" followed by the fee in coins | high, not executed | Accounting.FeeCheckAsWritten (shown by Accounting.FeeMessageLost) | Accounting.FeeCheck |
