# Leafy wallet core, modelled and proved in Dafny

Leafy is a two-seed Taproot wallet: a Go core that builds addresses, selects coins, prices, builds and
signs transactions, and a Flutter application that feeds it coin lists, replaces transactions and pages
through addresses. This project models that core and the parts of the application that decide what the
core is asked to do, and proves what they guarantee together. `dafny verify dfyconfig.toml` checks it all.

## What is modelled

Modules follow the files of the repository; a module whose name ends in `Theorems`, `Bounds`,
`Progress`, `Runs` or `Outcome` holds proofs about the module it is named after.

- **Coins.** `CoinSelection` is `CreateTransaction`: the matching loop, the fee loop and the dust loop over
  shared counters, with every error. The loops are methods proved against the function `Create`;
  `CoinOutcome` says when a run succeeds and what its inputs and maps are; `CoinTheorems` and `FeeTheorems`
  prove conservation, completeness, use of each coin, dust, and the fee. `Chain` holds transactions and the
  weight of BIP 141, `Wire` the bytes that are weighed. Amounts are mathematical integers
  (`CoinTheorems.AmountsFitInt64` says why 64 bits are enough) and the fee rate is an exact real.
- **Keys and addresses.** `Crypto` is a record of primitives: a group of prime order, x-only keys, hashes,
  Schnorr signatures, address text. All of it is a parameter. Theorems assume at most the laws in
  `Crypto.Lawful`, which `Crypto.ToyIsLawful` shows to be consistent. On top of it stand `Bip32` (child
  derivation), `Bip44` (path items, sibling walk), `Descriptor`, `Script`, `Taproot` (tweaks, the script
  builder, the signer's tweaks), `Wallet` (`GetAddresses`) and `KeySearch` (the two key finders with their
  8-bit loop counters). Functions of the btcsuite libraries that the wallet relies on are written out from
  BIP 32, BIP 340 and BIP 341.
- **Signing.** `Signing` is the two `CreateAndSign…` functions. `Consensus` states, from BIP 341, BIP 342,
  BIP 112 and BIP 68, what the network checks of an input; `SpendTheorems` joins the two: every input the
  wallet signs satisfies the script of its coin. `EndToEnd` joins these with coin selection and key search:
  with usable keys and coins of its own, the wallet signs exactly when it has the funds. `Acceptance` adds the
  rules about repeated inputs and values and says exactly when what is signed is accepted. In
  `LuckyWallets`, suites in which no hash ever spoils a key meet every assumption of these theorems, and
  `ToyWallet` shows that one exists, over a group of order five, whose wallets spend both ways and list address
  after address; both serve for nothing else. `Bumping` follows a fee bump from the ledger to the signed
  replacement.
- **Inscriptions.** `Inscription` is `Inscribe` and its splitting loop, read back by `Script.Parse`.
- **The application.** `Ledger` (transactions as reported by the network), `Liveliness` (the timelock test),
  `Replacement` (fee bumping by BIP 125), `Balances` (from reports to coins), and `Paging`, where the data
  loader's asynchronous code is a state machine over ticks, arrivals, answers and failures, with a class
  whose methods are the code between two awaits.

## What the proofs show about the code

Where the code does something other than its comments say, the model keeps the code, a lemma gives an input
that shows it, and another says exactly when the intended property holds.

- The dust loop starts over at the first unmatched coin. When the fee loop has added coins and the dust loop
  adds coins too, a coin is spent twice and the transaction is invalid: `CoinTheorems.EachCoinOnce` and
  `Acceptance.AcceptedIff` give the exact condition, `FeeTheorems.CoinSpentTwice` three coins for which it
  happens. The index nevertheless never leaves the list, whatever the amounts.
- The fee is priced before fee inputs and change are added. At one ninth of a satoshi per virtual byte or
  more it covers the signed transaction exactly when everything is spent or the covering prefix matches amount
  and fee (`FeeTheorems.FeeMeetsRateIff`), and never covers a recovery transaction
  (`SizeTheorems.RecoveryUnderpays`); `FeeTheorems.FeeCoversIff` says the same for every rate.
- Key search is meant to cover 1000 addresses. Three of ten batches wrap to nothing in eight bits, so it
  covers 700, without a gap (`KeySearch.BatchesCover`, `KeySearch.FoundIffBelow700`, `KeySearch.LateAddressNotFound`).
- An inscription whose last piece is a single zero byte is read back without it, because the shortest push of
  that byte is `OP_0` (`Inscription.InscriptionRoundTrip`, `Inscription.LoneZeroIsLost`). No information is
  lost all the same (`Inscription.EnvelopeDeterminesData`).
- The application's timelock test agrees with the network exactly for timelocks below 2^16
  (`Liveliness.AgreementIff`).
- The output of an address opens to its leaf only when the tweak is below the group order; the library
  reduces larger ones, which the network rejects (`TaprootTheorems.ControlBlockCommits`).
- Importing a descriptor drops errors of its path levels; the key it yields cannot be walked
  (`Descriptor.UnreadableLevelFailsLater`).
- Page requests that overlap repeat one page and skip another (`PagingRuns.OverlapRepeatsAPage`), and a scan
  that outlives its list can ask for a page too many (`PagingRuns.StaleScanAsksOnce`, and
  `PagingProgress.AlwaysTightIff` for exactly when).
- The loader can go silent for good: when a scan fails (`Paging.FailureIsForever`), and also when the very
  first request does (`Paging.FirstRequestFails`). It can report again exactly when neither has happened
  (`Paging.ReportsAgainIff`).

## Model

| member | source | states |
|---|---|---|
| `CoinSelection.CreateTransaction` | leafy.go:510-661 | the whole method, its three loops and every error, yields the outcome that `Create` specifies by shortest prefixes and prefix sums |
| `CoinSelection.SplitCoins` | leafy.go:547-555 | the matching loop takes the shortest prefix worth the amount (everything when the amount is 0), and both sums are those of the two parts |
| `CoinSelection.AddMatched` | leafy.go:559-575 | one input with room for a signature per matched coin, or failure on an undecodable script |
| `CoinSelection.AddFeeCoins` | leafy.go:592-614 | the fee loop adds the shortest stretch that pays what the fee lacks |
| `CoinSelection.AddDustCoins` | leafy.go:623-640 | the dust loop, restarted at index 0 after the fee loop took coins, terminates, never leaves the list for any amounts at all, and adds the shortest stretch that lifts the change above dust or uses up what its counter says is left |
| `CoinSelection.PayFee` | leafy.go:581-619 | change, sums, inputs and the insufficient-funds error after the fee is paid |
| `CoinSelection.AddFeeAndChange` | leafy.go:576-660 | everything after pricing, as `Complete` specifies it |
| `CoinSelection.CoverIsFirst` | leafy.go:547-555 | the covering prefix is the first one worth the target, or the whole list |
| `CoinOutcome.Outcome` | leafy.go:510-661 | a run succeeds exactly when the coins suffice and every picked script decodes; input i has the outpoint of picked coin i, sequence 0, and one item of 64 zero bytes or none; the three maps are those of the picked coins |
| `CoinOutcome.RunInputs` | leafy.go:560-566 | input i spends picked coin i |
| `CoinOutcome.RunSequences` | leafy.go:565-630 | every created transaction has version 2, no lock time and sequence 0 on every input |
| `CoinOutcome.EarlyErrors` | leafy.go:517-531 | the fee rate error exactly for a rate of at most 0; then the address error exactly when an address is unsupported |
| `CoinOutcome.FundsErrors` | leafy.go:556-591 | insufficient funds, with amount and total, exactly when the covering prefix is worth less than the amount; insufficient funds for fees, with what is lacking and what remains, exactly when that prefix is readable and the rest does not make up for the fee; an unreadable script is the only other error |
| `CoinOutcome.FundsErrorIff` | leafy.go:556-591 | a run with a positive rate reports missing funds exactly when the request is not funded and no script of the covering prefix was unreadable first |
| `CoinTheorems.ValueConserved` | leafy.go:504-509 | input amounts with multiplicity are `TxInputAmt` and equal all outputs plus `TxFeeAmt`; the destination receives exactly the amount, or inputs minus fee when it is 0; nothing is assumed of the amounts |
| `CoinTheorems.ShortestFundingPrefix` | leafy.go:547-614 | the coins with room for a signature are the shortest prefix worth amount and fee |
| `CoinTheorems.SelectionComplete` | leafy.go:547-618 | for a positive amount, non-negative coins and readable scripts, success if and only if amount plus the fee priced on the covering prefix is at most the total; change is then never negative |
| `CoinTheorems.EachCoinOnce` | leafy.go:586-640 | for distinct outpoints the inputs are a duplicate-free prefix of the coins if and only if the fee and dust loops do not both add coins, told as a condition on the request |
| `CoinTheorems.BothLoopsAddIff` | leafy.go:586-640 | that condition on amount, fee and prefix sums is exactly that both loops add coins |
| `CoinTheorems.DustChangeMeansAllSpent` | leafy.go:384-386 | dust change means every coin is an input, unless both loops added coins; then exactly when the last coin outweighs what the fee loop added |
| `CoinTheorems.DustFlagIff` | leafy.go:384-386 | for a positive amount and non-negative coins, the flag is up if and only if there is a second output and it is worth at most 330, and if and only if the request leaves dust, told by amount, fee and prefix sums |
| `CoinTheorems.DustFlagPlainly` | leafy.go:384-386 | when the fee and dust loops do not both add coins, the flag is up if and only if the shortest prefix worth amount and fee is worth more than that, and all coins together at most 330 more |
| `CoinTheorems.AmountsFitInt64` | leafy.go:545-640 | for coins within the money supply and a fee that is a 64-bit integer, the counters of the first loop at every coin, those of the fee and dust loops, the unmatched one included, and every sum with amount and fee stay in 64 bits, whatever the outcome |
| `CoinTheorems.ResultFitsInt64` | leafy.go:651-660 | the input, fee and change of a successful payment are bounded by twice the money supply |
| `FeeTheorems.SignedWeight` | leafy.go:576-579 | the signed weight is the priced weight plus 230 per later input, four times the change output, the growth of the input counter, and witness excess per input |
| `Wire.SizesAreLengths` | leafy.go:576-579 | the sizes behind the fee are the lengths of the transaction's bytes, the weight is three times the bytes without witnesses plus all bytes, and the virtual size is the least number of bytes weighing as much |
| `FeeTheorems.FeeCoversIff` | leafy.go:576-640 | at every rate and for every witness size, the fee covers the rate on the signed transaction if and only if rounding the fee up pays for the virtual bytes added after pricing, told by request and coins |
| `FeeTheorems.FeeMeetsRateIff` | leafy.go:576-640 | the fee covers the rate on the key-path-signed transaction when everything is spent or the covering prefix matches amount and fee exactly; at a ninth of a satoshi per virtual byte or more, if and only if so |
| `FeeTheorems.RecoveryFeeFallsShort` | leafy.go:576-579 | with larger witnesses the fee falls short if and only if rounding up does not pay for the excess, and always at a ninth of a satoshi per virtual byte or more |
| `FeeTheorems.PricedOneAndTwo` | leafy_test.go:239-278 | one input prices at 111 and two at 169 virtual bytes; an added input costs 230 weight units |
| `FeeTheorems.CoinSpentTwice` | leafy.go:620-640 | three coins for which a run succeeds and spends the second coin twice |
| `Text.HexRoundTrip` | script.go:26-32 | decoding an encoded script gives it back |
| `Text.DecimalRoundTrip` | bip_44.go:228-244 | every 32-bit number is parsed back from its decimal form |
| `Text.HexDecodesIff` | script.go:26-32 | a script is read as some bytes exactly when it is their encoding, letter case aside; all other texts are errors |
| `Text.ParseIff` | bip_44.go:228-244 | a text is read as a number exactly when it is its decimal form, leading zeros allowed |
| `Script.ScriptNumRoundTrip` | script.go:158-160 | every number pushed into a script decodes to itself, and the encoding is minimal |
| `Script.ParsePush` | script.go:49-49 | the shortest push of any data is parsed back, except that a lone zero byte is pushed as nothing |
| `Script.PushIsShortest` | script.go:49-49 | no script that pushes the same element and nothing else is shorter |
| `Inscription.SplitForInscription` | script.go:55-65 | the loop yields consecutive pieces of 520 bytes and a shorter last one |
| `Inscription.JoinChunks` | script.go:55-65 | the pieces join to the data and number the length over 520, rounded up |
| `Inscription.AddPushes` | script.go:48-50 | one shortest push per piece; failure exactly when they exceed the script size |
| `Inscription.Inscribe` | script.go:43-53 | the envelope, or an error exactly when it exceeds the script size |
| `Inscription.EnvelopePushesAre` | script.go:43-65 | read back, the envelope holds one push of at most 520 bytes per piece |
| `Inscription.InscriptionRoundTrip` | script.go:43-65 | joining the pushes gives the data back if and only if the last piece is not a lone zero byte |
| `Inscription.EnvelopeDeterminesData` | script.go:43-65 | the script still determines the data, for all data |
| `Inscription.LoneZeroIsLost` | script.go:43-65 | one zero byte reads back as nothing |
| `TaprootTheorems.TweaksAgree` | signer.go:83-92 | the public key of a tweaked private key is the tweaked public key, odd keys included |
| `TaprootTheorems.RoutesAgree` | leafy.go:692-716 | the address from the second public key is the one from the second private key, and both fail together |
| `TaprootTheorems.FirstKeyIsHashed` | leafy.go:692-716 | whatever 32 bytes the first key is, on both routes the internal key is the point of the second key, made even, plus the hash of its abscissa and of the SHA-256 of those bytes |
| `TaprootTheorems.FirstKeysApart` | leafy.go:692-716 | two first keys give one internal key if and only if those tweaks of the second key are congruent modulo the group order |
| `TaprootTheorems.KeyPathSpendVerifies` | leafy.go:708-738 | a signature by the doubly tweaked key satisfies the output of the address computed from public second-key data |
| `TaprootTheorems.ControlBlockCommits` | script.go:111-124 | control block and leaf hash back to the output key with the right parity if and only if the tweak is a canonical scalar |
| `TaprootTheorems.LeafOps` | script.go:140-166 | the leaf parses as the tweaked first key, a signature check, the timelock and the sequence check |
| `TaprootTheorems.LeafBytes` | script.go:140-166 | the leaf byte by byte: 20, the key, AD, the push of the timelock, B2; the push of 52560 is 03 50 CD 00 |
| `TaprootTheorems.LeafHashIs` | script.go:111-130 | the wallet hashes a leaf as the network does: version, compact size, script |
| `TaprootTheorems.SignedFields` | signer.go:142-161 | two transactions look the same to a signature exactly when version, lock time, outputs, outpoints and sequences agree |
| `TaprootTheorems.LeafSucceedsIff` | script.go:140-166 | executing the leaf succeeds if and only if the signature checks, the sequence passes, and the timelock is not 0 |
| `TaprootTheorems.OwnTimelockPasses` | leafy.go:233-235 | a sequence equal to the timelock passes the leaf's check, for every 32-bit timelock |
| `TaprootTheorems.LeafKeySigns` | signer.go:120-139 | the key inside the leaf is the public key of the tweaked first key that signs |
| `TaprootTheorems.BareKeySigns` | signer.go:83-118 | a bare signature verifies under the key itself |
| `Taproot.TapscriptBuilder.AddLeafScript` | script.go:89-94 | appends the leaf and returns the same builder |
| `Taproot.BuildFromTweaked` | leafy.go:718-753 | building through the builder gives the tweaked address, internal key and signing data of the specification |
| `TaprootTheorems.CreatedFrom` | script.go:96-124 | that address is the address of the output key whose scalar signs for it, the root is the hash of the lone leaf, and the control block names the internal key and the output's parity |
| `Bip32.DeriveNeuter` | bip_44.go:207-215 | deriving from the neutered key is neutering the derived key at every non-hardened index, failures included |
| `Bip32.ChildDataReads` | bip_44.go:288-295 | the bytes hashed for child i are 37: behind 33 bytes the index, most significant byte first; in front the compressed public key, read back by the key parser, or for a hardened index a zero and the private key |
| `Bip32.SpeaksOnce` | bip_44.go:288-295 | no other bytes say that, so different indexes are hashed from different bytes |
| `Bip32.DerivesIff` | bip_44.go:207-215 | a child exists if and only if depth and index allow it and the hash of those bytes, keyed by the chain code, leaves a key; then key, chain code, depth, number and parent fingerprint are made from that hash and the parent |
| `Bip32.ParseKeyIff` | bip_44.go:207-211 | a text is read as an extended key exactly when it stands for that key's 78 bytes, private or public |
| `Bip32.KeyStringRoundTrip` | bip_44.go:207-211 | a printed extended public key is read back |
| `Bip44.PathItemRoundTrip` | bip_44.go:16-52 | every 32-bit path item is parsed back from its printed form, hardened mark included |
| `Bip44.ParsePathIff` | bip_44.go:228-244 | a level is read exactly when it is a 32-bit number with or without a mark; the mark sets the hardened bit and its absence clears it |
| `Bip44.CreatedKeyIff` | bip_44.go:65-114 | a created key is the one derived through its five levels in order, each named as it was derived, with the fingerprint its first child carries; there is none if and only if a derivation fails |
| `Bip44.WalletKeyIff` | leafy.go:663-685 | the wallet's key is the one at 44', 0', 0', 0 and the start index without its hardened bit |
| `Bip44.WalkLandsAt` | bip_44.go:288-307 | n sibling steps succeed exactly when every index on the way derives, and land on the key n further |
| `Bip44.IndexAfterFacts` | bip_44.go:25-52 | n steps of the 32-bit addition keep hardenedness and add n modulo 2^31, and m steps and n more are m + n steps |
| `Descriptor.DescriptorRoundTrip` | bip_44.go:188-286 | importing a printed parent descriptor recovers fingerprint, four levels and public change key; reprinting is the identity |
| `Descriptor.ImportIff` | bip_44.go:188-226 | what is imported, exactly: a fingerprint of eight characters, four levels, a bracket and a readable key, derived at the index; errors of levels leave them absent |
| `Descriptor.SuffixIsSlashed` | bip_44.go:268-277 | a suffix is printed behind the key, with a slash in front when it has none |
| `Descriptor.UnreadableLevelFailsLater` | bip_44.go:202-208 | an unreadable level is accepted; then the key cannot be walked whatever the keys are, and it can be printed if and only if all levels were readable |
| `Wallet.GetAddresses` | leafy.go:30-77 | lists what the specification lists, or nothing |
| `Wallet.ListFrom` | leafy.go:51-74 | the loop lists the entry at every sibling, in order, and fails if any fails |
| `WalletTheorems.PagesConcatenate` | leafy.go:51-74 | a listing of m + n is the listing of m followed by that of n from m later, for every 32-bit start, failures included |
| `WalletTheorems.WalkNeuter` | leafy.go:69-73 | walking the public key is walking the private key and dropping the private part |
| `WalletTheorems.OwnDescriptor` | leafy.go:398-407 | importing the wallet's own descriptor at any index gives its second key without the private part |
| `WalletTheorems.OwnDescriptorText` | leafy.go:398-407 | the descriptor is the fingerprint, 44'/0'/0'/0 and the public change key, and exists exactly when the key at index 0 does |
| `WalletTheorems.RoutesNameSameAddress` | leafy.go:177-202 | at every index the private search and the public route name the same address with agreeing keys |
| `WalletTheorems.RecoveryListsSame` | leafy.go:39-76 | a full wallet and its descriptor-only recovery wallet list the same addresses for every start and count |
| `WalletTheorems.ListingMatchesSearch` | leafy.go:51-74 | a listing is made of the private keys' own addresses from the same start, and exists exactly when they do |
| `WalletTheorems.ListingIsSearched` | leafy.go:164-202 | the search starts at index 0; where it reaches s, a listing from s exists if and only if it reaches num further, and entry i is the address the search stores at index s + i |
| `ToyWallet.ToyListsApart` | leafy.go:51-74 | the index reaches the address: in one lawful suite every wallet lists two different addresses at every two consecutive indexes |
| `EndToEnd.ListedIsOwned` | leafy.go:30-77 | an address listed below index 700 is one that both searches find |
| `KeySearch.BatchesCover` | leafy.go:176-177 | batches 2, 5 and 7 wrap to empty, the others visit 100, ten batches visit 700 |
| `KeySearch.VisitBatch` | leafy.go:177-202 | one batch moves both keys on and extends the mapping by exactly the next indexes |
| `KeySearch.AllMapped` | leafy.go:203-209 | the lookup loop's answer does not depend on the order of the map |
| `KeySearch.FindSigningKeys` | leafy.go:159-216 | the method computes the specified search from index 0 |
| `KeySearch.FindSigningRecoveryKeys` | leafy.go:303-364 | the same from the first seed and the descriptor |
| `KeySearch.MappingIsPrefix` | leafy.go:190-202 | the mapping holds exactly the addresses of a gap-free prefix of indexes, each with the key of such an index |
| `KeySearch.SearchIff` | leafy.go:172-214 | success if and only if some batch boundary is reached with every needed address below it |
| `KeySearch.FoundIffBelow700` | leafy.go:174-214 | with 700 derivable keys, success if and only if every needed address is among the first 700 |
| `KeySearch.LateAddressNotFound` | leafy.go:174-214 | a needed address that first appears at index 700 or later is not found |
| `Signing.SignTransaction` | leafy.go:98-137 | succeeds exactly when every lookup and signature does; witness i is made for input i against the unsigned transaction |
| `Signing.SetSequences` | leafy.go:233-235 | every input gets the timelock and nothing else changes |
| `Signing.CreateAndSignTransaction` | leafy.go:80-152 | fails exactly when creation, key search or a signature fails; otherwise the created transaction, signed |
| `Signing.CreateAndSignRecoveryTransaction` | leafy.go:218-296 | the same with the sequences set before anything is hashed |
| `SigningTheorems.InputsKnown` | leafy.go:567-574 | script, amount and address of every input are found and are those of a coin |
| `SigningTheorems.SearchFinds` | leafy.go:190-214 | a search that succeeds knows every needed address by one of the first 700 entries, with that very address |
| `SigningTheorems.OnlyZeroKeysFail` | leafy.go:98-133 | once keys are found, no lookup misses, and signing fails if and only if a final key is the zero scalar |
| `SigningTheorems.KeyEntrySpends` | leafy.go:113-129 | the witness of a key-path entry spends the output of its own address |
| `SigningTheorems.LeafEntrySpends` | leafy.go:271-280 | the witness of a script-path entry meets every rule for its own address |
| `SpendTheorems.KeyPathTransactionSpends` | leafy.go:80-152 | every input of a signed transaction spends its coin under the network's rules, on every successful run |
| `SpendTheorems.RecoveryTransactionSpends` | leafy.go:218-296 | every recovery input carries the timelock and spends its coin if and only if that coin's output can be opened at all |
| `EndToEnd.WalletSpends` | leafy.go:80-152 | with both seeds, usable keys and coins at its first 700 addresses, the wallet creates a transaction if and only if it has the funds; then keys are found, a signed result exists, and every input of every signed result satisfies the script of its coin |
| `EndToEnd.RecoverySpends` | leafy.go:218-296 | the same with the first seed and the descriptor, and every input carries the timelock |
| `Acceptance.AcceptedIff` | leafy.go:510-661 | for distinct non-negative coins of the ledger, a signed transaction is accepted (inputs and outputs present, no input twice, no negative output, inputs worth the outputs, scripts satisfied) if and only if the amount is not negative, spending all leaves something after the fee, and the fee and dust loops do not both add coins; inputs are worth outputs plus fee |
| `Acceptance.WalletPays` | leafy.go:80-152 | with both seeds, every signed result is accepted if and only if the request meets that condition |
| `Acceptance.RecoveryPays` | leafy.go:218-296 | the same for recovery, age aside |
| `Acceptance.PaymentUnlocked` | leafy.go:80-152 | every signed payment has version 2, no lock time and sequence 0 on every input: it may be replaced under BIP 125, and no input waits for its coin to age |
| `Acceptance.RecoveryFinalIff` | frontend/lib/util/bitcoin_network_connectivity.dart:145-148 | for timelocks below 2^16, every input of a signed recovery is final in the next block if and only if the application's check holds for every coin picked |
| `Acceptance.RecoveryMinable` | leafy.go:218-296 | a signed recovery is accepted and final in the next block if and only if the request meets the condition and the check holds for every coin picked |
| `EndToEnd.CoinsFound` | leafy.go:203-214 | key search succeeds for every transaction created from coins at the first 700 addresses |
| `EndToEnd.OwnedEitherWay` | leafy.go:303-364 | the coins found with both seeds are exactly those found with the first seed and the descriptor |
| `ToyWallet.ToyWalletSpends` | leafy.go:80-296 | some wallet and coin meet every assumption of these theorems at once, are spent both ways with one input each, and are accepted |
| `SizeTheorems.KeyPathSize` | leafy.go:134-137 | every key-path witness has the 66 bytes that were priced |
| `SizeTheorems.RecoverySize` | leafy.go:276-285 | every recovery witness takes 136 bytes and the push of the timelock, for every timelock: 140 with the wallet's |
| `SizeTheorems.RecoveryUnderpays` | leafy.go:227-285 | the fee of a recovery transaction with an input falls short if and only if rounding up does not pay for the larger witnesses, and always at a ninth of a satoshi per virtual byte or more |
| `Liveliness.LivelinessIsFinality` | frontend/lib/util/bitcoin_network_connectivity.dart:145-148 | the check holds exactly when an input with the timelock as sequence is final in the next block |
| `Liveliness.AgreementIff` | frontend/lib/util/bitcoin_network_connectivity.dart:145-148 | check and network agree at every tip and height if and only if the timelock is below 2^16 |
| `Liveliness.BlocksUntilFinal` | frontend/lib/util/bitcoin_network_connectivity.dart:140-143 | the number shown is the number of further blocks until the input may be mined |
| `Liveliness.DefaultTimelockFits` | frontend/lib/globals.dart:20 | check and network agree on the timelock both sides use, and it is encoded in three bytes and pushed in four |
| `Replacement.GetTransactionsForBip125Replacement` | frontend/lib/transaction.dart:401-418 | the list surgery yields the specified candidates; it throws exactly for a transaction without inputs |
| `Replacement.CandidatesAre` | frontend/lib/transaction.dart:407-418 | the first parent, then exactly the confirmed transactions that are neither replaced nor parents, no id twice |
| `Replacement.FromTxIdInjective` | frontend/lib/util/transaction.dart:86-94 | an outpoint has the reversed bytes of the id and the index; different ids or indexes give different outpoints |
| `Replacement.GetUtxosAre` | frontend/lib/util/transaction.dart:138-142 | the coins are exactly the spendable outputs of the listed transactions, each outpoint once |
| `Replacement.OfferedCoins` | frontend/lib/transaction.dart:401-418 | the coins offered start with the original's first input, under its own address, amount and script; the others are exactly spendable outputs of confirmed transactions |
| `Replacement.ReplacementConflicts` | frontend/lib/transaction.dart:401-418 | the transaction selected from them spends the original's first input first and never again, looks its key up under the address it was paid to, signals replacement on every input, and every other input spends a confirmed output from candidates with distinct outpoints |
| `Bumping.BumpIsSigned` | frontend/lib/transaction.dart:401-418 | when what the original spent first and the coins it might add are at the first 700 addresses, the bump succeeds if and only if the coins suffice: keys are found, and every signed replacement takes the original's first input away, may be replaced again, and is accepted exactly when the request is acceptable |
| `Balances.CoinsAndSpentAreIncoming` | frontend/lib/util/bitcoin_network_connectivity.dart:433-454 | the coins a marked transaction offers and what was spent of it add up to its incoming amount; marking fails exactly when a flag is missing |
| `Balances.AmountsAreMarked` | frontend/lib/util/bitcoin_network_connectivity.dart:433-443 | incoming and outgoing amounts are those of the outputs and inputs that are marked; these are the ones at known addresses, no output counts as unspent yet, and nothing else changes |
| `Balances.MarkedOffers` | frontend/lib/util/bitcoin_network_connectivity.dart:433-454 | once the flags are in, an output is offered exactly when it is flagged unspent and pays a known address; the rest of it is as reported |
| `Balances.CheckIffCoins` | frontend/lib/util/bitcoin_network_connectivity.dart:483-489 | a transaction needs the check exactly when it offers a coin and is old enough |
| `Paging.DataLoader.constructor` | frontend/lib/util/data_loader.dart:58-73 | starts with the first page requested |
| `Paging.DataLoader.OnAddresses` | frontend/lib/util/data_loader.dart:99-109 | the arrival of a page is the specified step |
| `Paging.DataLoader.LoadAddressInfoForAddresses` | frontend/lib/util/data_loader.dart:112-121 | a tick starts a scan unless the list is empty or one is running |
| `Paging.DataLoader.OnMempool` | frontend/lib/util/data_loader.dart:128-131 | the scan copies the list as it is now |
| `Paging.DataLoader.OnAddressInfo` | frontend/lib/util/data_loader.dart:132-139 | one answer moves the scan on, counting unused addresses and keeping the first |
| `Paging.DataLoader.FinishScan` | frontend/lib/util/data_loader.dart:157-174 | the end of a scan requests a page or stops paging, reports, and clears the flag |
| `Paging.RunOrderly` | frontend/lib/util/data_loader.dart:97-174 | over every interleaving at most one scan runs and the index has advanced by the length of the list |
| `Paging.StuckIffScanLost` | frontend/lib/util/data_loader.dart:118-174 | after any run the flag is up with no scan to clear it if and only if a scan has failed in the run |
| `Paging.FailureIsForever` | frontend/lib/util/data_loader.dart:118-174 | after a run in which a scan failed, no continuation runs a scan, makes a report, changes the paging flag or adds a request |
| `Paging.EmptyIffFirstPageLost` | frontend/lib/util/data_loader.dart:97-115 | after any run nothing is listed, asked for or scanned if and only if the request for the first page has failed |
| `Paging.ReportsAgainIff` | frontend/lib/util/data_loader.dart:97-174 | after any run some continuation makes a report if and only if no scan has failed in it and the request for the first page has not |
| `Paging.FirstRequestFails` | frontend/lib/util/data_loader.dart:97-115 | a run in which no scan fails and nothing is ever listed, asked for or reported: the first request fails |
| `Paging.ExactIffNoStalePage` | frontend/lib/util/data_loader.dart:97-109 | at the end of any run the list is the consecutive addresses if and only if no page arrived that was asked for at another length |
| `Paging.NonOverlappingIsExact` | frontend/lib/util/data_loader.dart:97-109 | with requests that never overlap the list is exactly the addresses up to the index |
| `PagingBounds.LowestUnusedIsLowest` | frontend/lib/util/data_loader.dart:132-139 | the address kept is the lowest unused one, and there is none exactly when all are used |
| `PagingBounds.PagingIsBounded` | frontend/lib/util/data_loader.dart:112-174 | over every truthful run without overlap, reports are right, paging has stopped only with three unused addresses found, and at most one page beyond ceil((U+3)/5) is requested |
| `PagingProgress.PagingEnds` | frontend/lib/util/data_loader.dart:112-174 | every such run has stopped paging once more scans have ended than ceil((U+3)/5) and the lost requests together; once as many, when no scan outlives its list |
| `PagingProgress.AlwaysTightIff` | frontend/lib/util/data_loader.dart:157-166 | in every run without overlap, no request goes beyond ceil((U+3)/5) pages if and only if no scan with too few unused addresses ends while that many pages are listed |
| `PagingProgress.OverAskOnlyWhenStale` | frontend/lib/util/data_loader.dart:130-166 | with truthful answers only a scan that outlives its list does so |
| `PagingBounds.EnoughPagesStop` | frontend/lib/util/data_loader.dart:157-174 | a scan over ceil((U+3)/5) pages stops paging and reports the lowest unused address |
| `PagingRuns.PagingStops` | frontend/lib/util/data_loader.dart:97-174 | a sample: in the orderly run paging goes on until, and stops with, the first page that leaves three unused addresses |
| `PagingRuns.OverlapRepeatsAPage` | frontend/lib/util/data_loader.dart:97-109 | a run in which a page is listed twice and another is skipped |
| `PagingRuns.StaleScanAsksOnce` | frontend/lib/util/data_loader.dart:112-174 | a run without overlap that requests one page more than needed |

## Left out

- Elliptic curves, SHA-256, HMAC, Schnorr and the signature hash are parameters with the laws in `Crypto.Lawful`; the signature hash is a function of everything BIP 341 commits to, not its byte layout.
- Base58 and bech32 checksums are parameters that read back what they print; extended keys are modelled down to their 78 bytes.
- Mnemonics, entropy and BIP-39: a wallet is given by its master keys.
- Trees with several leaves, annexes, other signature hash types and witness programs other than 32-byte version 1: the wallet uses none of them.
- `InMemorySigner`'s bare signature type is in `Taproot.SignerKey`, but nothing in the wallet asks for it.
- Fee rates are exact reals, so rounding of the floating-point product is not covered.
- 64-bit wrap-around of amounts: amounts are unbounded integers; `CoinTheorems.AmountsFitInt64` shows that coins within the money supply never leave 64 bits.
- Spend-all runs whose fee exceeds the total: the code makes no check there, so the output may be negative; value is conserved all the same, and `Acceptance.Acceptable` excludes them.
- `Acceptance.RecoveryPays`: leaves out when a recovery input is old enough to be mined, because `Acceptance.RecoveryMinable` says it for timelocks below 2^16, and for others the check disagrees with the network (`Liveliness.AgreementIff`).
- `Acceptance.Accepted`: leaves out the limit on total money, which is the ledger's.
- The hexadecimal text of finished transactions (`Wire` writes their bytes), and `TxDestAmt`, which is never set.
- `CoinSelection.CreateTransaction`: each loop of the source is a method of its own, called in the source's order; addresses come in as scripts, absent when unsupported.
- `Descriptor.UnreadableLevelFailsLater`: slices out of range, which end the program, and returned errors are both the absence of a result.
- `SpendTheorems.RecoveryTransactionSpends`: assumes a timelock other than 0, with which the leaf leaves a false value and can never succeed (`TaprootTheorems.LeafSucceedsIff`).
- `Replacement.ReplacementConflicts`: says nothing of fees; the fee rules of BIP 125 depend on the rate the user picks.
- `Paging.DataLoader.FinishScan`: the price, the block height, balances and transaction lists passed to the callback are not part of the state, and a failure inside the callback itself is not an event.
- Addresses in `Paging` are named by their index; `WalletTheorems.PagesConcatenate` is what makes a page at an index meaningful.
- `getRecoveryTransactionUtxoForBip125Replacement` uses the position of an input where the spent output's index is meant (frontend/lib/transaction.dart:397), so it has no property to prove.
- RSA ephemeral keys, encryption, HTTP clients, cloud storage, platform channels, pages and widgets, formatting of durations and currency.
