# LENO masternode payments and amount units, in Dafny

This project models two parts of the LENO node.

**The masternode payment ledger** (`src/masternode-payments.h`, `src/masternode-payments.cpp`). Masternodes vote, per block height and per collateral phase, for the masternode that should be paid. The model covers:

- **The per-height tally** (`CMasternodeBlockPayees`): the module `BlockPayees` and its class `BlockPayees`. It merges votes into entries unique by (script, phase). It finds the winner of a phase with the source's strict `>` scan, so the earliest entry wins a tie. It checks that a block pays every phase whose best payee has at least 6 votes.
- **The winner message** (`CMasternodePaymentWinner`): the module `PaymentWinner`. It covers the message's fields, its version-dependent wire format, the identity hash, the voter check (`IsValid`) and signing.
- **The ledger** (`CMasternodePayments`): the module `MasternodePayments` and its class `MasternodePayments`, with three maps:
  - votes by hash;
  - tallies by height, held as `BlockPayees` objects;
  - the last-vote slots by (voter, phase).

  Its operations are:
  - admitting a vote (`AddWinningMasternode`, `CanVote`, the `mnw` handler);
  - pruning old votes (`CleanPaymentList`);
  - answering a sync request (`Sync`, the `mnget` handler);
  - look-ahead scheduling (`IsScheduled`);
  - the oldest and newest height (`GetOldestBlock`, `GetNewestBlock`);
  - the block payment check (`IsTransactionValid`);
  - producing this node's own votes (`ProcessBlock`);
  - filling a new block's payments (`FillBlockPayee`).

  Every state-changing method is proved against a function on the ledger's values (`View()`). The properties are proved about those functions.
- **The block-level decisions** (`IsBlockValueValid`, `IsBlockPayeeValid`, and the free functions `FillBlockPayee` and `GetRequiredPayments`): the module `BlockPolicy`.
- **The `mnpayments.dat` file** (`CMasternodePaymentDB::Write`/`Read`, `DumpMasternodePayments`): the module `PaymentDb`. The file is modelled as a byte sequence: the magic message, the network magic, the two serialised maps, then a checksum. `Read` returns one result code per failure.
- **The Bitcoin serialisation format** the ledger uses: the module `Serialize`. It covers little-endian integers, compact sizes, byte vectors, vectors and maps in key order, with their round trips.

**The amount formatter and parser** (`src/qt/bitcoinunits.cpp`): the module `BitcoinUnits`. It covers the units and their factors, `format` (sign, quotient with thin-space grouping, zero-padded fraction), `formatWithUnit` and `parse`. The main result is that parsing a formatted amount gives the amount back.

Collaborators are parameters, as plain values or uninterpreted functions:

- the masternode registry;
- the chain tip and block index;
- the hash and the signature scheme;
- the sporks, the budget and the reward schedule.

Network side effects (`Misbehaving`, `AskForMN`, `Relay`, `PushInventory`, `PushMessage`, `FulfilledRequest`, `AddedMasternodeWinner`) are returned as a list of `Action` values.

The model follows the code where it departs from the protocol's documented intent:

- **Order of the `mnw` checks.** The code checks the height window and the voter's rank before `CanVote`, and the signature last.
- **The window's lower bound.** It is `tip - int(count * 1.25)`, a truncation rather than a ceiling.
- **Pruning.** It erases the tally at a stale vote's height whether or not that tally is empty.
- **The payment check.** A phase is satisfied by any payee of that phase with at least 6 votes, not only by the strongest one.
- **The signed message.** It is the outpoint's text, the height and the payee script's text joined with no separator, so two different votes can sign the same text (`MessageTextCollides`).
- **Failed reads.** Only `IncorrectFormat` clears the ledger. Every other failed read leaves it as it was.

## Model

| member | source | states |
|---|---|---|
| Common.Wrap32 | src/masternode-payments.h:147 | the result is x itself exactly when x fits 32 bits, and is always congruent to x modulo 2^32 (the `nVotes += nIncrement` addition) |
| Serialize.U32RoundTrip | src/masternode-payments.h:103 | a 32-bit unsigned field (the payee's level) reads back as written, leaving the following bytes |
| Serialize.I32RoundTrip | src/masternode-payments.h:104 | a 32-bit signed field (votes, heights) reads back as written, leaving the following bytes |
| Serialize.HashRoundTrip | src/masternode-payments.h:384 | a uint256 key reads back as written |
| Serialize.CompactSizeRoundTrip | src/masternode-payments.h:102 | a length prefix up to MAX_SIZE reads back as written |
| Serialize.BytesRoundTrip | src/masternode-payments.h:102 | a script (length-prefixed bytes) reads back as written |
| Serialize.VectorRoundTrip | src/masternode-payments.h:208 | a vector of records whose codec round-trips reads back element by element |
| Serialize.AscendingSorted | src/masternode-payments.h:307-308 | the order a std::map walks its keys is strictly ascending |
| Serialize.AscendingMembers | src/masternode-payments.h:307-308 | that order lists every key of the map exactly once |
| Serialize.MapRoundTrip | src/masternode-payments.h:382-386 | a map written in key order reads back as the same keys with each value normalised by its codec |
| PaymentWinner.NewWinner | src/masternode-payments.h:231-237 | a vote built from a voter input has that voter, height 0, an empty payee, an empty payee input and no signature |
| PaymentWinner.WithPayee | src/masternode-payments.h:262-265 | AddPayee(vin) sets the payee input to vin and the payee script to the script derived from it; voter, height and signature are unchanged |
| PaymentWinner.IsValidVoter | src/masternode-payments.cpp:788-819 | a vote's sender is valid iff the registry knows it, its protocol is at least the active one, and its rank at height − 100 is at most 10 |
| PaymentWinner.Sign | src/masternode-payments.cpp:501-519 | a signing that succeeds changes only the signature, and the new signature verifies on the vote's message under the key |
| PaymentWinner.MessageIgnoresSignature | src/masternode-payments.cpp:506 | the signed message (voter outpoint, height, payee script) does not depend on the signature |
| PaymentWinner.HexText | src/masternode-payments.cpp:506 | the hash's text has two lower-case hexadecimal digits per byte |
| PaymentWinner.OutPointText | src/masternode-payments.cpp:506 | ToStringShort of an outpoint is 64 hex digits, a dash, then the index in decimal |
| PaymentWinner.MessageTextCollides | src/masternode-payments.cpp:506 | the signed text joins outpoint, height and payee with no separator: index 1 at height 1100 and index 11 at height 100 of the same transaction, with the same payee, give the same text |
| PaymentWinner.SignatureCarriesOver | src/masternode-payments.cpp:904-907 | a signature that verifies for one vote verifies for another vote with the same text whose voter has the same key |
| PaymentWinner.OutPointRoundTrip | src/masternode-payments.h:273 | the voter's outpoint (hash, index) reads back as written |
| PaymentWinner.TxInRoundTrip | src/masternode-payments.h:273 | the voter's input reads back as written |
| PaymentWinner.PayeeRoundTrip | src/masternode-payments.h:276-279 | below the collateral-input protocol the payee script reads back and the payee input reads as empty; from it on, the reverse |
| PaymentWinner.VoteRoundTrip | src/masternode-payments.h:274-281 | height, the version's payee form and the signature read back after the voter input |
| PaymentWinner.WinnerRoundTrip | src/masternode-payments.h:270-282 | a vote written at a version reads back at that version with every field restored, except the payee form that version does not carry, which keeps its default |
| PaymentWinner.HashRank | src/masternode-payments.h:307 | a hash's rank in the map's key order is its little-endian number, below 2^256 |
| PaymentWinner.HashIgnoresSignature | src/masternode-payments.h:239-252 | two votes with the same payee (script or input, by active protocol), height and voter outpoint have the same hash, whatever their signatures |
| PaymentWinner.PreimageDeterminesIdentity | src/masternode-payments.h:239-252 | equal hashed bytes imply the same payee, height and voter outpoint: the hash input covers exactly those fields |
| BlockPayees.FirstSlot | src/masternode-payments.h:144-151 | the index of the first entry with that script (and level), or None iff no entry has them |
| BlockPayees.WithVotesCases | src/masternode-payments.h:141-155 | if an entry with the same (script, level) exists, only its votes change, by the increment, and the length is unchanged; otherwise exactly (script, level, inc) is appended |
| BlockPayees.WithVotesKeepsUnique | src/masternode-payments.h:141-155 | entries stay unique by (script, level) |
| BlockPayees.WithVotesMonotone | src/masternode-payments.h:141-155 | with a non-negative increment that does not overflow, no entry is removed, reordered or loses votes |
| BlockPayees.WinnerUnique | src/masternode-payments.h:172-186 | at most one entry is the winner: the maximum votes of the level, earlier entries strictly fewer |
| BlockPayees.WinnerIsBest | src/masternode-payments.h:157-186 | the scan's result determines the winner: none when every entry of the level has votes ≤ −1, else the winning entry's script |
| BlockPayees.PayeeRoundTrip | src/masternode-payments.h:100-105 | a payee entry (script, level, votes) reads back as written |
| BlockPayees.BlockPayeesRoundTrip | src/masternode-payments.h:204-209 | a tally (height, entries) reads back as written |
| BlockPayees.BlockPayees.constructor | src/masternode-payments.h:120-124 | a new tally has the given height and no entries |
| BlockPayees.BlockPayees.FromData | src/masternode-payments.h:204-209 | a tally rebuilt from its serialised value has that height and those entries |
| BlockPayees.BlockPayees.AddPayee | src/masternode-payments.h:126-139 | merges into the first entry with the script, whatever its level, or appends one at level 0; the height is unchanged |
| BlockPayees.BlockPayees.AddPayeeOnLevel | src/masternode-payments.h:141-155 | merges into the entry with that script and level, or appends one; the height is unchanged |
| BlockPayees.BlockPayees.GetPayee | src/masternode-payments.h:157-170 | None iff every entry has votes ≤ −1; otherwise the script of the entry with the most votes, the earliest on a tie |
| BlockPayees.BlockPayees.GetPayeeOnLevel | src/masternode-payments.h:172-186 | the same over the entries of the level only |
| BlockPayees.BlockPayees.HasPayeeWithVotes | src/masternode-payments.h:188-197 | true iff some entry has that script and at least the required votes |
| BlockPayees.BlockPayees.MaxVotesOnLevel | src/masternode-payments.cpp:656-665 | the running maximum reaches 6 iff some entry of the level has at least 6 votes |
| BlockPayees.BlockPayees.LevelPaid | src/masternode-payments.cpp:669-711 | true iff some payee of the level with at least 6 votes is paid at least the required amount by an output with its script |
| BlockPayees.BlockPayees.IsTransactionValid | src/masternode-payments.cpp:633-715 | true iff every phase 1..phaseCount that has a payee with ≥ 6 votes is paid as required; a phase without one imposes nothing |
| BlockPayees.BlockPayees.GetRequiredPayments | src/masternode-payments.cpp:717-735 | one line per entry, in order, with its address, its votes as a uint64 and its level |
| MasternodePayments.RecordVote | src/masternode-payments.h:352-369 | a vote is refused iff the slot already holds its height; either way the slot ends up holding that height |
| MasternodePayments.RepeatRefused | src/masternode-payments.h:361-368 | an immediate repeat of a vote for the same slot and height is refused |
| MasternodePayments.OnlyLatestRemembered | src/masternode-payments.h:361-368 | a slot remembers only the last height: the sequence h, h′, h accepts h again |
| MasternodePayments.VotedAddsOne | src/masternode-payments.cpp:622-628 | recording a vote creates the height's tally if absent and adds exactly one vote to (payee script, payee phase); every other count at every height is unchanged |
| MasternodePayments.CleanLimit | src/masternode-payments.cpp:771 | the limit is int(size × 1.25) when that exceeds 1000, and 1000 otherwise |
| MasternodePayments.KeptVotes | src/masternode-payments.cpp:773-785 | exactly the votes with tip − height ≤ limit are kept, with their values |
| MasternodePayments.StaleHeights | src/masternode-payments.cpp:777-781 | the tallies erased are exactly those at the heights of stale votes |
| MasternodePayments.KeptVotesIdempotent | src/masternode-payments.cpp:759-786 | pruning twice at the same tip and limit is pruning once |
| MasternodePayments.Prune | src/masternode-payments.cpp:773-785 | the loop keeps exactly the fresh votes and exactly the tallies at heights without a stale vote, leaving kept tallies untouched |
| MasternodePayments.SyncFloor | src/masternode-payments.cpp:928-935 | the served window starts at tip − min(request, int(CountEnabled × 1.25)) |
| MasternodePayments.VoteOrder | src/masternode-payments.h:307 | the vote map is walked in ascending uint256 order, each key once |
| MasternodePayments.ServedCount | src/masternode-payments.cpp:931-940 | the inventory has one item per stored vote whose height is in the window |
| MasternodePayments.ServedMembers | src/masternode-payments.cpp:933-940 | every announced hash is the hash of a vote in the window, and every such vote is announced |
| MasternodePayments.SyncServesWindow | src/masternode-payments.cpp:917-942 | Sync's inventory has one item per vote with height in [tip − count, tip + 20], and the completion count equals the number pushed |
| MasternodePayments.Admit | src/masternode-payments.cpp:606-631 | a vote is added iff the block hash at height − 100 is known and its hash is new; then it is stored and one vote is tallied for its payee and phase; otherwise nothing changes |
| MasternodePayments.FirstAcceptedHeight | src/masternode-payments.cpp:419 | the lowest accepted height is tip − int(1.25 × enabled count on the payee's level) |
| MasternodePayments.HeaderCheck | src/masternode-payments.cpp:375-430 | a vote that passes the first checks came from a peer at the active protocol, has known voter and payee phases, a tip, a new hash, a height in [FirstAcceptedHeight, tip + 20] and a valid voter |
| MasternodePayments.HandleWinner | src/masternode-payments.cpp:370-451 | a vote stopped by the first checks leaves the ledger unchanged |
| MasternodePayments.HandlerStoresOnlyAccepted | src/masternode-payments.cpp:370-451 | a vote that is not accepted changes neither the vote map nor the tallies |
| MasternodePayments.AcceptedPassedChecks | src/masternode-payments.cpp:413-450 | an accepted vote had a new hash, a height at most tip + 20, a valid voter and a valid signature; it is stored under its hash and its slot holds its height |
| MasternodePayments.SlotStoresOnlyAccepted | src/masternode-payments.cpp:432-450 | after the first checks, a vote that is not accepted stores nothing |
| MasternodePayments.SlotAcceptedPassed | src/masternode-payments.cpp:432-450 | after the first checks, an accepted vote is correctly signed, stored and recorded in its slot |
| MasternodePayments.ForgedVoteTakesSlot | src/masternode-payments.cpp:432-445 | because the slot is recorded before the signature check, a badly signed vote keeps out the genuine vote of the same voter, phase and height |
| MasternodePayments.SignedFirstKeepsSlot | src/masternode-payments.cpp:432-445 | with the signature checked first, a badly signed vote leaves the ledger as it was |
| MasternodePayments.OrdersAgreeWhenSigned | src/masternode-payments.cpp:432-450 | for a correctly signed vote, both orders of slot and signature check give the same result |
| MasternodePayments.PhaseVote | src/masternode-payments.cpp:859-880 | a produced vote is by this node, for the given height, pays the next masternode in the payment queue of the phase, and carries a signature that verifies |
| MasternodePayments.ProduceKeeps | src/masternode-payments.cpp:857-888 | voting for a block keeps every stored vote and the last-vote slots |
| MasternodePayments.ProduceRelaysStored | src/masternode-payments.cpp:857-890 | at most one vote per phase is relayed, and each relayed vote is by this node, for the height, and stored under its hash |
| MasternodePayments.FillPhase | src/masternode-payments.cpp:318-334 | a phase with a payee appends exactly one output; a phase without one appends none |
| MasternodePayments.FillPhasePaid | src/masternode-payments.cpp:318-326 | a phase with a payee appends (payment, payee) and subtracts the payment from the base output (vout[1] for proof of stake, else vout[0]) unless that is a zerocoin mint |
| MasternodePayments.FillPhaseConserves | src/masternode-payments.cpp:318-326 | filling one phase leaves the transaction's total value unchanged |
| MasternodePayments.FillAppendsPayouts | src/masternode-payments.cpp:301-335 | filling appends exactly the phases' payouts, in phase order, and leaves every existing output's script unchanged |
| MasternodePayments.FillConservesValue | src/masternode-payments.cpp:293-336 | when the base output is not a mint and (for proof of work) every phase has a payee, filling leaves the total value unchanged |
| MasternodePayments.MasternodePayments.constructor | src/masternode-payments.h:311-315 | a new ledger has empty maps, nSyncedFromPeer = 0 and nLastBlockHeight = 0 |
| MasternodePayments.MasternodePayments.Clear | src/masternode-payments.h:317-322 | empties the vote and tally maps and leaves the last-vote slots and nLastBlockHeight unchanged |
| MasternodePayments.MasternodePayments.GetBlockPayee | src/masternode-payments.cpp:521-528 | nothing without a tally at the height; otherwise that tally's winner |
| MasternodePayments.MasternodePayments.GetBlockPayeeOnLevel | src/masternode-payments.cpp:530-535 | nothing without a tally at the height; otherwise that tally's winner on the level |
| MasternodePayments.MasternodePayments.IsTransactionValid | src/masternode-payments.cpp:748-757 | true when there is no tally at the height; otherwise that tally's payment check |
| MasternodePayments.MasternodePayments.GetRequiredPayments | src/masternode-payments.cpp:737-746 | the height's tally's lines, or none without a tally |
| MasternodePayments.MasternodePayments.GetOldestBlock | src/masternode-payments.cpp:954-969 | the least tallied height, or INT_MAX when there is none |
| MasternodePayments.MasternodePayments.GetNewestBlock | src/masternode-payments.cpp:972-987 | the greatest tallied height, but never below 0 |
| MasternodePayments.MasternodePayments.IsScheduledLegacy | src/masternode-payments.cpp:539-566 | true iff there is a tip and the winner at some height in [tip, tip + 8] other than the excluded one pays the script |
| MasternodePayments.MasternodePayments.IsScheduled | src/masternode-payments.cpp:568-604 | true iff there is a tip and the level's winner at some height in [tip + 10 − min(10, levelCount − 1), tip + 10) other than the excluded one pays the script |
| MasternodePayments.MasternodePayments.CleanPaymentList | src/masternode-payments.cpp:759-786 | without a tip nothing changes; otherwise exactly the stale votes and the tallies at their heights go, and everything else stays |
| MasternodePayments.MasternodePayments.Sync | src/masternode-payments.cpp:917-942 | nothing without a tip; otherwise one inventory item per vote in the window, in map order, then the count |
| MasternodePayments.MasternodePayments.EnsureTally | src/masternode-payments.cpp:622-625 | creates an empty tally at the height when there is none and changes nothing else |
| MasternodePayments.MasternodePayments.AddVote | src/masternode-payments.cpp:628 | adds one vote for (script, phase) to the height's tally and changes no other tally |
| MasternodePayments.MasternodePayments.CanVoteOutPoint | src/masternode-payments.h:337-350 | refuses iff the outpoint's slot holds the height, records the height, and changes nothing else |
| MasternodePayments.MasternodePayments.CanVote | src/masternode-payments.h:352-369 | the same for the slot ((hash + n) << 4) + payee phase in uint256 arithmetic |
| MasternodePayments.MasternodePayments.AddWinningMasternode | src/masternode-payments.cpp:606-631 | adds iff the block hash at height − 100 is known and the hash is new; then stores the vote and tallies one vote for its payee and phase; otherwise nothing changes |
| MasternodePayments.MasternodePayments.ProcessWinner | src/masternode-payments.cpp:370-451 | the ledger and actions after an `mnw` message are those of the handler's function |
| MasternodePayments.MasternodePayments.CheckSlotAndSignature | src/masternode-payments.cpp:432-450 | the slot check, then the signature, then AddWinningMasternode, as the handler's tail |
| MasternodePayments.MasternodePayments.ProcessMessage | src/masternode-payments.cpp:346-452 | nothing happens before the chain is synced or in lite mode; a repeated `mnget` on main net earns misbehaviour, any other is answered by Sync; `mnw` goes through the handler |
| MasternodePayments.MasternodePayments.ProcessBlock | src/masternode-payments.cpp:821-891 | a node that is not a ranked masternode, a height not above the last voted one, a budget height or a missing key changes nothing and returns true only for an eligible budget height; otherwise every phase of the next block is voted, and the result is whether any vote was relayed |
| MasternodePayments.MasternodePayments.VotePhases | src/masternode-payments.cpp:857-890 | the phases are voted in order, relaying exactly the votes added, and nLastBlockHeight becomes the height iff one was |
| MasternodePayments.MasternodePayments.VoteForPhase | src/masternode-payments.cpp:859-887 | one phase: the vote is produced, signed, admitted and relayed iff each step succeeds |
| MasternodePayments.MasternodePayments.PayeeFor | src/masternode-payments.cpp:304-313 | the phase's winner at the height, or else the registry's current masternode on the level |
| MasternodePayments.MasternodePayments.FillBlockPayee | src/masternode-payments.cpp:293-336 | nothing without a tip; otherwise the phases 1..phaseCount(tip + 1) are filled in order |
| BlockPolicy.BlockHeight | src/masternode-payments.cpp:183-190 | the tip's height + 1 when the parent is the tip, else the parent's height + 1, else 0 |
| BlockPolicy.IsBlockValueValid | src/masternode-payments.cpp:178-225 | valid iff there is no tip, the height is exempt (unsynced and in the first 100 blocks of a budget cycle; or synced, superblocks on and a budget block), or the minted value is at most the expected one |
| BlockPolicy.PaymentTx | src/masternode-payments.cpp:236 | the checked transaction is one of the block's: the coinstake after the last proof-of-work block, the coinbase before |
| BlockPolicy.IsBlockPayeeValid | src/masternode-payments.cpp:227-271 | true when unsynced; else true for a valid budget payment; false for an invalid one under spork 9; else true iff the ledger's check passes or spork 8 is off; false only under spork 8 or 9 |
| BlockPolicy.FillBlock | src/masternode-payments.cpp:274-284 | nothing without a tip; a budget block is filled by the budget, any other by the ledger |
| BlockPolicy.RequiredPayments | src/masternode-payments.cpp:286-291 | a budget block's lines come from the budget, any other height's from the ledger |
| PaymentDb.OnDisk | src/masternode-payments.h:382-386 | the saved state reads back with the same keys and tallies, each vote in its on-wire form |
| PaymentDb.VotesRoundTrip | src/masternode-payments.h:384 | the vote map reads back, each vote in its on-wire form |
| PaymentDb.TalliesRoundTrip | src/masternode-payments.h:385 | the tally map reads back unchanged |
| PaymentDb.SavedRoundTrip | src/masternode-payments.h:382-386 | the ledger's body (votes then tallies) reads back |
| PaymentDb.Frame | src/masternode-payments.cpp:43-48 | a file holds at least the 32-byte checksum |
| PaymentDb.FrameSplit | src/masternode-payments.cpp:43-48 | the checksum at the end covers exactly the bytes before it: magic message, network magic, body |
| PaymentDb.ParseData | src/masternode-payments.cpp:109-137 | the body loads iff the result is Ok; the result is Ok, IncorrectMagicMessage, IncorrectMagicNumber or IncorrectFormat |
| PaymentDb.Cleaned | src/masternode-payments.cpp:141-146 | a read that is not a dry run prunes as CleanPaymentList does |
| PaymentDb.ReadFile | src/masternode-payments.cpp:69-149 | FileError iff there is no file; HashReadError iff it is shorter than the checksum; IncorrectFormat clears the maps; every other failure leaves the ledger unchanged |
| PaymentDb.WriteThenRead | src/masternode-payments.cpp:38-149 | a file written by Write reads back Ok with the written votes and tallies, pruned unless it is a dry run |
| PaymentDb.TamperedRefused | src/masternode-payments.cpp:102-107 | data whose checksum does not match is IncorrectHash and loads nothing |
| PaymentDb.ForeignMessageRefused | src/masternode-payments.cpp:112-119 | a file with another magic message is IncorrectMagicMessage and loads nothing |
| PaymentDb.ForeignNetworkRefused | src/masternode-payments.cpp:122-129 | a file of another network is IncorrectMagicNumber and loads nothing |
| PaymentDb.UndecodableBodyClears | src/masternode-payments.cpp:131-137 | a correctly framed file whose body does not decode is IncorrectFormat and clears the maps |
| PaymentDb.Dump | src/masternode-payments.cpp:151-176 | the dump writes the current ledger iff the dry-run read of the old file is Ok, FileError or IncorrectFormat |
| PaymentDb.VerdictIndependentOfReader | src/masternode-payments.cpp:69-149 | the result code depends on the file only, not on the ledger read into, the dry-run flag or the tip |
| PaymentDb.DumpReplacesOwnFile | src/masternode-payments.cpp:151-176 | a file written by Write, or a missing file, is overwritten |
| PaymentDb.DumpKeepsForeignFile | src/masternode-payments.cpp:161-170 | a file of another magic message or network is kept |
| PaymentDb.DumpThenRead | src/masternode-payments.cpp:151-176 | what the dump writes reads back Ok as the current ledger |
| BitcoinUnits.AvailableUnits | src/qt/bitcoinunits.cpp:21-28 | three distinct units |
| BitcoinUnits.ValidIffAvailable | src/qt/bitcoinunits.cpp:21-40 | a unit is valid iff availableUnits lists it |
| BitcoinUnits.Id | src/qt/bitcoinunits.cpp:42-54 | the identifier is "???" iff the unit is invalid |
| BitcoinUnits.Name | src/qt/bitcoinunits.cpp:56-81 | the name is "???" iff the unit is invalid, and it holds no space |
| BitcoinUnits.UnitsDistinguishable | src/qt/bitcoinunits.cpp:42-81 | distinct valid units have distinct identifiers and names |
| BitcoinUnits.Decimals | src/qt/bitcoinunits.cpp:124-136 | between 2 and 8 for a valid unit, 0 otherwise |
| BitcoinUnits.Factor | src/qt/bitcoinunits.cpp:110-122 | 10^decimals for a valid unit, 10^8 otherwise |
| BitcoinUnits.RightJustified | src/qt/bitcoinunits.cpp:151 | a text at least as long as the width is returned unchanged; a shorter one gets fill characters in front up to the width, and the text itself ends the result |
| BitcoinUnits.Utf16Length | src/qt/bitcoinunits.cpp:236-242 | QString::size of a text: its UTF-16 code units, between its number of characters and twice that |
| BitcoinUnits.LeftJustified | src/qt/bitcoinunits.cpp:240 | a text of at least `width` code units is returned unchanged; a shorter one starts the result and is followed by fill characters until the result is `width` code units long |
| Common.NumberText | src/qt/bitcoinunits.cpp:150 | the text of a non-negative number is its decimal digits |
| Common.DigitsValue | src/qt/bitcoinunits.cpp:150 | QString::number of a non-negative value is a digit string with that value |
| BitcoinUnits.GroupedStrip | src/qt/bitcoinunits.cpp:156-159 | removing the thin spaces from the grouped quotient gives the quotient back |
| BitcoinUnits.GroupedRight | src/qt/bitcoinunits.cpp:157-159 | grouping puts a thin space before each group of three digits counted from the right |
| BitcoinUnits.GroupedChars | src/qt/bitcoinunits.cpp:156-159 | the grouped quotient starts with the quotient's first digit and holds only digits and thin spaces |
| BitcoinUnits.AsWrittenMagnitude | src/qt/bitcoinunits.cpp:147 | the 64-bit `n > 0 ? n : -n` is non-negative for every amount but INT64_MIN |
| BitcoinUnits.Magnitude | src/qt/bitcoinunits.cpp:147 | the intended magnitude: −n for a negative amount, n otherwise |
| BitcoinUnits.MagnitudesAgree | src/qt/bitcoinunits.cpp:147 | the 64-bit `n > 0 ? n : -n` equals the true magnitude for every amount except INT64_MIN |
| BitcoinUnits.FractionUnits | src/qt/bitcoinunits.cpp:149 | the remainder is below the unit's factor |
| BitcoinUnits.MagnitudeSplit | src/qt/bitcoinunits.cpp:147-149 | quotient × factor + remainder is the magnitude |
| BitcoinUnits.SignText | src/qt/bitcoinunits.cpp:161-164 | "-" iff n < 0; "+" iff the plus flag is set and n > 0; nothing otherwise |
| BitcoinUnits.InsertSeparators | src/qt/bitcoinunits.cpp:156-159 | the insertion loop produces the grouped quotient |
| BitcoinUnits.Format | src/qt/bitcoinunits.cpp:138-170 | the method builds the text FormatText specifies: empty for an invalid unit, otherwise sign, quotient grouped as the style asks, ".", remainder padded to the unit's decimals |
| BitcoinUnits.FormatTextLayout | src/qt/bitcoinunits.cpp:144-169 | for a valid unit the text is the sign, the shown quotient and the zero-padded remainder |
| BitcoinUnits.FormatTextParts | src/qt/bitcoinunits.cpp:144-169 | for a valid unit the text is sign, shown quotient digits, ".", and the padded remainder digits |
| BitcoinUnits.FormatWithUnit | src/qt/bitcoinunits.cpp:188-191 | the formatted amount, one space, then the unit's name |
| BitcoinUnits.FractionDigits | src/qt/bitcoinunits.cpp:151 | the padded remainder has exactly the unit's decimals, all digits, with the remainder's value |
| BitcoinUnits.ShownProperties | src/qt/bitcoinunits.cpp:156-159 | the shown quotient holds thin spaces iff the style is Always, or Standard with more than 4 digits, and the quotient has more than 3 digits |
| BitcoinUnits.FormatSignOnce | src/qt/bitcoinunits.cpp:161-164 | the text starts with "-" iff n < 0 and with "+" iff plus and n > 0, and holds no other sign |
| BitcoinUnits.FormatGrouping | src/qt/bitcoinunits.cpp:156-169 | the text has a thin space iff the style groups a quotient of more than 3 digits, and without them it is sign, quotient, ".", padded remainder |
| BitcoinUnits.FormatMinAsWritten | src/qt/bitcoinunits.cpp:147-162 | as written, formatting INT64_MIN yields a text starting with two minus signs |
| BitcoinUnits.Split | src/qt/bitcoinunits.cpp:225 | splitting on "." gives at least one part |
| BitcoinUnits.SplitCount | src/qt/bitcoinunits.cpp:225 | there is one part more than there are dots |
| BitcoinUnits.Parse | src/qt/bitcoinunits.cpp:218-250 | success requires a valid unit, a non-empty string and a value; its two length tests measure UTF-16 code units |
| BitcoinUnits.ParseAtMostOneDot | src/qt/bitcoinunits.cpp:225-229 | a parse that succeeds saw at most one dot once spaces are removed |
| BitcoinUnits.ParseRefusesDots | src/qt/bitcoinunits.cpp:227-229 | a string with two dots is refused |
| BitcoinUnits.ParseRefusesPrecision | src/qt/bitcoinunits.cpp:233-238 | a fraction of more code units than the unit's decimals is refused, storing nothing |
| BitcoinUnits.ParseRefusesLong | src/qt/bitcoinunits.cpp:240-244 | a text that, without spaces, is a whole part, ".", and a fraction no longer than the unit's decimals is refused, storing nothing, when the whole part's code units plus the decimals exceed 18; signs and any other characters count |
| BitcoinUnits.ParseRefusesLongWhole | src/qt/bitcoinunits.cpp:240-244 | the same for a text without a dot |
| BitcoinUnits.ParseAstralRefused | src/qt/bitcoinunits.cpp:240-244 | a character outside the Basic Multilingual Plane counts as two: "123456789" and an emoji in whole coins is 19 code units with the padding and is refused, storing nothing |
| BitcoinUnits.ParseFormatRefusesLong | src/qt/bitcoinunits.cpp:138-244 | a formatted amount whose sign, quotient digits and decimals exceed 18 characters is refused, storing nothing |
| BitcoinUnits.ParseWithinEighteenDigits | src/qt/bitcoinunits.cpp:240-245 | a parsed value has magnitude below 10^18 |
| BitcoinUnits.ParseIgnoresSpaces | src/qt/bitcoinunits.cpp:224-225 | spaces and thin spaces do not change the result |
| BitcoinUnits.ToLongLongSigned | src/qt/bitcoinunits.cpp:245 | toLongLong of an optional sign and digits is their signed value |
| BitcoinUnits.ParseOfParts | src/qt/bitcoinunits.cpp:218-249 | a text that, without spaces, is a whole part, ".", and a fraction of exactly the unit's decimals in code units, 18 code units at most together, parses to toLongLong of whole part and fraction joined |
| BitcoinUnits.TrimmedSpec | src/qt/bitcoinunits.cpp:245 | what toLongLong converts is the text with only whitespace (the characters QChar::isSpace accepts) cut from its start and its end |
| BitcoinUnits.TrimmedEnds | src/qt/bitcoinunits.cpp:245 | what remains neither starts nor ends with whitespace |
| BitcoinUnits.TrimmedDropsPadding | src/qt/bitcoinunits.cpp:245 | whitespace around a text that starts and ends with other characters is removed entirely, and the text is kept whole |
| BitcoinUnits.ToLongLongIgnoresPadding | src/qt/bitcoinunits.cpp:245 | toLongLong gives the same result with or without whitespace around such a text |
| BitcoinUnits.ToLongLongBound | src/qt/bitcoinunits.cpp:245 | a value toLongLong reads from a text has magnitude below 10 to the power of the text's length |
| BitcoinUnits.PaddedFractionValue | src/qt/bitcoinunits.cpp:240 | a fraction of f digits padded with zeros to d digits has d digits and denotes the fraction's value times 10^(d − f) |
| BitcoinUnits.PartsValue | src/qt/bitcoinunits.cpp:240-245 | the amount a sign, a whole part and a fraction denote in the unit: whole × factor + fraction × 10^(decimals − fraction length), negated after "-", equal to the whole part and padded fraction read as one number, and below 10^18 in magnitude |
| BitcoinUnits.ParseDigitsValue | src/qt/bitcoinunits.cpp:240-245 | the digit string parse builds from those parts is at most 18 code units long and toLongLong reads that amount from it |
| BitcoinUnits.ParseWhole | src/qt/bitcoinunits.cpp:218-249 | a text that, without spaces, is an optional sign and digits with no dot, short enough for 18 characters with the decimals, parses to that many whole units, signed |
| BitcoinUnits.ParseFraction | src/qt/bitcoinunits.cpp:218-249 | a text that, without spaces, is an optional sign, digits, ".", and at most the unit's decimals of digits parses to whole × factor plus the fraction scaled to the unit, signed |
| BitcoinUnits.ParseTabbedWhole | src/qt/bitcoinunits.cpp:224-245 | a tab survives removeSpaces and is ignored by toLongLong: a tab then "1" in micro-units parses to 100 |
| BitcoinUnits.ParseTrailingNewline | src/qt/bitcoinunits.cpp:224-245 | a newline after the fraction counts as a fraction character yet is ignored by toLongLong: "1.1" then a newline in micro-units parses to 11 |
| BitcoinUnits.ParseFormat | src/qt/bitcoinunits.cpp:138-249 | parsing the formatted amount, in any style and with or without the plus sign, gives the amount back when its digits fit 18 characters |

## Findings

| source | as written | input that shows it | evidently intended | confidence | as-written member | corrected member |
|---|---|---|---|---|---|---|
| src/qt/bitcoinunits.cpp:147-162 | `n_abs = -n` in 64 bits wraps to INT64_MIN for n = INT64_MIN, so the quotient is negative, its text starts with "-", and a second "-" is inserted in front | n = INT64_MIN (−9223372036854775808) in any valid unit: the text starts "--" | the magnitude of n, giving a single leading minus | not executed; assumes two's-complement wrap of the signed negation, which C++ leaves undefined | BitcoinUnits.FormatMinAsWritten | BitcoinUnits.FormatSignOnce |

`BitcoinUnits.AsWrittenMagnitude` is the negation as written. `BitcoinUnits.Magnitude` is the intended one, and `Format`, `FormatText` and every lemma about them use it.

## Left out

- Locks (`LOCK`, `LOCK2`, `TRY_LOCK`) and concurrency are not modelled. A busy `cs_main` behaves like a missing tip: the chain tip is an `Option`.
- Cryptography is left out. The double-SHA256 digest, message signing and signature verification are uninterpreted functions passed as parameters.
- The registry, chain index, sporks, budget and reward schedule are not modelled. Each is a parameter: `mnodeman.Find`, `GetPhase`, ranks, counts, the payment queue, `GetBlockHash`, `GetBlockValue`, `GetMasternodePayment`, the `masternodeSync` flags, `IsBudgetPaymentBlock`, the budget's transaction check, fill and required payments.
- `GetPayeeScript`'s transaction lookup is a parameter of the registry.
- Network I/O is out of scope. Messages arrive already deserialised, and side effects are returned as `Action` values.
- Logging and `strError` texts are not modelled. Of the `ToString` texts, only the one a vote signs is (`PaymentWinner.MessageOf`).
- `PaymentWinner.OutPointText`: `COutPoint::ToStringShort` and `uint256::ToString` are taken as the hash's bytes from last to first in lower-case hex, a dash, then the index in decimal, because `primitives/transaction.cpp` and `uint256.cpp` are not part of this model. `CScript::ToString` is a parameter of the protocol (`scriptText`).
- `masternodeSync.mapSeenSyncMNW.erase` in `CleanPaymentList` is not modelled, because that map belongs to the sync component.
- `GetMinMasternodePaymentsProto` and `LastPayment` have no behaviour in the ledger's maps.
- File handling in `Write`/`Read` (`fopen`, `file_size`, `CAutoFile`) is not modelled. The file is a byte sequence or `None`.
- The `int fileSize` truncation of files over 2 GiB is not modelled.
- `Read` into a ledger object is modelled on the ledger's values (`PaymentDb.ReadFile`), not as an in-place update of the class.
- `Common.Wrap32`: `nVotes += nIncrement` beyond 32 bits is signed overflow, which C++ leaves undefined; the model assumes two's-complement wrap-around.
- Heights are unbounded integers. The 32-bit overflow of `nHeight + 1`, `nHeight + 10` and `nBlockHeight - 100` is not modelled.
- `CAmount` arithmetic in `FillBlockPayee` and the payment check is unbounded. 64-bit overflow of output values is not modelled.
- `GetBudgetPaymentCycleBlocks()` is taken to be positive, because `%` by it would otherwise fail in the source too.
- The `x * 1.25` conversions act on non-negative counts and are modelled as `(5 * x) / 4`, the value the double-to-int conversion gives.
- The uint256 order of `std::map<uint256, ...>` is the numeric order of the 32 little-endian bytes.
- `BitcoinUnits`: the numeric values of `LENO`, `mLENO`, `uLENO` are taken as 0, 1, 2, because `bitcoinunits.h` is not part of this model.
- `BitcoinUnits`: `description`, `formatHtmlWithUnit`, `floorWithUnit`, `floorHtmlWithUnit`, `getAmountColumnTitle`, `rowCount`, `data` and `maxMoney` are not modelled. They are Qt model, settings, HTML and translation code.
- `BitcoinUnits`: `name` takes the network as a parameter.
- `BitcoinUnits`: `removeSpaces` is not part of this model. It is modelled as deleting ' ' and U+2009.
- `BitcoinUnits`: text is a sequence of Unicode characters. Sizes are counted in UTF-16 code units where `parse` and `leftJustified` measure them (`Utf16Length`), but a QString holding an unpaired surrogate cannot be represented.
- `BitcoinUnits.RightJustified`: the width is counted in characters, not UTF-16 code units. `format` applies it only to the digits of a number, where the two counts agree.
- `BitcoinUnits.ToLongLong`: `QString::toLongLong` is modelled as trimming the characters `QChar::isSpace` accepts from both ends, then reading an optional sign followed by ASCII decimal digits whose value fits 64 bits; anything else gives no value. Qt's internal number parser is not part of this model.
- `BitcoinUnits.ParseFormat`: the round trip is stated for amounts whose sign, quotient digits and decimals fit 18 characters. Longer formatted texts are refused by `parse` itself (`ParseFormatRefusesLong`).
- `BitcoinUnits.Parse`: its contract states only the conditions for success. The refusals are stated by `ParseRefusesDots`, `ParseRefusesPrecision`, `ParseRefusesLong` and `ParseRefusesLongWhole`. The value is stated by `ParseWhole` and `ParseFraction` for a sign and digit-only parts, with or without a dot, by `ParseFormat` for formatted amounts, and by `ParseTabbedWhole` and `ParseTrailingNewline` for two texts carrying other whitespace. For parts with other characters inside, the value is given only by `Parse`'s definition.
