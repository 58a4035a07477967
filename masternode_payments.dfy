/** CMasternodePayments: the node's ledger of payment votes. It keeps every
    admitted vote by its hash, a tally per block height, and the last height
    each (voter, payee phase) slot voted for; it prunes old votes, serves them
    to syncing peers, and answers which masternode is due at a height. */
module MasternodePayments {
  import opened Common
  import opened Serialize
  import opened PaymentWinner
  import opened BlockPayees

  /** The chain as the ledger consults it: the tip height (None when the tip is
      unavailable or cs_main is busy) and whether a block hash is known at a
      height (GetBlockHash). */
  datatype Chain = Chain(tip: Option<int32>, hasBlockHash: int -> bool)

  /** The outcome of the last-vote bookkeeping: whether the vote may count,
      and the slot map afterwards. */
  datatype SlotUpdate = SlotUpdate(accepted: bool, slots: map<U256, int32>)

  /** CanVote's rule on one slot: refused iff the slot's stored height is the
      vote's height; otherwise the height is stored and the vote accepted. */
  function RecordVote(slots: map<U256, int32>, key: U256, height: int32): (r: SlotUpdate)
    ensures !r.accepted <==> key in slots && slots[key] == height
    ensures r.slots == slots[key := height]
  {
    if key in slots && slots[key] == height then SlotUpdate(false, slots)
    else SlotUpdate(true, slots[key := height])
  }

  /** An immediate repeat of an accepted vote is refused. */
  lemma RepeatRefused(slots: map<U256, int32>, key: U256, height: int32)
    ensures !RecordVote(RecordVote(slots, key, height).slots, key, height).accepted
  {
  }

  /** Only the latest height is remembered: after h, h' (h' != h), the height h
      is accepted again. */
  lemma OnlyLatestRemembered(slots: map<U256, int32>, key: U256, h: int32, h': int32)
    requires h != h'
    ensures var s1 := RecordVote(slots, key, h).slots;
            var s2 := RecordVote(s1, key, h').slots;
            RecordVote(s2, key, h).accepted
  {
  }

  /** The tally map after one vote for (script, phase) at a height: the
      height's tally is created empty if absent, then AddPayee(script, phase, 1). */
  function Voted(tallies: map<int32, BlockPayeesData>, height: int32, script: Script, phase: uint32): map<int32, BlockPayeesData> {
    var t := if height in tallies then tallies[height] else BlockPayeesData(height, []);
    tallies[height := t.(payments := WithVotes(t.payments, script, Some(phase), 1))]
  }

  /** The votes an entry has for (script, level): those of the entry add would
      merge into, 0 when there is none. */
  function VotesFor(ps: seq<Payee>, script: Script, level: uint32): int {
    match FirstSlot(ps, script, Some(level))
    case Some(i) => ps[i].votes
    case None => 0
  }

  /** AddWinningMasternode adds exactly one vote, for the payee's script and
      phase at the vote's height, and changes no other count anywhere. */
  lemma VotedAddsOne(tallies: map<int32, BlockPayeesData>, height: int32, script: Script, phase: uint32,
                     h: int32, s: Script, l: uint32)
    requires height in tallies ==> VotesFor(tallies[height].payments, script, phase) < INT32_MAX
    ensures h in Voted(tallies, height, script, phase) <==> h in tallies || h == height
    ensures h in tallies || h == height ==>
            var before := if h in tallies then VotesFor(tallies[h].payments, s, l) else 0;
            VotesFor(Voted(tallies, height, script, phase)[h].payments, s, l)
              == if h == height && s == script && l == phase then before + 1 else before
  {
    if h == height {
      var ps := if height in tallies then tallies[height].payments else [];
      var r := WithVotes(ps, script, Some(phase), 1);
      assert Voted(tallies, height, script, phase)[h].payments == r;
      match FirstSlot(ps, script, Some(phase))
      case Some(i) =>
        assert r == ps[i := ps[i].(votes := Wrap32(ps[i].votes + 1))];
        SlotsAgree(ps, r, s, l);
      case None =>
        assert r == ps + [Payee(script, phase, 1)];
        AppendedSlot(ps, Payee(script, phase, 1), s, l);
    }
  }

  /** Writing a height's tally over a freshly created one is writing it over
      the original map. */
  lemma VotedAfterCreate(start: map<int32, BlockPayeesData>, before: map<int32, BlockPayeesData>,
                         h: int32, t: BlockPayeesData, x: BlockPayeesData)
    requires before == start || (h !in start && before == start[h := t])
    requires t == if h in start then start[h] else BlockPayeesData(h, [])
    ensures before[h := x] == start[h := x]
  {
  }

  /** Changing only vote counts moves no slot. */
  lemma SlotsAgree(ps: seq<Payee>, r: seq<Payee>, s: Script, l: uint32)
    requires |r| == |ps|
    requires forall i :: 0 <= i < |ps| ==> r[i].script == ps[i].script && r[i].level == ps[i].level
    ensures FirstSlot(r, s, Some(l)).Some? == FirstSlot(ps, s, Some(l)).Some?
    ensures FirstSlot(r, s, Some(l)).Some? ==> FirstSlot(r, s, Some(l)).value == FirstSlot(ps, s, Some(l)).value
  {
    var fp, fr := FirstSlot(ps, s, Some(l)), FirstSlot(r, s, Some(l));
    if fp.Some? { assert SameSlot(r[fp.value], s, Some(l)); }
    if fr.Some? { assert SameSlot(ps[fr.value], s, Some(l)); }
  }

  /** Appending an entry moves no earlier slot, and the appended entry is
      found for its own slot when no earlier entry has it. */
  lemma AppendedSlot(ps: seq<Payee>, p: Payee, s: Script, l: uint32)
    requires FirstSlot(ps, p.script, Some(p.level)).None?
    ensures VotesFor(ps + [p], s, l) == if s == p.script && l == p.level then p.votes else VotesFor(ps, s, l)
  {
    var r := ps + [p];
    var fp, fr := FirstSlot(ps, s, Some(l)), FirstSlot(r, s, Some(l));
    if fp.Some? { assert SameSlot(r[fp.value], s, Some(l)); }
    if fr.Some? && fr.value < |ps| { assert SameSlot(ps[fr.value], s, Some(l)); }
    if s == p.script && l == p.level { assert SameSlot(r[|ps|], s, Some(l)); }
  }

  /** CleanPaymentList's threshold: max(int(size * 1.25), 1000). */
  function CleanLimit(registrySize: nat): (limit: int)
    ensures limit >= 1000 && limit >= registrySize
    ensures limit > 1000 <==> 5 * registrySize >= 4004
    ensures limit > 1000 ==> 4 * limit <= 5 * registrySize < 4 * limit + 4
  {
    var scaled := (5 * registrySize) / 4;
    if scaled > 1000 then scaled else 1000
  }

  /** A vote is old once the tip is more than `limit` blocks past its height. */
  predicate Stale(w: Winner, tip: int, limit: int) {
    tip - w.nBlockHeight > limit
  }

  /** The votes CleanPaymentList keeps. */
  function KeptVotes(votes: map<Hash, Winner>, tip: int, limit: int): (r: map<Hash, Winner>)
    ensures forall k :: k in r <==> k in votes && !Stale(votes[k], tip, limit)
    ensures forall k :: k in r ==> r[k] == votes[k]
  {
    map k | k in votes && !Stale(votes[k], tip, limit) :: votes[k]
  }

  /** The heights whose tallies CleanPaymentList erases: those of stale votes. */
  function StaleHeights(votes: map<Hash, Winner>, keys: set<Hash>, tip: int, limit: int): (r: set<int32>)
    ensures forall h :: h in r <==> exists k :: k in keys && k in votes && Stale(votes[k], tip, limit) && votes[k].nBlockHeight == h
  {
    set k | k in keys && k in votes && Stale(votes[k], tip, limit) :: votes[k].nBlockHeight
  }

  /** Pruning twice at the same tip prunes nothing more. */
  lemma KeptVotesIdempotent(votes: map<Hash, Winner>, tip: int, limit: int)
    ensures KeptVotes(KeptVotes(votes, tip, limit), tip, limit) == KeptVotes(votes, tip, limit)
  {
  }

  /** CleanPaymentList's walk: every stale vote is dropped together with the
      tally of its height. */
  method Prune<T>(votes: map<Hash, Winner>, blocks: map<int32, T>, tip: int, limit: int)
    returns (kept: map<Hash, Winner>, tallies: map<int32, T>)
    ensures kept == KeptVotes(votes, tip, limit)
    ensures forall h :: h in tallies <==> (h in blocks && h !in StaleHeights(votes, votes.Keys, tip, limit))
    ensures forall h :: h in tallies ==> tallies[h] == blocks[h]
  {
    kept := votes;
    tallies := blocks;
    var todo := votes.Keys;
    ghost var done: set<Hash> := {};
    while todo != {}
      invariant todo <= votes.Keys && done <= votes.Keys
      invariant forall k :: k in votes ==> (k in done <==> k !in todo)
      invariant forall k :: k in kept <==> k in votes && (k in todo || !Stale(votes[k], tip, limit))
      invariant forall k :: k in kept ==> kept[k] == votes[k]
      invariant forall h :: h in tallies <==> (h in blocks && h !in StaleHeights(votes, done, tip, limit))
      invariant forall h :: h in tallies ==> tallies[h] == blocks[h]
      decreases |todo|
    {
      var k :| k in todo;
      var w := kept[k];
      StaleHeightsStep(votes, done, k, tip, limit);
      if Stale(w, tip, limit) {
        kept := kept - {k};
        tallies := tallies - {w.nBlockHeight};
      }
      todo := todo - {k};
      done := done + {k};
    }
    assert done == votes.Keys;
  }

  /** The first height Sync serves: tip minus the request, capped at
      int(CountEnabled * 1.25). */
  function SyncFloor(tip: int, countNeeded: int, countEnabled: nat): (lo: int)
    ensures tip - lo <= countNeeded && 4 * (tip - lo) <= 5 * countEnabled
    ensures tip - lo == countNeeded || 5 * countEnabled < 4 * (tip - lo) + 4
  {
    var cap := (5 * countEnabled) / 4;
    tip - (if countNeeded > cap then cap else countNeeded)
  }

  predicate InSyncWindow(w: Winner, lo: int, tip: int) {
    lo <= w.nBlockHeight <= tip + 20
  }

  function SyncKeys(votes: map<Hash, Winner>, lo: int, tip: int): set<Hash> {
    set k | k in votes && InSyncWindow(votes[k], lo, tip)
  }

  /** A height the tally map may hold (the map is keyed by int). */
  predicate IsHeight(h: int) {
    -0x8000_0000 <= h < 0x8000_0000
  }

  /** The phase winner at height h pays `script`. */
  ghost predicate PaidAt(tallies: map<int32, BlockPayeesData>, h: int, level: Option<uint32>, script: Script) {
    IsHeight(h) && h as int32 in tallies && BestPayee(tallies[h as int32].payments, level) == Some(script)
  }

  /** The look-ahead range of IsScheduled(mn, mnLevelCount, nNotBlockHeight):
      [tip + 10 - min(10, levelCount - 1), tip + 10). */
  function ScheduleStart(tip: int, levelCount: int): int {
    tip + 10 - (if 10 < levelCount - 1 then 10 else levelCount - 1)
  }

  /** The order a std::map<uint256, _> walks its keys: ascending as uint256
      numbers. */
  function VoteOrder(keys: set<Hash>): (order: seq<Hash>)
    ensures |order| == |keys|
    ensures forall k :: k in order <==> k in keys
    ensures forall i :: 0 <= i < |order| ==> order[i] in keys
    ensures forall i, j :: 0 <= i < j < |order| ==> HashRank(order[i]) < HashRank(order[j])
  {
    RankInjective(keys);
    AscendingMembers(keys, HashRank);
    AscendingSorted(keys, HashRank);
    Ascending(keys, HashRank)
  }

  lemma RankInjective(keys: set<Hash>)
    ensures var rank: Hash -> int := HashRank;
            forall a, b :: a in keys && b in keys && rank(a) == rank(b) ==> a == b
  {
    var rank: Hash -> int := HashRank;
    forall a, b | a in keys && b in keys && rank(a) == rank(b) ensures a == b {
      FromLEInjective(a, b);
    }
  }

  /** One more vote walked by Sync. */
  lemma ServedStep(votes: map<Hash, Winner>, order: seq<Hash>, i: nat, lo: int, tip: int, proto: Protocol)
    requires i < |order|
    requires forall j :: 0 <= j < |order| ==> order[j] in votes
    ensures Served(votes, order[..i + 1], lo, tip, proto)
         == Served(votes, order[..i], lo, tip, proto)
            + if InSyncWindow(votes[order[i]], lo, tip) then [GetHash(votes[order[i]], proto)] else []
  {
    assert order[..i + 1][..i] == order[..i];
  }

  lemma AnnounceStep(hashes: seq<Hash>, x: Hash)
    ensures Announce(hashes + [x]) == Announce(hashes) + [PushInventory(x)]
  {
    assert (hashes + [x])[..|hashes|] == hashes;
  }

  /** One more vote walked by CleanPaymentList. */
  lemma StaleHeightsStep(votes: map<Hash, Winner>, done: set<Hash>, k: Hash, tip: int, limit: int)
    requires k in votes
    ensures StaleHeights(votes, done + {k}, tip, limit)
         == StaleHeights(votes, done, tip, limit) + if Stale(votes[k], tip, limit) then {votes[k].nBlockHeight} else {}
  {
  }

  /** The hashes Sync announces, walking the votes in `order`: GetHash of every
      vote whose height is in the window. */
  function Served(votes: map<Hash, Winner>, order: seq<Hash>, lo: int, tip: int, proto: Protocol): (r: seq<Hash>)
    requires forall i :: 0 <= i < |order| ==> order[i] in votes
    ensures |r| <= |order|
  {
    if order == [] then []
    else
      var last := order[|order| - 1];
      var sent := Served(votes, order[..|order| - 1], lo, tip, proto);
      if InSyncWindow(votes[last], lo, tip) then sent + [GetHash(votes[last], proto)] else sent
  }

  /** The votes in the window among those `order` lists. */
  function WindowKeys(votes: map<Hash, Winner>, order: seq<Hash>, lo: int, tip: int): set<Hash> {
    set k | k in order && k in votes && InSyncWindow(votes[k], lo, tip)
  }

  /** Walking each vote once, Sync announces exactly as many hashes as there
      are votes in the window. */
  lemma {:induction false} ServedCount(votes: map<Hash, Winner>, order: seq<Hash>, lo: int, tip: int, proto: Protocol)
    requires forall i :: 0 <= i < |order| ==> order[i] in votes
    requires forall i, j :: 0 <= i < j < |order| ==> order[i] != order[j]
    ensures |Served(votes, order, lo, tip, proto)| == |WindowKeys(votes, order, lo, tip)|
  {
    if order != [] {
      var init := order[..|order| - 1];
      var last := order[|order| - 1];
      ServedCount(votes, init, lo, tip, proto);
      assert last !in init by {
        forall i | 0 <= i < |init| ensures init[i] != last {
          assert init[i] == order[i];
        }
      }
      assert order == init + [last];
      if InSyncWindow(votes[last], lo, tip) {
        assert WindowKeys(votes, order, lo, tip) == WindowKeys(votes, init, lo, tip) + {last};
      } else {
        assert WindowKeys(votes, order, lo, tip) == WindowKeys(votes, init, lo, tip);
      }
    }
  }

  /** Every announced hash is the hash of a vote in the window, and every vote
      in the window has its hash announced. */
  lemma {:induction false} ServedMembers(votes: map<Hash, Winner>, order: seq<Hash>, lo: int, tip: int, proto: Protocol)
    requires forall i :: 0 <= i < |order| ==> order[i] in votes
    ensures forall x :: x in Served(votes, order, lo, tip, proto) <==>
              exists k :: k in WindowKeys(votes, order, lo, tip) && x == GetHash(votes[k], proto)
  {
    if order != [] {
      var init := order[..|order| - 1];
      ServedMembers(votes, init, lo, tip, proto);
      assert order == init + [order[|order| - 1]];
      assert forall k :: k in order <==> k == order[|order| - 1] || k in init;
    }
  }

  /** The inventory messages for a list of hashes. */
  function Announce(hashes: seq<Hash>): (r: seq<Action>)
    ensures |r| == |hashes|
    ensures forall i :: 0 <= i < |hashes| ==> r[i] == PushInventory(hashes[i])
  {
    if hashes == [] then [] else Announce(hashes[..|hashes| - 1]) + [PushInventory(hashes[|hashes| - 1])]
  }

  /** Walking all votes in the map's order serves the whole window: as many
      hashes as there are votes in it, and the hash of each of them. */
  lemma SyncServesWindow(votes: map<Hash, Winner>, lo: int, tip: int, proto: Protocol)
    ensures var inventory := Served(votes, VoteOrder(votes.Keys), lo, tip, proto);
            && |inventory| == |SyncKeys(votes, lo, tip)|
            && forall x :: x in inventory <==> exists k :: k in SyncKeys(votes, lo, tip) && x == GetHash(votes[k], proto)
  {
    var order := VoteOrder(votes.Keys);
    assert WindowKeys(votes, order, lo, tip) == SyncKeys(votes, lo, tip);
    ServedCount(votes, order, lo, tip, proto);
    ServedMembers(votes, order, lo, tip, proto);
  }

  /** The actions the message handler takes towards peers and the sync
      tracker, in order. */
  datatype Action =
    | Misbehaving(score: int)               // Misbehaving(pfrom, score)
    | AskForMasternode(vin: TxIn)           // mnodeman.AskForMN(pfrom, vin)
    | AddedWinner(hash: Hash)               // masternodeSync.AddedMasternodeWinner(hash)
    | RelayWinner(hash: Hash)               // CMasternodePaymentWinner::Relay
    | PushInventory(hash: Hash)             // node->PushInventory(MSG_MASTERNODE_WINNER)
    | SyncStatusCount(count: int)           // node->PushMessage("ssc", MASTERNODE_SYNC_MNW, count)
    | MarkFulfilled                         // pfrom->FulfilledRequest("mnget")

  /** The ledger's state as values: votes by hash, tallies by height, and the
      last-vote slots. */
  datatype Ledger = Ledger(votes: map<Hash, Winner>, tallies: map<int32, BlockPayeesData>,
                           lastVote: map<U256, int32>)

  /** AddWinningMasternode on values: refused, changing nothing, when the block
      100 below the vote is unknown or its hash is already stored; otherwise the
      vote is stored and counted for its payee's script and phase. */
  function Admit(l: Ledger, w: Winner, chain: Chain, reg: Registry, proto: Protocol): (r: (Ledger, bool))
    ensures r.1 <==> chain.hasBlockHash(w.nBlockHeight - 100) && GetHash(w, proto) !in l.votes
    ensures !r.1 ==> r.0 == l
    ensures r.1 ==> r.0.votes == l.votes[GetHash(w, proto) := w] && r.0.lastVote == l.lastVote
    ensures r.1 ==> r.0.tallies == Voted(l.tallies, w.nBlockHeight, PayeeScript(w, reg, proto), PayeePhase(w, reg, proto))
  {
    if !chain.hasBlockHash(w.nBlockHeight - 100) || GetHash(w, proto) in l.votes then (l, false)
    else
      var tallies := Voted(l.tallies, w.nBlockHeight, PayeeScript(w, reg, proto), PayeePhase(w, reg, proto));
      (l.(votes := l.votes[GetHash(w, proto) := w], tallies := tallies), true)
  }

  /** Why ProcessMessageMasternodePayments stopped with an "mnw" message. */
  datatype MnwOutcome =
    | OldPeer | UnknownVoterPhase | UnknownPayeePhase | NoTip | AlreadySeen
    | OutOfWindow | InvalidVoter | AlreadyVoted | BadSignature | NotAdded | Accepted

  /** What the node consults while handling a message. */
  datatype NodeContext = NodeContext(
    blockchainSynced: bool,                  // masternodeSync.IsBlockchainSynced()
    liteMode: bool,                          // fLiteMode
    mainNet: bool,                           // Params().NetworkID() == CBaseChainParams::MAIN
    synced: bool,                            // masternodeSync.IsSynced()
    countEnabled: nat,                       // mnodeman.CountEnabled()
    countOnLevel: uint32 -> nat,             // mnodeman.CountEnabledOnLevel(phase)
    chain: Chain,
    reg: Registry,
    proto: Protocol,
    verify: (Bytes, Bytes, SignedMessage) -> bool)   // obfuScationSigner.VerifyMessage

  /** The oldest height an "mnw" vote may name: tip - int(CountEnabledOnLevel * 1.25). */
  function FirstAcceptedHeight(tip: int, countOnLevel: nat): (first: int)
    ensures first <= tip
    ensures 4 * (tip - first) <= 5 * countOnLevel < 4 * (tip - first) + 4
  {
    tip - (5 * countOnLevel) / 4
  }

  /** The tail of the "mnw" handler once the vote passed the header checks:
      the vote slot, then the signature, then AddWinningMasternode. */
  function SlotThenSignature(l: Ledger, w: Winner, ctx: NodeContext): (r: (Ledger, MnwOutcome, seq<Action>)) {
    var slot := RecordVote(l.lastVote, PhaseVoteKey(w.vinMasternode.prevout, PayeePhase(w, ctx.reg, ctx.proto)), w.nBlockHeight);
    var l1 := l.(lastVote := slot.slots);
    if !slot.accepted then (l1, AlreadyVoted, [])
    else if !SignatureValid(w, ctx.reg, ctx.proto, ctx.verify) then
      (l1, BadSignature, (if ctx.synced then [Misbehaving(20)] else []) + [AskForMasternode(w.vinMasternode)])
    else
      var (l2, added) := Admit(l1, w, ctx.chain, ctx.reg, ctx.proto);
      if added then (l2, Accepted, [RelayWinner(GetHash(w, ctx.proto)), AddedWinner(GetHash(w, ctx.proto))])
      else (l2, NotAdded, [])
  }

  /** The checks of the "mnw" handler that come before the vote slot: the
      outcome and actions when one of them stops the message, None when the
      message passes them all. */
  function HeaderCheck(l: Ledger, w: Winner, peerVersion: int, ctx: NodeContext): (r: Option<(MnwOutcome, seq<Action>)>)
    ensures r.None? ==> && peerVersion >= ctx.proto.active
                        && VoterPhase(w, ctx.reg) != 0 && PayeePhase(w, ctx.reg, ctx.proto) != 0
                        && ctx.chain.tip.Some? && GetHash(w, ctx.proto) !in l.votes
                        && FirstAcceptedHeight(ctx.chain.tip.value, ctx.countOnLevel(PayeePhase(w, ctx.reg, ctx.proto)))
                             <= w.nBlockHeight <= ctx.chain.tip.value + 20
                        && IsValidVoter(w, ctx.reg, ctx.proto)
  {
    var proto := ctx.proto;
    var reg := ctx.reg;
    if peerVersion < proto.active then Some((OldPeer, []))
    else if VoterPhase(w, reg) == 0 then
      Some((UnknownVoterPhase, (if ctx.synced then [Misbehaving(20)] else []) + [AskForMasternode(w.vinMasternode)]))
    else if PayeePhase(w, reg, proto) == 0 then
      Some((UnknownPayeePhase, if proto.active >= proto.minVinVersion then [AskForMasternode(w.vinPayee)] else []))
    else if ctx.chain.tip.None? then Some((NoTip, []))
    else if GetHash(w, proto) in l.votes then Some((AlreadySeen, [AddedWinner(GetHash(w, proto))]))
    else if w.nBlockHeight < FirstAcceptedHeight(ctx.chain.tip.value, ctx.countOnLevel(PayeePhase(w, reg, proto)))
         || w.nBlockHeight > ctx.chain.tip.value + 20 then Some((OutOfWindow, []))
    else if !IsValidVoter(w, reg, proto) then
      Some((InvalidVoter, if reg.byVin(w.vinMasternode).None? then [AskForMasternode(w.vinMasternode)] else []))
    else None
  }

  /** The "mnw" branch of ProcessMessageMasternodePayments on values. */
  function HandleWinner(l: Ledger, w: Winner, peerVersion: int, ctx: NodeContext): (r: (Ledger, MnwOutcome, seq<Action>))
    ensures HeaderCheck(l, w, peerVersion, ctx).Some? ==> r.0 == l
  {
    match HeaderCheck(l, w, peerVersion, ctx)
    case Some((outcome, actions)) => (l, outcome, actions)
    case None => SlotThenSignature(l, w, ctx)
  }

  /** Only an accepted vote is stored and counted. */
  lemma HandlerStoresOnlyAccepted(l: Ledger, w: Winner, peerVersion: int, ctx: NodeContext)
    requires HandleWinner(l, w, peerVersion, ctx).1 != Accepted
    ensures HandleWinner(l, w, peerVersion, ctx).0.votes == l.votes
    ensures HandleWinner(l, w, peerVersion, ctx).0.tallies == l.tallies
  {
    if HeaderCheck(l, w, peerVersion, ctx).None? {
      SlotStoresOnlyAccepted(l, w, ctx);
    }
  }

  lemma SlotStoresOnlyAccepted(l: Ledger, w: Winner, ctx: NodeContext)
    requires SlotThenSignature(l, w, ctx).1 != Accepted
    ensures SlotThenSignature(l, w, ctx).0.votes == l.votes
    ensures SlotThenSignature(l, w, ctx).0.tallies == l.tallies
  {
    var slot := RecordVote(l.lastVote, PhaseVoteKey(w.vinMasternode.prevout, PayeePhase(w, ctx.reg, ctx.proto)), w.nBlockHeight);
    if slot.accepted && SignatureValid(w, ctx.reg, ctx.proto, ctx.verify) {
      assert !Admit(l.(lastVote := slot.slots), w, ctx.chain, ctx.reg, ctx.proto).1;
    }
  }

  /** An accepted vote passed every check: it is new, its voter is valid, its
      signature verifies, its height is in the window; it is stored under its
      hash and its slot now holds its height. */
  lemma AcceptedPassedChecks(l: Ledger, w: Winner, peerVersion: int, ctx: NodeContext)
    requires HandleWinner(l, w, peerVersion, ctx).1 == Accepted
    ensures var l' := HandleWinner(l, w, peerVersion, ctx).0;
            && l'.votes == l.votes[GetHash(w, ctx.proto) := w]
            && l'.lastVote == l.lastVote[PhaseVoteKey(w.vinMasternode.prevout, PayeePhase(w, ctx.reg, ctx.proto)) := w.nBlockHeight]
    ensures GetHash(w, ctx.proto) !in l.votes
    ensures IsValidVoter(w, ctx.reg, ctx.proto) && SignatureValid(w, ctx.reg, ctx.proto, ctx.verify)
    ensures ctx.chain.tip.Some? && w.nBlockHeight <= ctx.chain.tip.value + 20
  {
    assert HeaderCheck(l, w, peerVersion, ctx).None?;
    SlotAcceptedPassed(l, w, ctx);
  }

  lemma SlotAcceptedPassed(l: Ledger, w: Winner, ctx: NodeContext)
    requires SlotThenSignature(l, w, ctx).1 == Accepted
    ensures var l' := SlotThenSignature(l, w, ctx).0;
            && l'.votes == l.votes[GetHash(w, ctx.proto) := w]
            && l'.lastVote == l.lastVote[PhaseVoteKey(w.vinMasternode.prevout, PayeePhase(w, ctx.reg, ctx.proto)) := w.nBlockHeight]
    ensures SignatureValid(w, ctx.reg, ctx.proto, ctx.verify)
  {
  }

  /** The slot is consumed before the signature is checked: once a message
      with a bad signature has been handled as BadSignature, no message for
      the same voter outpoint, payee phase and height is accepted, however
      well it is signed. */
  lemma ForgedVoteTakesSlot(l: Ledger, forged: Winner, genuine: Winner, peerVersion: int, ctx: NodeContext)
    requires HandleWinner(l, forged, peerVersion, ctx).1 == BadSignature
    requires genuine.vinMasternode.prevout == forged.vinMasternode.prevout
    requires genuine.nBlockHeight == forged.nBlockHeight
    requires PayeePhase(genuine, ctx.reg, ctx.proto) == PayeePhase(forged, ctx.reg, ctx.proto)
    ensures HandleWinner(HandleWinner(l, forged, peerVersion, ctx).0, genuine, peerVersion, ctx).1 != Accepted
  {
    var key := PhaseVoteKey(forged.vinMasternode.prevout, PayeePhase(forged, ctx.reg, ctx.proto));
    assert HeaderCheck(l, forged, peerVersion, ctx).None?;
    var l1 := HandleWinner(l, forged, peerVersion, ctx).0;
    assert l1 == SlotThenSignature(l, forged, ctx).0;
    assert l1.lastVote == l.lastVote[key := forged.nBlockHeight];
    assert !RecordVote(l1.lastVote, key, genuine.nBlockHeight).accepted;
    if HeaderCheck(l1, genuine, peerVersion, ctx).None? {
      assert SlotThenSignature(l1, genuine, ctx).1 == AlreadyVoted;
    }
  }

  /** The intended order: the signature is checked before the slot is
      consumed. */
  function SignatureThenSlot(l: Ledger, w: Winner, ctx: NodeContext): (r: (Ledger, MnwOutcome, seq<Action>)) {
    if !SignatureValid(w, ctx.reg, ctx.proto, ctx.verify) then
      (l, BadSignature, (if ctx.synced then [Misbehaving(20)] else []) + [AskForMasternode(w.vinMasternode)])
    else
      var slot := RecordVote(l.lastVote, PhaseVoteKey(w.vinMasternode.prevout, PayeePhase(w, ctx.reg, ctx.proto)), w.nBlockHeight);
      var l1 := l.(lastVote := slot.slots);
      if !slot.accepted then (l1, AlreadyVoted, [])
      else
        var (l2, added) := Admit(l1, w, ctx.chain, ctx.reg, ctx.proto);
        if added then (l2, Accepted, [RelayWinner(GetHash(w, ctx.proto)), AddedWinner(GetHash(w, ctx.proto))])
        else (l2, NotAdded, [])
  }

  /** With the signature checked first, a badly signed message leaves the
      ledger as it was, so it cannot keep the genuine vote out. */
  lemma SignedFirstKeepsSlot(l: Ledger, forged: Winner, genuine: Winner, ctx: NodeContext)
    requires SignatureThenSlot(l, forged, ctx).1 == BadSignature
    ensures SignatureThenSlot(l, forged, ctx).0 == l
    ensures SignatureThenSlot(SignatureThenSlot(l, forged, ctx).0, genuine, ctx) == SignatureThenSlot(l, genuine, ctx)
  {
  }

  /** Both orders agree on every correctly signed message. */
  lemma OrdersAgreeWhenSigned(l: Ledger, w: Winner, ctx: NodeContext)
    requires SignatureValid(w, ctx.reg, ctx.proto, ctx.verify)
    ensures SignatureThenSlot(l, w, ctx) == SlotThenSignature(l, w, ctx)
  {
  }

  /** The vote ProcessBlock casts for one phase: by the active masternode, at
      the height, for the next masternode in the phase's queue, signed; None
      when the queue is empty or signing fails. */
  function PhaseVote(p: Producer, h: int32, phase: uint32, reg: Registry, proto: Protocol,
                     verify: (Bytes, Bytes, SignedMessage) -> bool): (r: Option<Winner>)
    ensures r.Some? ==> r.value.vinMasternode == p.vin && r.value.nBlockHeight == h
                        && p.nextInQueue(h + 1, phase).Some? && r.value.vinPayee == p.nextInQueue(h + 1, phase).value
                        && verify(p.pubKey, r.value.vchSig, MessageOf(r.value, reg, proto))
  {
    match p.nextInQueue(h + 1, phase)
    case None => None
    case Some(payeeVin) =>
      var w := WithPayee(NewWinner(p.vin).(nBlockHeight := h), payeeVin, reg, proto);
      MessageIgnoresSignature(w, [], reg, proto);
      match Sign(w, reg, proto, p.sign, p.pubKey, verify)
      case None => None
      case Some(signed) =>
        MessageIgnoresSignature(w, signed.vchSig, reg, proto);
        Some(signed)
  }

  /** One phase of ProcessBlock on values: the phase's vote, if any, is
      admitted, and relayed when it was added. */
  function ProduceStep(acc: (Ledger, seq<Winner>), h: int32, phase: uint32, p: Producer, chain: Chain, reg: Registry,
                       proto: Protocol, verify: (Bytes, Bytes, SignedMessage) -> bool): (Ledger, seq<Winner>) {
    match PhaseVote(p, h, phase, reg, proto, verify)
    case None => acc
    case Some(w) =>
      var (l2, added) := Admit(acc.0, w, chain, reg, proto);
      if added then (l2, acc.1 + [w]) else acc
  }

  /** The ledger and the votes relayed after ProcessBlock's phases 1..n. */
  function Produce(l: Ledger, h: int32, n: nat, p: Producer, chain: Chain, reg: Registry, proto: Protocol,
                   verify: (Bytes, Bytes, SignedMessage) -> bool): (r: (Ledger, seq<Winner>))
    requires n < 0x1_0000_0000
  {
    if n == 0 then (l, [])
    else ProduceStep(Produce(l, h, n - 1, p, chain, reg, proto, verify), h, n as uint32, p, chain, reg, proto, verify)
  }

  /** Phase n follows phases 1..n-1. */
  lemma ProduceNext(start: Ledger, l: Ledger, sent: seq<Winner>, h: int32, n: uint32, p: Producer, chain: Chain,
                    reg: Registry, proto: Protocol, verify: (Bytes, Bytes, SignedMessage) -> bool)
    requires n >= 1 && (l, sent) == Produce(start, h, n - 1, p, chain, reg, proto, verify)
    ensures Produce(start, h, n, p, chain, reg, proto, verify) == ProduceStep((l, sent), h, n, p, chain, reg, proto, verify)
  {
  }

  /** ProcessBlock only adds votes, never replaces one, and keeps the vote
      slots. */
  lemma {:induction false} ProduceKeeps(l: Ledger, h: int32, n: nat, p: Producer, chain: Chain, reg: Registry,
                                        proto: Protocol, verify: (Bytes, Bytes, SignedMessage) -> bool)
    requires n < 0x1_0000_0000
    ensures var l' := Produce(l, h, n, p, chain, reg, proto, verify).0;
            && l'.lastVote == l.lastVote
            && forall k :: k in l.votes ==> k in l'.votes && l'.votes[k] == l.votes[k]
  {
    if n > 0 {
      ProduceKeeps(l, h, n - 1, p, chain, reg, proto, verify);
    }
  }

  /** Every vote ProcessBlock relays is the active masternode's vote at the
      height, stored under its hash; at most one per phase. */
  lemma {:induction false} ProduceRelaysStored(l: Ledger, h: int32, n: nat, p: Producer, chain: Chain, reg: Registry,
                                               proto: Protocol, verify: (Bytes, Bytes, SignedMessage) -> bool)
    requires n < 0x1_0000_0000
    ensures var (l', sent) := Produce(l, h, n, p, chain, reg, proto, verify);
            && |sent| <= n
            && forall i :: 0 <= i < |sent| ==>
                 && sent[i].vinMasternode == p.vin && sent[i].nBlockHeight == h
                 && GetHash(sent[i], proto) in l'.votes && l'.votes[GetHash(sent[i], proto)] == sent[i]
  {
    if n > 0 {
      ProduceRelaysStored(l, h, n - 1, p, chain, reg, proto, verify);
      var (l1, sent1) := Produce(l, h, n - 1, p, chain, reg, proto, verify);
      var vote := PhaseVote(p, h, n as uint32, reg, proto, verify);
      if vote.Some? {
        var (l2, added) := Admit(l1, vote.value, chain, reg, proto);
        if added {
          forall i | 0 <= i < |sent1| ensures GetHash(sent1[i], proto) in l2.votes && l2.votes[GetHash(sent1[i], proto)] == sent1[i] {
          }
        }
      }
    }
  }

  /** The relay messages for the votes ProcessBlock added. */
  function Relays(sent: seq<Winner>, proto: Protocol): (r: seq<Action>)
    ensures |r| == |sent|
    ensures forall i :: 0 <= i < |sent| ==> r[i] == RelayWinner(GetHash(sent[i], proto))
  {
    seq(|sent|, i requires 0 <= i < |sent| => RelayWinner(GetHash(sent[i], proto)))
  }

  /** Relaying one more vote appends its message. */
  lemma RelaysSnoc(sent: seq<Winner>, w: Winner, proto: Protocol)
    ensures Relays(sent + [w], proto) == Relays(sent, proto) + [RelayWinner(GetHash(w, proto))]
  {
  }

  /** The payee FillBlockPayee pays in a phase: the phase winner of the
      height's tally, else the registry's current masternode on that level. */
  ghost function PhasePayee(tallies: map<int32, BlockPayeesData>, h: int, phase: uint32,
                            current: uint32 -> Option<Script>): Option<Script> {
    var voted := if IsHeight(h) && h as int32 in tallies then BestPayee(tallies[h as int32].payments, Some(phase)) else None;
    if voted.Some? then voted else current(phase)
  }

  /** One phase of FillBlockPayee: append the payee's output and take its
      amount from the block's reward output unless that output is a zerocoin
      mint; with no payee, a proof-of-work block's first output is set to the
      block value less the payment. */
  function FillPhase(outs: seq<TxOut>, payee: Option<Script>, payment: int, blockValue: int,
                     isPoS: bool, isMint: Script -> bool): (r: seq<TxOut>)
    requires |outs| >= 1
    ensures |r| == |outs| + (if payee.Some? then 1 else 0)
  {
    var b := if isPoS then 1 else 0;
    match payee
    case Some(script) =>
      var added := outs + [TxOut(payment, script)];
      if isMint(added[b].script) then added else added[b := added[b].(value := added[b].value - payment)]
    case None =>
      if isPoS then outs else outs[0 := outs[0].(value := blockValue - payment)]
  }

  /** FillBlockPayee after phases 1..n for the block above `tip`. */
  ghost function FillPhases(outs: seq<TxOut>, n: nat, tip: int, tallies: map<int32, BlockPayeesData>,
                            current: uint32 -> Option<Script>, sched: Schedule, isPoS: bool, zStake: bool,
                            isMint: Script -> bool): (r: seq<TxOut>)
    requires |outs| >= 1 && n < 0x1_0000_0000
    ensures |r| >= |outs|
  {
    if n == 0 then outs
    else
      var before := FillPhases(outs, n - 1, tip, tallies, current, sched, isPoS, zStake, isMint);
      var payment := sched.payment(tip + 1, n as uint32, sched.blockValue(tip), 0, zStake);
      FillPhase(before, PhasePayee(tallies, tip + 1, n as uint32, current), payment, sched.blockValue(tip), isPoS, isMint)
  }

  lemma FillPhasesStep(outs: seq<TxOut>, n: nat, tip: int, tallies: map<int32, BlockPayeesData>,
                       current: uint32 -> Option<Script>, sched: Schedule, isPoS: bool, zStake: bool,
                       isMint: Script -> bool)
    requires |outs| >= 1 && 1 <= n < 0x1_0000_0000
    ensures FillPhases(outs, n, tip, tallies, current, sched, isPoS, zStake, isMint)
         == FillPhase(FillPhases(outs, n - 1, tip, tallies, current, sched, isPoS, zStake, isMint),
                      PhasePayee(tallies, tip + 1, n as uint32, current),
                      sched.payment(tip + 1, n as uint32, sched.blockValue(tip), 0, zStake),
                      sched.blockValue(tip), isPoS, isMint)
  {
  }

  /** The outputs FillBlockPayee appends: one per phase that has a payee,
      paying it the phase's payment. */
  ghost function Payouts(n: nat, tip: int, tallies: map<int32, BlockPayeesData>, current: uint32 -> Option<Script>,
                         sched: Schedule, zStake: bool): seq<TxOut>
    requires n < 0x1_0000_0000
  {
    if n == 0 then []
    else
      var earlier := Payouts(n - 1, tip, tallies, current, sched, zStake);
      match PhasePayee(tallies, tip + 1, n as uint32, current)
      case None => earlier
      case Some(script) => earlier + [TxOut(sched.payment(tip + 1, n as uint32, sched.blockValue(tip), 0, zStake), script)]
  }

  function Total(outs: seq<TxOut>): int {
    TotalOf(outs, |outs|)
  }

  /** The sum of the first n amounts. */
  function TotalOf(outs: seq<TxOut>, n: nat): int
    requires n <= |outs|
  {
    if n == 0 then 0 else TotalOf(outs, n - 1) + outs[n - 1].value
  }

  /** FillBlockPayee appends exactly the payouts, in phase order, and leaves
      the scripts of the outputs it found in place. */
  lemma {:induction false} FillAppendsPayouts(outs: seq<TxOut>, n: nat, tip: int, tallies: map<int32, BlockPayeesData>,
                                              current: uint32 -> Option<Script>, sched: Schedule, isPoS: bool,
                                              zStake: bool, isMint: Script -> bool)
    requires |outs| > (if isPoS then 1 else 0) && n < 0x1_0000_0000
    ensures var filled := FillPhases(outs, n, tip, tallies, current, sched, isPoS, zStake, isMint);
            && filled[|outs|..] == Payouts(n, tip, tallies, current, sched, zStake)
            && forall i :: 0 <= i < |outs| ==> filled[i].script == outs[i].script
  {
    if n > 0 {
      FillAppendsPayouts(outs, n - 1, tip, tallies, current, sched, isPoS, zStake, isMint);
      var before := FillPhases(outs, n - 1, tip, tallies, current, sched, isPoS, zStake, isMint);
      var payee := PhasePayee(tallies, tip + 1, n as uint32, current);
      var payment := sched.payment(tip + 1, n as uint32, sched.blockValue(tip), 0, zStake);
      FillPhasesStep(outs, n, tip, tallies, current, sched, isPoS, zStake, isMint);
      FillPhaseTail(before, payee, payment, sched.blockValue(tip), isPoS, isMint, |outs|);
    }
  }

  /** One phase changes no script among the first k outputs and appends the
      payee's output after them. */
  lemma FillPhaseTail(before: seq<TxOut>, payee: Option<Script>, payment: int, blockValue: int, isPoS: bool,
                      isMint: Script -> bool, k: nat)
    requires (if isPoS then 1 else 0) < k <= |before|
    ensures var after := FillPhase(before, payee, payment, blockValue, isPoS, isMint);
            && after[k..] == before[k..] + (if payee.Some? then [TxOut(payment, payee.value)] else [])
            && forall i :: 0 <= i < k ==> after[i].script == before[i].script
  {
    var after := FillPhase(before, payee, payment, blockValue, isPoS, isMint);
    if payee.Some? {
      var added := before + [TxOut(payment, payee.value)];
      var b := if isPoS then 1 else 0;
      assert added[b] == before[b];
      assert added[k..] == before[k..] + [TxOut(payment, payee.value)];
    }
  }

  /** Changing the amount of output i changes the sum of the first n outputs
      by the difference when i < n, and not at all otherwise. */
  lemma {:induction false} TotalOfUpdate(outs: seq<TxOut>, i: nat, v: int, n: nat)
    requires i < |outs| && n <= |outs|
    ensures TotalOf(outs[i := outs[i].(value := v)], n)
         == TotalOf(outs, n) + (if i < n then v - outs[i].value else 0)
  {
    if n > 0 {
      TotalOfUpdate(outs, i, v, n - 1);
    }
  }

  /** The sum of the outputs after changing one amount. */
  lemma TotalUpdate(outs: seq<TxOut>, i: nat, v: int)
    requires i < |outs|
    ensures Total(outs[i := outs[i].(value := v)]) == Total(outs) - outs[i].value + v
  {
    TotalOfUpdate(outs, i, v, |outs|);
  }

  /** Appending outputs leaves the sum of the first n unchanged. */
  lemma {:induction false} TotalOfAppend(outs: seq<TxOut>, more: seq<TxOut>, n: nat)
    requires n <= |outs|
    ensures TotalOf(outs + more, n) == TotalOf(outs, n)
  {
    if n > 0 {
      TotalOfAppend(outs, more, n - 1);
    }
  }

  /** Every phase 1..n has a payee. */
  ghost predicate EveryPhasePaid(tallies: map<int32, BlockPayeesData>, h: int, n: nat, current: uint32 -> Option<Script>) {
    forall q: uint32 :: 1 <= q <= n ==> PhasePayee(tallies, h, q, current).Some?
  }

  /** A paid phase appends the payee's output and takes the payment from the
      reward output when that output is not a zerocoin mint. */
  lemma FillPhasePaid(outs: seq<TxOut>, script: Script, payment: int, blockValue: int, isPoS: bool,
                      isMint: Script -> bool)
    requires |outs| > (if isPoS then 1 else 0)
    requires !isMint(outs[if isPoS then 1 else 0].script)
    ensures var b := if isPoS then 1 else 0;
            var added := outs + [TxOut(payment, script)];
            FillPhase(outs, Some(script), payment, blockValue, isPoS, isMint)
              == added[b := added[b].(value := added[b].value - payment)]
  {
    var b := if isPoS then 1 else 0;
    assert (outs + [TxOut(payment, script)])[b] == outs[b];
  }

  /** Appending an output adds its amount to the total. */
  lemma TotalAppend(outs: seq<TxOut>, o: TxOut)
    ensures Total(outs + [o]) == Total(outs) + o.value
  {
    TotalOfAppend(outs, [o], |outs|);
  }

  /** One paid phase leaves the total unchanged when the reward output is not
      a zerocoin mint. */
  lemma FillPhaseConserves(outs: seq<TxOut>, script: Script, payment: int, blockValue: int, isPoS: bool,
                           isMint: Script -> bool)
    requires |outs| > (if isPoS then 1 else 0)
    requires !isMint(outs[if isPoS then 1 else 0].script)
    ensures Total(FillPhase(outs, Some(script), payment, blockValue, isPoS, isMint)) == Total(outs)
  {
    var b := if isPoS then 1 else 0;
    var added := outs + [TxOut(payment, script)];
    FillPhasePaid(outs, script, payment, blockValue, isPoS, isMint);
    TotalAppend(outs, TxOut(payment, script));
    TotalUpdate(added, b, added[b].value - payment);
  }

  /** When the reward output is not a zerocoin mint and every phase of a
      proof-of-work block has a payee, filling moves value between outputs
      without creating any. */
  lemma {:induction false} FillConservesValue(outs: seq<TxOut>, n: nat, tip: int, tallies: map<int32, BlockPayeesData>,
                                              current: uint32 -> Option<Script>, sched: Schedule, isPoS: bool,
                                              zStake: bool, isMint: Script -> bool)
    requires |outs| > (if isPoS then 1 else 0) && n < 0x1_0000_0000
    requires !isMint(outs[if isPoS then 1 else 0].script)
    requires !isPoS ==> EveryPhasePaid(tallies, tip + 1, n, current)
    ensures Total(FillPhases(outs, n, tip, tallies, current, sched, isPoS, zStake, isMint)) == Total(outs)
  {
    if n > 0 {
      var before := FillPhases(outs, n - 1, tip, tallies, current, sched, isPoS, zStake, isMint);
      var payee := PhasePayee(tallies, tip + 1, n as uint32, current);
      var payment := sched.payment(tip + 1, n as uint32, sched.blockValue(tip), 0, zStake);
      assert FillPhases(outs, n, tip, tallies, current, sched, isPoS, zStake, isMint)
          == FillPhase(before, payee, payment, sched.blockValue(tip), isPoS, isMint);
      FillConservesValue(outs, n - 1, tip, tallies, current, sched, isPoS, zStake, isMint);
      FillAppendsPayouts(outs, n - 1, tip, tallies, current, sched, isPoS, zStake, isMint);
      var b := if isPoS then 1 else 0;
      assert before[b].script == outs[b].script;
      if payee.Some? {
        FillPhaseConserves(before, payee.value, payment, sched.blockValue(tip), isPoS, isMint);
      } else {
        assert isPoS;
      }
    }
  }

  /** ProcessBlock's guards: a masternode ranked in the top 10 at height - 100
      that has not voted at this height or above. */
  predicate MayVote(p: Producer, h: int, lastBlockHeight: int, reg: Registry, proto: Protocol) {
    var rank := reg.rank(p.vin, h - 100, proto.active);
    p.isMasternode && rank != -1 && rank <= SIGNATURES_TOTAL && h > lastBlockHeight
  }

  /** What Sync sends: nothing without a tip; otherwise the inventory of the
      window, in the map's order, and its size. */
  function SyncAnswer(votes: map<Hash, Winner>, tip: Option<int32>, countNeeded: int, countEnabled: nat,
                      proto: Protocol): seq<Action> {
    if tip.None? then []
    else
      var inventory := Served(votes, VoteOrder(votes.Keys), SyncFloor(tip.value, countNeeded, countEnabled), tip.value, proto);
      Announce(inventory) + [SyncStatusCount(|inventory|)]
  }

  /** The message types the handler dispatches on. */
  datatype Message = Mnget(countNeeded: int) | Mnw(winner: Winner) | OtherCommand

  /** The active masternode's side of ProcessBlock. */
  datatype Producer = Producer(
    isMasternode: bool,                          // fMasterNode
    vin: TxIn,                                   // activeMasternode.vin
    keyReady: bool,                              // obfuScationSigner.SetKey succeeded
    pubKey: Bytes,                               // the key pair's public half
    sign: SignedMessage -> Option<Bytes>,        // obfuScationSigner.SignMessage with the private half
    nextInQueue: (int, uint32) -> Option<TxIn>,  // GetNextMasternodeInQueueForPayment(height, phase, true)->vin
    isBudgetBlock: int -> bool)                  // budget.IsBudgetPaymentBlock(height)

  class MasternodePayments {
    var nSyncedFromPeer: int32
    var nLastBlockHeight: int32
    var votes: map<Hash, Winner>                  // mapMasternodePayeeVotes
    var blocks: map<int32, BlockPayees>          // mapMasternodeBlocks
    var lastVote: map<U256, int32>               // mapMasternodesLastVote

    /** The tallies are distinct objects, as the values of a std::map are. */
    ghost predicate Valid()
      reads this
    {
      forall a, b :: a in blocks && b in blocks && a != b ==> blocks[a] != blocks[b]
    }

    /** The tally map as values. */
    function Tallies(): map<int32, BlockPayeesData>
      reads this`blocks, blocks.Values
    {
      map h | h in blocks :: blocks[h].Data()
    }

    /** The ledger's state as a value. */
    function View(): Ledger
      reads this`votes, this`blocks, this`lastVote, blocks.Values
    {
      Ledger(votes, Tallies(), lastVote)
    }

    constructor ()
      ensures Valid()
      ensures nSyncedFromPeer == 0 && nLastBlockHeight == 0
      ensures votes == map[] && blocks == map[] && lastVote == map[]
    {
      nSyncedFromPeer := 0;
      nLastBlockHeight := 0;
      votes := map[];
      blocks := map[];
      lastVote := map[];
    }

    /** Clear: empties the votes and the tallies; the last-vote slots and the
        last processed height survive. */
    method Clear()
      modifies this
      ensures Valid()
      ensures votes == map[] && blocks == map[]
      ensures lastVote == old(lastVote) && nLastBlockHeight == old(nLastBlockHeight)
      ensures nSyncedFromPeer == old(nSyncedFromPeer)
    {
      votes := map[];
      blocks := map[];
    }

    /** GetBlockPayee(nBlockHeight): the winner of the height's tally over all
        phases, None when there is no tally or no entry with votes above -1. */
    method GetBlockPayee(height: int32) returns (payee: Option<Script>)
      ensures height !in Tallies() ==> payee.None?
      ensures height in Tallies() ==> payee == BestPayee(Tallies()[height].payments, None)
    {
      if height !in blocks {
        return None;
      }
      payee := blocks[height].GetPayee();
    }

    /** GetBlockPayee(nBlockHeight, mnLevel): the winner among the entries of
        one phase. */
    method GetBlockPayeeOnLevel(height: int32, level: uint32) returns (payee: Option<Script>)
      ensures height !in Tallies() ==> payee.None?
      ensures height in Tallies() ==> payee == BestPayee(Tallies()[height].payments, Some(level))
    {
      if height !in blocks {
        return None;
      }
      payee := blocks[height].GetPayeeOnLevel(level);
    }

    /** IsTransactionValid(tx, nBlockHeight): a height without a tally
        imposes nothing; otherwise the tally's own check decides. */
    method IsTransactionValid(tx: seq<TxOut>, height: int32, sched: Schedule, net: NetworkCounts) returns (valid: bool)
      ensures height !in Tallies() ==> valid
      ensures height in Tallies() ==>
                (valid <==> AllPhasesPaid(Tallies()[height].payments, Tallies()[height].height, tx, sched, net))
    {
      if height !in blocks {
        return true;
      }
      valid := blocks[height].IsTransactionValid(tx, sched, net);
    }

    /** GetRequiredPayments(nBlockHeight): one line per tally entry, none
        without a tally. */
    method GetRequiredPayments(height: int32, address: Script -> string) returns (lines: seq<RequiredPayment>)
      ensures height !in Tallies() ==> lines == []
      ensures height in Tallies() ==> |lines| == |Tallies()[height].payments|
      ensures height in Tallies() ==> forall i :: 0 <= i < |lines| ==>
                var p := Tallies()[height].payments[i];
                lines[i] == RequiredPayment(address(p.script), p.votes % 0x1_0000_0000_0000_0000, p.level)
    {
      if height !in blocks {
        return [];
      }
      lines := blocks[height].GetRequiredPayments(address);
    }

    /** GetOldestBlock: the lowest height with a tally, INT_MAX when there is
        none. */
    method GetOldestBlock() returns (oldest: int32)
      ensures blocks == map[] ==> oldest == INT32_MAX as int32
      ensures blocks != map[] ==> oldest in blocks
      ensures forall h :: h in blocks ==> oldest <= h
    {
      oldest := INT32_MAX as int32;
      var todo := blocks.Keys;
      while todo != {}
        invariant todo <= blocks.Keys
        invariant forall h :: h in blocks && h !in todo ==> oldest <= h
        invariant oldest == INT32_MAX as int32 || oldest in blocks
        invariant blocks.Keys - todo == {} ==> oldest == INT32_MAX as int32
        invariant blocks.Keys - todo != {} ==> oldest in blocks
        decreases |todo|
      {
        var h :| h in todo;
        if h < oldest {
          oldest := h;
        }
        todo := todo - {h};
      }
    }

    /** GetNewestBlock: the highest height with a tally, but never below 0. */
    method GetNewestBlock() returns (newest: int32)
      ensures newest >= 0
      ensures newest == 0 || newest in blocks
      ensures forall h :: h in blocks ==> h <= newest
    {
      newest := 0;
      var todo := blocks.Keys;
      while todo != {}
        invariant todo <= blocks.Keys
        invariant newest >= 0 && (newest == 0 || newest in blocks)
        invariant forall h :: h in blocks && h !in todo ==> h <= newest
        decreases |todo|
      {
        var h :| h in todo;
        if h > newest {
          newest := h;
        }
        todo := todo - {h};
      }
    }

    /** IsScheduled(mn, nNotBlockHeight): the masternode's script wins some
        height of [tip, tip + 8] other than nNotBlockHeight. */
    method IsScheduledLegacy(tip: Option<int32>, script: Script, notHeight: int) returns (scheduled: bool)
      ensures scheduled <==> tip.Some? && exists h :: tip.value <= h <= tip.value + 8 && h != notHeight
                                                     && PaidAt(Tallies(), h, None, script)
    {
      if tip.None? {
        return false;
      }
      var h: int := tip.value;
      while h <= tip.value + 8
        invariant tip.value <= h <= tip.value + 9
        invariant forall g :: tip.value <= g < h && g != notHeight ==> !PaidAt(Tallies(), g, None, script)
      {
        if h != notHeight && IsHeight(h) && h as int32 in blocks {
          var payee := blocks[h as int32].GetPayee();
          if payee == Some(script) {
            assert PaidAt(Tallies(), h, None, script);
            return true;
          }
        }
        h := h + 1;
      }
      return false;
    }

    /** IsScheduled(mn, mnLevelCount, nNotBlockHeight): the masternode's script
        wins its own phase at some height of the look-ahead window other than
        nNotBlockHeight; the window shrinks with the number of masternodes on
        that level. */
    method IsScheduled(tip: Option<int32>, script: Script, level: uint32, levelCount: int, notHeight: int)
      returns (scheduled: bool)
      ensures scheduled <==> tip.Some? && exists h :: ScheduleStart(tip.value, levelCount) <= h < tip.value + 10
                                                     && h != notHeight && PaidAt(Tallies(), h, Some(level), script)
    {
      if tip.None? {
        return false;
      }
      var start := ScheduleStart(tip.value, levelCount);
      var h: int := start;
      while h < tip.value + 10
        invariant start <= h
        invariant forall g :: start <= g < h && g != notHeight ==> !PaidAt(Tallies(), g, Some(level), script)
        decreases tip.value + 10 - h
      {
        if h != notHeight && IsHeight(h) && h as int32 in blocks {
          var payee := blocks[h as int32].GetPayeeOnLevel(level);
          if payee == Some(script) {
            assert PaidAt(Tallies(), h, Some(level), script);
            return true;
          }
        }
        h := h + 1;
      }
      return false;
    }

    /** CleanPaymentList: with no tip, nothing; otherwise every vote more
        than max(int(size * 1.25), 1000) blocks behind the tip is erased
        together with the tally of its height. */
    method CleanPaymentList(tip: Option<int32>, registrySize: nat)
      requires Valid()
      modifies this
      ensures Valid()
      ensures tip.None? ==> votes == old(votes) && blocks == old(blocks)
      ensures tip.Some? ==> votes == KeptVotes(old(votes), tip.value, CleanLimit(registrySize))
      ensures tip.Some? ==> forall h :: h in blocks <==> (h in old(blocks)
                && h !in StaleHeights(old(votes), old(votes).Keys, tip.value, CleanLimit(registrySize)))
      ensures forall h :: h in blocks ==> blocks[h] == old(blocks)[h]
      ensures lastVote == old(lastVote) && nLastBlockHeight == old(nLastBlockHeight)
      ensures nSyncedFromPeer == old(nSyncedFromPeer)
    {
      if tip.None? {
        return;
      }
      var kept, tallies := Prune(votes, blocks, tip.value, CleanLimit(registrySize));
      votes := kept;
      blocks := tallies;
    }

    /** Sync(node, nCountNeeded): with no tip, nothing; otherwise the hash of
        every vote at most min(nCountNeeded, int(CountEnabled * 1.25)) blocks
        behind and at most 20 ahead of the tip, in the map's order, then the
        count of hashes sent. */
    method Sync(tip: Option<int32>, countNeeded: int, countEnabled: nat, proto: Protocol) returns (actions: seq<Action>)
      ensures actions == SyncAnswer(votes, tip, countNeeded, countEnabled, proto)
    {
      if tip.None? {
        return [];
      }
      var lo := SyncFloor(tip.value, countNeeded, countEnabled);
      var all := votes;
      var order := VoteOrder(all.Keys);
      actions := [];
      var count := 0;
      var i := 0;
      ghost var sent: seq<Hash> := [];
      while i < |order|
        invariant 0 <= i <= |order|
        invariant sent == Served(all, order[..i], lo, tip.value, proto)
        invariant actions == Announce(sent) && count == |sent|
      {
        var w := all[order[i]];
        ServedStep(all, order, i, lo, tip.value, proto);
        if InSyncWindow(w, lo, tip.value) {
          AnnounceStep(sent, GetHash(w, proto));
          actions := actions + [PushInventory(GetHash(w, proto))];
          sent := sent + [GetHash(w, proto)];
          count := count + 1;
        }
        i := i + 1;
      }
      assert order[..|order|] == order;
      actions := actions + [SyncStatusCount(count)];
    }

    /** Creates an empty tally for h unless one exists. */
    method EnsureTally(h: int32)
      requires Valid()
      modifies this
      ensures Valid() && h in blocks
      ensures Tallies() == if h in old(Tallies()) then old(Tallies()) else old(Tallies())[h := BlockPayeesData(h, [])]
      ensures votes == old(votes) && lastVote == old(lastVote) && nLastBlockHeight == old(nLastBlockHeight)
      ensures nSyncedFromPeer == old(nSyncedFromPeer)
      ensures forall k :: k in old(blocks) ==> k in blocks && blocks[k] == old(blocks)[k]
      ensures forall k :: k in blocks && k !in old(blocks) ==> k == h && fresh(blocks[k])
    {
      if h !in blocks {
        var created := new BlockPayees(h);
        blocks := blocks[h := created];
        assert Tallies() == old(Tallies())[h := BlockPayeesData(h, [])];
      }
    }

    /** mapMasternodeBlocks[h].AddPayee(script, phase, 1). */
    method AddVote(h: int32, script: Script, phase: uint32)
      requires Valid() && h in blocks
      modifies blocks[h]
      ensures Tallies() == old(Tallies())[h := old(Tallies())[h].(payments := WithVotes(old(Tallies())[h].payments, script, Some(phase), 1))]
    {
      var tally := blocks[h];
      tally.AddPayeeOnLevel(script, phase, 1);
      forall k | k in blocks && k != h
        ensures Tallies()[k] == old(Tallies())[k]
      {
        assert blocks[k] != tally;
      }
    }

    /** CanVote(outMasternode, nBlockHeight), keyed by hash + n. */
    method CanVoteOutPoint(outpoint: OutPoint, height: int32) returns (accepted: bool)
      modifies this
      ensures RecordVote(old(lastVote), OutPointKey(outpoint), height) == SlotUpdate(accepted, lastVote)
      ensures votes == old(votes) && blocks == old(blocks) && nLastBlockHeight == old(nLastBlockHeight)
      ensures nSyncedFromPeer == old(nSyncedFromPeer)
    {
      var key := OutPointKey(outpoint);
      if key in lastVote && lastVote[key] == height {
        return false;
      }
      lastVote := lastVote[key := height];
      return true;
    }

    /** CanVote(winner), keyed by ((hash + n) << 4) + the payee's phase. */
    method CanVote(w: Winner, reg: Registry, proto: Protocol) returns (accepted: bool)
      modifies this
      ensures RecordVote(old(lastVote), PhaseVoteKey(w.vinMasternode.prevout, PayeePhase(w, reg, proto)), w.nBlockHeight)
              == SlotUpdate(accepted, lastVote)
      ensures View() == old(View()).(lastVote := lastVote)
      ensures votes == old(votes) && blocks == old(blocks) && nLastBlockHeight == old(nLastBlockHeight)
      ensures nSyncedFromPeer == old(nSyncedFromPeer)
    {
      var phase := PayeePhase(w, reg, proto);
      var key := PhaseVoteKey(w.vinMasternode.prevout, phase);
      if key in lastVote && lastVote[key] == w.nBlockHeight {
        return false;
      }
      lastVote := lastVote[key := w.nBlockHeight];
      return true;
    }

    /** AddWinningMasternode: refused, changing nothing, when the block 100
        below the vote is unknown or the vote is already stored; otherwise the
        vote is stored and one vote is added for its payee's script and phase. */
    method AddWinningMasternode(w: Winner, chain: Chain, reg: Registry, proto: Protocol) returns (added: bool)
      requires Valid()
      modifies this, blocks.Values
      ensures Valid()
      ensures added <==> chain.hasBlockHash(w.nBlockHeight - 100) && GetHash(w, proto) !in old(votes)
      ensures !added ==> votes == old(votes) && blocks == old(blocks) && Tallies() == old(Tallies())
      ensures added ==> votes == old(votes)[GetHash(w, proto) := w]
      ensures added ==> Tallies() == Voted(old(Tallies()), w.nBlockHeight, PayeeScript(w, reg, proto), PayeePhase(w, reg, proto))
      ensures lastVote == old(lastVote) && nLastBlockHeight == old(nLastBlockHeight)
      ensures nSyncedFromPeer == old(nSyncedFromPeer)
      ensures (View(), added) == Admit(old(View()), w, chain, reg, proto)
      ensures forall k :: k in blocks ==> (k in old(blocks) && blocks[k] == old(blocks)[k]) || fresh(blocks[k])
    {
      if !chain.hasBlockHash(w.nBlockHeight - 100) {
        return false;
      }
      var hash := GetHash(w, proto);
      if hash in votes {
        return false;
      }
      votes := votes[hash := w];
      var h := w.nBlockHeight;
      ghost var start := Tallies();
      assert start == old(Tallies());
      EnsureTally(h);
      ghost var t := if h in start then start[h] else BlockPayeesData(h, []);
      ghost var before := Tallies();
      assert h in old(blocks) ==> old(blocks)[h] in old(blocks.Values);
      AddVote(h, PayeeScript(w, reg, proto), PayeePhase(w, reg, proto));
      VotedAfterCreate(start, before, h, t, Tallies()[h]);
      return true;
    }

    /** The "mnw" branch of ProcessMessageMasternodePayments. */
    method ProcessWinner(w: Winner, peerVersion: int, ctx: NodeContext) returns (outcome: MnwOutcome, actions: seq<Action>)
      requires Valid()
      modifies this, blocks.Values
      ensures Valid()
      ensures (View(), outcome, actions) == HandleWinner(old(View()), w, peerVersion, ctx)
      ensures nLastBlockHeight == old(nLastBlockHeight) && nSyncedFromPeer == old(nSyncedFromPeer)
      ensures forall k :: k in blocks ==> (k in old(blocks) && blocks[k] == old(blocks)[k]) || fresh(blocks[k])
    {
      var proto := ctx.proto;
      var reg := ctx.reg;
      if peerVersion < proto.active {
        return OldPeer, [];
      }
      if VoterPhase(w, reg) == 0 {
        actions := if ctx.synced then [Misbehaving(20)] else [];
        return UnknownVoterPhase, actions + [AskForMasternode(w.vinMasternode)];
      }
      var payeePhase := PayeePhase(w, reg, proto);
      if payeePhase == 0 {
        actions := if proto.active >= proto.minVinVersion then [AskForMasternode(w.vinPayee)] else [];
        return UnknownPayeePhase, actions;
      }
      if ctx.chain.tip.None? {
        return NoTip, [];
      }
      var tip := ctx.chain.tip.value;
      var hash := GetHash(w, proto);
      if hash in votes {
        return AlreadySeen, [AddedWinner(hash)];
      }
      var first := tip - (5 * ctx.countOnLevel(payeePhase)) / 4;
      if w.nBlockHeight < first || w.nBlockHeight > tip + 20 {
        return OutOfWindow, [];
      }
      if !IsValidVoter(w, reg, proto) {
        actions := if reg.byVin(w.vinMasternode).None? then [AskForMasternode(w.vinMasternode)] else [];
        return InvalidVoter, actions;
      }
      assert HeaderCheck(old(View()), w, peerVersion, ctx).None?;
      outcome, actions := CheckSlotAndSignature(w, ctx);
    }

    /** The end of the "mnw" handler: CanVote, then SignatureValid, then
        AddWinningMasternode. */
    method CheckSlotAndSignature(w: Winner, ctx: NodeContext) returns (outcome: MnwOutcome, actions: seq<Action>)
      requires Valid()
      modifies this, blocks.Values
      ensures Valid()
      ensures (View(), outcome, actions) == SlotThenSignature(old(View()), w, ctx)
      ensures nLastBlockHeight == old(nLastBlockHeight) && nSyncedFromPeer == old(nSyncedFromPeer)
      ensures forall k :: k in blocks ==> (k in old(blocks) && blocks[k] == old(blocks)[k]) || fresh(blocks[k])
    {
      var canVote := CanVote(w, ctx.reg, ctx.proto);
      if !canVote {
        return AlreadyVoted, [];
      }
      if !SignatureValid(w, ctx.reg, ctx.proto, ctx.verify) {
        actions := if ctx.synced then [Misbehaving(20)] else [];
        return BadSignature, actions + [AskForMasternode(w.vinMasternode)];
      }
      ghost var afterSlot := View();
      var added := AddWinningMasternode(w, ctx.chain, ctx.reg, ctx.proto);
      var hash := GetHash(w, ctx.proto);
      if added {
        return Accepted, [RelayWinner(hash), AddedWinner(hash)];
      }
      return NotAdded, [];
    }

    /** ProcessMessageMasternodePayments: nothing before the blockchain is
        synced or in lite mode; "mnget" answers with Sync unless a main-net
        peer asks twice (misbehaviour 20); "mnw" is handled as above. */
    method ProcessMessage(msg: Message, askedBefore: bool, peerVersion: int, ctx: NodeContext)
      returns (actions: seq<Action>)
      requires Valid()
      modifies this, blocks.Values
      ensures Valid()
      ensures nLastBlockHeight == old(nLastBlockHeight) && nSyncedFromPeer == old(nSyncedFromPeer)
      ensures !ctx.blockchainSynced || ctx.liteMode || msg.OtherCommand? ==> actions == [] && View() == old(View())
      ensures ctx.blockchainSynced && !ctx.liteMode && msg.Mnget? ==>
                View() == old(View())
                && actions == if ctx.mainNet && askedBefore then [Misbehaving(20)]
                              else [MarkFulfilled] + SyncAnswer(votes, ctx.chain.tip, msg.countNeeded, ctx.countEnabled, ctx.proto)
      ensures ctx.blockchainSynced && !ctx.liteMode && msg.Mnw? ==>
                var r := HandleWinner(old(View()), msg.winner, peerVersion, ctx);
                View() == r.0 && actions == r.2
    {
      if !ctx.blockchainSynced || ctx.liteMode {
        return [];
      }
      match msg
      case Mnget(countNeeded) =>
        if ctx.mainNet && askedBefore {
          return [Misbehaving(20)];
        }
        var answer := Sync(ctx.chain.tip, countNeeded, ctx.countEnabled, ctx.proto);
        actions := [MarkFulfilled] + answer;
      case Mnw(w) =>
        var outcome;
        outcome, actions := ProcessWinner(w, peerVersion, ctx);
      case OtherCommand =>
        actions := [];
    }

    /** ProcessBlock: the active masternode votes, phase by phase, for the
        next masternode in each phase's queue at the height. Refused when the
        node is not a masternode, is unranked or outside the top 10 at
        height - 100, or has already voted at this height or above; a budget
        block is accepted without votes; refused when the key cannot be set. */
    method ProcessBlock(h: int32, p: Producer, sched: Schedule, chain: Chain, reg: Registry, proto: Protocol,
                        verify: (Bytes, Bytes, SignedMessage) -> bool)
      returns (result: bool, actions: seq<Action>)
      requires Valid()
      modifies this, blocks.Values
      ensures Valid()
      ensures nSyncedFromPeer == old(nSyncedFromPeer)
      ensures !MayVote(p, h, old(nLastBlockHeight), reg, proto) || p.isBudgetBlock(h) || !p.keyReady ==>
                View() == old(View()) && nLastBlockHeight == old(nLastBlockHeight) && actions == []
                && result == (MayVote(p, h, old(nLastBlockHeight), reg, proto) && p.isBudgetBlock(h))
      ensures MayVote(p, h, old(nLastBlockHeight), reg, proto) && !p.isBudgetBlock(h) && p.keyReady ==>
                var (l, sent) := Produce(old(View()), h, sched.phaseCount(h + 1), p, chain, reg, proto, verify);
                && View() == l && actions == Relays(sent, proto)
                && nLastBlockHeight == (if |sent| > 0 then h else old(nLastBlockHeight))
                && result == (|sent| > 0)
    {
      if !p.isMasternode {
        return false, [];
      }
      var rank := reg.rank(p.vin, h - 100, proto.active);
      if rank == -1 {
        return false, [];
      }
      if rank > SIGNATURES_TOTAL {
        return false, [];
      }
      if h <= nLastBlockHeight {
        return false, [];
      }
      if p.isBudgetBlock(h) {
        return true, [];
      }
      if !p.keyReady {
        return false, [];
      }
      actions := VotePhases(h, sched.phaseCount(h + 1), p, chain, reg, proto, verify);
      result := nLastBlockHeight == h;
    }

    /** ProcessBlock's loop over the phases 1..count. */
    method VotePhases(h: int32, count: uint32, p: Producer, chain: Chain, reg: Registry, proto: Protocol,
                      verify: (Bytes, Bytes, SignedMessage) -> bool)
      returns (actions: seq<Action>)
      requires Valid()
      modifies this, blocks.Values
      ensures Valid()
      ensures nSyncedFromPeer == old(nSyncedFromPeer)
      ensures var (l, sent) := Produce(old(View()), h, count, p, chain, reg, proto, verify);
              && View() == l && actions == Relays(sent, proto)
              && nLastBlockHeight == (if |sent| > 0 then h else old(nLastBlockHeight))
    {
      var phase: int := 1;
      actions := [];
      ghost var sent: seq<Winner> := [];
      while phase <= count
        invariant 1 <= phase <= count + 1
        invariant Valid()
        invariant (View(), sent) == Produce(old(View()), h, phase - 1, p, chain, reg, proto, verify)
        invariant actions == Relays(sent, proto)
        invariant nLastBlockHeight == if |sent| > 0 then h else old(nLastBlockHeight)
        invariant nSyncedFromPeer == old(nSyncedFromPeer)
        invariant forall k :: k in blocks ==> (k in old(blocks) && blocks[k] == old(blocks)[k]) || fresh(blocks[k])
      {
        ProduceNext(old(View()), View(), sent, h, phase as uint32, p, chain, reg, proto, verify);
        actions, sent := NextPhase(h, phase as uint32, p, chain, reg, proto, verify, actions, sent, old(nLastBlockHeight));
        phase := phase + 1;
      }
    }

    /** One turn of ProcessBlock's loop: the vote of phase `phase` is cast and,
        when added, relayed. */
    method NextPhase(h: int32, phase: uint32, p: Producer, chain: Chain, reg: Registry, proto: Protocol,
                     verify: (Bytes, Bytes, SignedMessage) -> bool, actions: seq<Action>,
                     ghost sent: seq<Winner>, ghost startHeight: int32)
      returns (actions': seq<Action>, ghost sent': seq<Winner>)
      requires Valid()
      requires actions == Relays(sent, proto)
      requires nLastBlockHeight == if |sent| > 0 then h else startHeight
      modifies this, blocks.Values
      ensures Valid()
      ensures nSyncedFromPeer == old(nSyncedFromPeer)
      ensures (View(), sent') == ProduceStep((old(View()), sent), h, phase, p, chain, reg, proto, verify)
      ensures actions' == Relays(sent', proto)
      ensures nLastBlockHeight == if |sent'| > 0 then h else startHeight
      ensures forall k :: k in blocks ==> (k in old(blocks) && blocks[k] == old(blocks)[k]) || fresh(blocks[k])
    {
      var vote := VoteForPhase(h, phase, p, chain, reg, proto, verify, sent);
      ghost var voted := View();
      actions' := actions;
      sent' := sent;
      if vote.Some? {
        actions' := actions + [RelayWinner(GetHash(vote.value, proto))];
        RelaysSnoc(sent, vote.value, proto);
        sent' := sent + [vote.value];
        nLastBlockHeight := h;
        assert View() == voted;
      }
    }

    /** One phase of ProcessBlock: the vote for the next masternode in the
        phase's queue is built, signed and added; the added vote is returned
        for relaying. */
    method VoteForPhase(h: int32, phase: uint32, p: Producer, chain: Chain, reg: Registry, proto: Protocol,
                        verify: (Bytes, Bytes, SignedMessage) -> bool, ghost sent: seq<Winner>)
      returns (relayed: Option<Winner>)
      requires Valid()
      modifies this, blocks.Values
      ensures Valid()
      ensures (View(), if relayed.Some? then sent + [relayed.value] else sent)
              == ProduceStep((old(View()), sent), h, phase, p, chain, reg, proto, verify)
      ensures nLastBlockHeight == old(nLastBlockHeight) && nSyncedFromPeer == old(nSyncedFromPeer)
      ensures forall k :: k in blocks ==> (k in old(blocks) && blocks[k] == old(blocks)[k]) || fresh(blocks[k])
    {
      var queued := p.nextInQueue(h + 1, phase);
      if queued.None? {
        return None;
      }
      var w := NewWinner(p.vin).(nBlockHeight := h);
      w := WithPayee(w, queued.value, reg, proto);
      var signed := Sign(w, reg, proto, p.sign, p.pubKey, verify);
      if signed.None? {
        return None;
      }
      assert PhaseVote(p, h, phase, reg, proto, verify) == signed;
      var added := AddWinningMasternode(signed.value, chain, reg, proto);
      relayed := if added then signed else None;
    }

    /** The payee of one phase of FillBlockPayee: the tally's phase winner at
        the height, else the registry's current masternode on that level. */
    method PayeeFor(h: int, phase: uint32, current: uint32 -> Option<Script>) returns (payee: Option<Script>)
      ensures payee == PhasePayee(Tallies(), h, phase, current)
    {
      payee := None;
      if IsHeight(h) {
        payee := GetBlockPayeeOnLevel(h as int32, phase);
      }
      if payee.None? {
        payee := current(phase);
      }
    }

    /** One phase of FillBlockPayee on the transaction's outputs. */
    static method PayPhase(outs: seq<TxOut>, payee: Option<Script>, payment: int, blockValue: int, isPoS: bool,
                           isMint: Script -> bool) returns (filled: seq<TxOut>)
      requires |outs| >= 1
      ensures filled == FillPhase(outs, payee, payment, blockValue, isPoS, isMint)
    {
      filled := outs;
      if payee.Some? {
        filled := filled + [TxOut(payment, payee.value)];
        var b := if isPoS then 1 else 0;
        if !isMint(filled[b].script) {
          filled := filled[b := filled[b].(value := filled[b].value - payment)];
        }
      } else if !isPoS {
        filled := filled[0 := filled[0].(value := blockValue - payment)];
      }
    }

    /** FillBlockPayee: for each phase of the next block, pays the phase
        winner of the next height's tally, or else the registry's current
        masternode on that level. */
    method FillBlockPayee(outs: seq<TxOut>, tip: Option<int32>, isPoS: bool, zStake: bool, sched: Schedule,
                          current: uint32 -> Option<Script>, isMint: Script -> bool)
      returns (filled: seq<TxOut>)
      requires |outs| >= 1
      ensures tip.None? ==> filled == outs
      ensures tip.Some? ==> filled == FillPhases(outs, sched.phaseCount(tip.value + 1), tip.value, Tallies(),
                                                 current, sched, isPoS, zStake, isMint)
    {
      filled := outs;
      if tip.None? {
        return;
      }
      var h: int := tip.value;
      var count: int := sched.phaseCount(h + 1);
      var phase: int := 1;
      ghost var tallies := Tallies();
      while phase <= count
        invariant 1 <= phase <= count + 1
        invariant |filled| >= 1
        invariant filled == FillPhases(outs, phase - 1, h, tallies, current, sched, isPoS, zStake, isMint)
      {
        var payee := PayeeFor(h + 1, phase as uint32, current);
        var blockValue: int := sched.blockValue(h);
        var payment: int := sched.payment(h + 1, phase as uint32, blockValue, 0, zStake);
        FillPhasesStep(outs, phase, h, tallies, current, sched, isPoS, zStake, isMint);
        filled := PayPhase(filled, payee, payment, blockValue, isPoS, isMint);
        phase := phase + 1;
      }
    }
  }
}
