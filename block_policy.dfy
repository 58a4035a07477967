/** The block-level decisions built on the ledger: whether a block's minted
    value and its payees are acceptable, and the dispatch between budget
    payments and masternode payments when a block is filled or its required
    payments are listed. */
module BlockPolicy {
  import opened Common
  import opened BlockPayees
  import opened MasternodePayments

  /** TrxValidationStatus: the budget's verdict on a block's payment. */
  datatype TrxStatus = InValid | Valid | DoublePayment | VoteThreshold

  /** A block as the checks see it: the hash of its parent and the outputs of
      its transactions (the coinbase, then the coinstake of a proof-of-stake
      block). */
  datatype Block = Block(hashPrevBlock: Hash, vtx: seq<seq<TxOut>>)

  /** What the checks read from the rest of the node. */
  datatype Env = Env(
    tip: Option<(Hash, nat)>,                    // chainActive.Tip(): its hash and height
    heightOf: Hash -> Option<nat>,               // mapBlockIndex lookup
    synced: bool,                                // masternodeSync.IsSynced()
    spork8: bool,                                // SPORK_8_MASTERNODE_PAYMENT_ENFORCEMENT
    spork9: bool,                                // SPORK_9_MASTERNODE_BUDGET_ENFORCEMENT
    spork13: bool,                               // SPORK_13_ENABLE_SUPERBLOCKS
    isBudgetBlock: int -> bool,                  // budget.IsBudgetPaymentBlock
    budgetTxStatus: (seq<TxOut>, int) -> TrxStatus,  // budget.IsTransactionValid
    lastPowBlock: int,                           // Params().LAST_POW_BLOCK()
    cycleBlocks: int)                            // GetBudgetPaymentCycleBlocks()

  /** The height of a block: one above its parent, 0 when the parent is
      unknown. */
  function BlockHeight(env: Env, block: Block): (h: nat)
    requires env.tip.Some?
    ensures env.tip.value.0 == block.hashPrevBlock ==> h == env.tip.value.1 + 1
    ensures env.tip.value.0 != block.hashPrevBlock ==>
              h == if env.heightOf(block.hashPrevBlock).Some? then env.heightOf(block.hashPrevBlock).value + 1 else 0
  {
    if env.tip.value.0 == block.hashPrevBlock then env.tip.value.1 + 1
    else match env.heightOf(block.hashPrevBlock)
      case Some(prev) => prev + 1
      case None => 0
  }

  /** The heights whose minted value is not checked: the first 100 blocks of
      each budget cycle before the node is synced, and the superblocks once it
      is synced and they are enabled. */
  predicate ValueExempt(env: Env, h: nat)
    requires env.cycleBlocks > 0
  {
    if !env.synced then h % env.cycleBlocks < 100
    else env.spork13 && env.isBudgetBlock(h)
  }

  /** IsBlockValueValid: a block may mint at most the expected value, unless
      there is no tip or its height is exempt. */
  function IsBlockValueValid(env: Env, block: Block, expected: int, minted: int): (ok: bool)
    requires env.cycleBlocks > 0
    ensures ok <==> env.tip.None? || ValueExempt(env, BlockHeight(env, block)) || minted <= expected
    ensures !ok ==> minted > expected
  {
    if env.tip.None? then true
    else
      var h := BlockHeight(env, block);
      if !env.synced then
        if h % env.cycleBlocks < 100 then true
        else minted <= expected
      else if !env.spork13 then minted <= expected
      else if env.isBudgetBlock(h) then true
      else minted <= expected
  }

  /** The ledger's check of a block's payments at a height: nothing is
      required of a height without a tally. */
  predicate LedgerPaysAt(tallies: map<int32, BlockPayeesData>, tx: seq<TxOut>, h: int32, sched: Schedule,
                         net: NetworkCounts) {
    h !in tallies || AllPhasesPaid(tallies[h].payments, tallies[h].height, tx, sched, net)
  }

  /** The transaction that pays the masternodes: the coinstake after the last
      proof-of-work block, the coinbase before. */
  function PaymentTx(env: Env, block: Block, h: int32): (tx: seq<TxOut>)
    requires |block.vtx| > (if h > env.lastPowBlock then 1 else 0)
    ensures tx in block.vtx
  {
    if h > env.lastPowBlock then block.vtx[1] else block.vtx[0]
  }

  /** IsBlockPayeeValid: the block's payment transaction is accepted when the
      node is not synced, when it is a valid budget payment, or when it pays
      the masternodes the ledger requires; otherwise it is refused only by an
      enforcement spork. */
  function IsBlockPayeeValid(env: Env, block: Block, h: int32, tallies: map<int32, BlockPayeesData>,
                             sched: Schedule, net: NetworkCounts): (ok: bool)
    requires env.synced ==> |block.vtx| > (if h > env.lastPowBlock then 1 else 0)
    ensures !env.synced ==> ok
    ensures env.synced ==>
              var tx := PaymentTx(env, block, h);
              var budgetBlock := env.spork13 && env.isBudgetBlock(h);
              var budgetAccepts := budgetBlock && env.budgetTxStatus(tx, h) == Valid;
              var budgetRefuses := budgetBlock && env.budgetTxStatus(tx, h) == InValid && env.spork9;
              ok <==> budgetAccepts || (!budgetRefuses && (LedgerPaysAt(tallies, tx, h, sched, net) || !env.spork8))
    ensures !ok ==> env.synced && (env.spork8 || env.spork9)
  {
    if !env.synced then true
    else
      var tx := PaymentTx(env, block, h);
      if env.spork13 && env.isBudgetBlock(h) && env.budgetTxStatus(tx, h) == Valid then true
      else if env.spork13 && env.isBudgetBlock(h) && env.budgetTxStatus(tx, h) == InValid && env.spork9 then false
      else if LedgerPaysAt(tallies, tx, h, sched, net) then true
      else !env.spork8
  }

  /** FillBlockPayee (the free function): a superblock is filled by the
      budget, any other block by the masternode ledger; nothing without a tip. */
  method FillBlock(ledger: MasternodePayments, outs: seq<TxOut>, tip: Option<int32>, isPoS: bool, zStake: bool,
                   env: Env, sched: Schedule, current: uint32 -> Option<Script>, isMint: Script -> bool,
                   budgetFill: seq<TxOut> -> seq<TxOut>)
    returns (filled: seq<TxOut>)
    requires |outs| >= 1
    ensures tip.None? ==> filled == outs
    ensures tip.Some? && env.spork13 && env.isBudgetBlock(tip.value + 1) ==> filled == budgetFill(outs)
    ensures tip.Some? && !(env.spork13 && env.isBudgetBlock(tip.value + 1)) ==>
              filled == FillPhases(outs, sched.phaseCount(tip.value + 1), tip.value, ledger.Tallies(),
                                   current, sched, isPoS, zStake, isMint)
  {
    if tip.None? {
      return outs;
    }
    if env.spork13 && env.isBudgetBlock(tip.value + 1) {
      filled := budgetFill(outs);
    } else {
      filled := ledger.FillBlockPayee(outs, tip, isPoS, zStake, sched, current, isMint);
    }
  }

  /** GetRequiredPayments (the free function): the budget's lines for a
      superblock height, the ledger's otherwise. */
  method RequiredPayments(ledger: MasternodePayments, h: int32, env: Env, address: Script -> string,
                          budgetRequired: int -> seq<RequiredPayment>)
    returns (lines: seq<RequiredPayment>)
    ensures env.spork13 && env.isBudgetBlock(h) ==> lines == budgetRequired(h)
    ensures !(env.spork13 && env.isBudgetBlock(h)) && h !in ledger.Tallies() ==> lines == []
    ensures !(env.spork13 && env.isBudgetBlock(h)) && h in ledger.Tallies() ==>
              |lines| == |ledger.Tallies()[h].payments|
              && forall i :: 0 <= i < |lines| ==>
                   var p := ledger.Tallies()[h].payments[i];
                   lines[i] == RequiredPayment(address(p.script), p.votes % 0x1_0000_0000_0000_0000, p.level)
  {
    if env.spork13 && env.isBudgetBlock(h) {
      return budgetRequired(h);
    }
    lines := ledger.GetRequiredPayments(h, address);
  }
}
