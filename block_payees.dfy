/** CMasternodeBlockPayees: the vote tally for one block height, a list of
    (payee script, masternode phase, votes) entries, and the checks made
    against it when a block's coinbase or coinstake is validated. */
module BlockPayees {
  import opened Common
  import opened Serialize

  /** MNPAYMENTS_SIGNATURES_REQUIRED: votes a payee needs before it is enforced. */
  const SIGNATURES_REQUIRED: int := 6

  /** CMasternodePayee. `level` is the masternode phase the payee is paid in. */
  datatype Payee = Payee(script: Script, level: uint32, votes: int32)

  /** A transaction output: amount (a CAmount, unbounded here) and locking script. */
  datatype TxOut = TxOut(value: int, script: Script)

  /** The reward schedule and chain parameters the payment check consults. */
  datatype Schedule = Schedule(
    blockValue: int -> int64,                            // GetBlockValue(height)
    phaseCount: int -> uint32,                           // Params().getMasternodePhaseCount(height)
    payment: (int, uint32, int64, int, bool) -> int64,   // GetMasternodePayment(height, phase, reward, count, zerocoinStake)
    countDrift: int)                                     // Params().MasternodeCountDrift()

  /** The masternode counts the payment check reads from the registry, and
      whether SPORK_8_MASTERNODE_PAYMENT_ENFORCEMENT is active. */
  datatype NetworkCounts = NetworkCounts(enforcement: bool, stableSize: int, size: int)

  /** CPaymentWinner: one line of GetRequiredPayments. */
  datatype RequiredPayment = RequiredPayment(address: string, votes: nat, level: uint32)

  /** The plain value of a tally, as it is serialised. */
  datatype BlockPayeesData = BlockPayeesData(height: int32, payments: seq<Payee>)

  // ---------------------------------------------------------------------------
  // Specification of the tally operations

  /** An entry the add operation would merge into: the same script, and the
      same level when a level is given. */
  predicate SameSlot(p: Payee, script: Script, level: Option<uint32>) {
    p.script == script && (level.None? || p.level == level.value)
  }

  /** An entry the winner scan considers: any entry, or one of the given level. */
  predicate OnLevel(p: Payee, level: Option<uint32>) {
    level.None? || p.level == level.value
  }

  function FirstSlot(ps: seq<Payee>, script: Script, level: Option<uint32>): (r: Option<nat>)
    ensures r.Some? ==> r.value < |ps| && SameSlot(ps[r.value], script, level)
                        && forall j :: 0 <= j < r.value ==> !SameSlot(ps[j], script, level)
    ensures r.None? ==> forall j :: 0 <= j < |ps| ==> !SameSlot(ps[j], script, level)
  {
    if ps == [] then None
    else if SameSlot(ps[0], script, level) then Some(0)
    else match FirstSlot(ps[1..], script, level)
      case None => None
      case Some(i) => Some(i + 1)
  }

  /** The entries after adding `inc` votes: the first matching entry's votes
      grow (with int wrap-around), or a new entry is appended; a level-less add
      appends its entry at level 0. */
  function WithVotes(ps: seq<Payee>, script: Script, level: Option<uint32>, inc: int32): seq<Payee> {
    match FirstSlot(ps, script, level)
    case Some(i) => ps[i := ps[i].(votes := Wrap32(ps[i].votes + inc))]
    case None => ps + [Payee(script, if level.Some? then level.value else 0, inc)]
  }

  /** Entries are unique by (script, level). */
  predicate UniqueSlots(ps: seq<Payee>) {
    forall i, j :: 0 <= i < j < |ps| ==> (ps[i].script, ps[i].level) != (ps[j].script, ps[j].level)
  }

  /** The two cases of AddPayee(script, level, inc): an existing (script, level)
      entry gets the votes and the length is unchanged, or exactly one entry
      (script, level, inc) is appended; every other entry is unchanged. */
  lemma WithVotesCases(ps: seq<Payee>, script: Script, level: uint32, inc: int32)
    ensures var r := WithVotes(ps, script, Some(level), inc);
      if exists i :: 0 <= i < |ps| && ps[i].script == script && ps[i].level == level then
        |r| == |ps|
        && exists i :: 0 <= i < |ps| && ps[i].script == script && ps[i].level == level
                       && r[i] == ps[i].(votes := Wrap32(ps[i].votes + inc))
                       && forall j :: 0 <= j < |ps| && j != i ==> r[j] == ps[j]
      else
        r == ps + [Payee(script, level, inc)]
  {
    var r := WithVotes(ps, script, Some(level), inc);
    match FirstSlot(ps, script, Some(level))
    case Some(i) =>
      assert ps[i].script == script && ps[i].level == level;
      assert r[i] == ps[i].(votes := Wrap32(ps[i].votes + inc));
    case None =>
  }

  /** Adding votes keeps entries unique by (script, level), whichever add is used. */
  lemma WithVotesKeepsUnique(ps: seq<Payee>, script: Script, level: Option<uint32>, inc: int32)
    requires UniqueSlots(ps)
    ensures UniqueSlots(WithVotes(ps, script, level, inc))
  {
    var r := WithVotes(ps, script, level, inc);
    match FirstSlot(ps, script, level)
    case Some(i) =>
      forall a, b | 0 <= a < b < |r|
        ensures (r[a].script, r[a].level) != (r[b].script, r[b].level)
      {
        assert (r[a].script, r[a].level) == (ps[a].script, ps[a].level);
        assert (r[b].script, r[b].level) == (ps[b].script, ps[b].level);
      }
    case None =>
      var added := Payee(script, if level.Some? then level.value else 0, inc);
      forall a, b | 0 <= a < b < |r|
        ensures (r[a].script, r[a].level) != (r[b].script, r[b].level)
      {
        if b == |ps| {
          assert r[b] == added && r[a] == ps[a];
          assert !SameSlot(ps[a], script, level);
        }
      }
  }

  /** With a non-negative increment that does not overflow, no entry loses
      votes, no entry changes script or level, and none disappears. */
  lemma WithVotesMonotone(ps: seq<Payee>, script: Script, level: Option<uint32>, inc: int32)
    requires inc >= 0
    requires forall i :: 0 <= i < |ps| ==> ps[i].votes + inc <= INT32_MAX
    ensures |WithVotes(ps, script, level, inc)| >= |ps|
    ensures forall i :: 0 <= i < |ps| ==>
              WithVotes(ps, script, level, inc)[i].script == ps[i].script
              && WithVotes(ps, script, level, inc)[i].level == ps[i].level
              && WithVotes(ps, script, level, inc)[i].votes >= ps[i].votes
  {
  }

  /** The winner of a scan over the first n entries: an entry of the level
      with votes > -1 and the most votes, earlier than any entry that ties it
      (the scan only replaces on a strictly greater count). */
  predicate IsWinnerIn(ps: seq<Payee>, n: int, level: Option<uint32>, i: int)
    requires 0 <= n <= |ps|
  {
    && 0 <= i < n && OnLevel(ps[i], level) && ps[i].votes > -1
    && (forall j :: 0 <= j < n && OnLevel(ps[j], level) ==> ps[j].votes <= ps[i].votes)
    && (forall j :: 0 <= j < i && OnLevel(ps[j], level) ==> ps[j].votes < ps[i].votes)
  }

  predicate IsWinner(ps: seq<Payee>, level: Option<uint32>, i: int) {
    IsWinnerIn(ps, |ps|, level, i)
  }

  /** There is at most one winner. */
  lemma WinnerUnique(ps: seq<Payee>, level: Option<uint32>, i: int, j: int)
    requires IsWinner(ps, level, i) && IsWinner(ps, level, j)
    ensures i == j
  {
  }

  /** The script GetPayee reports: the winner's, or None when there is none. */
  ghost function BestPayee(ps: seq<Payee>, level: Option<uint32>): Option<Script> {
    if exists i :: IsWinner(ps, level, i) then
      var i :| IsWinner(ps, level, i);
      Some(ps[i].script)
    else None
  }

  /** The scan's outcome determines BestPayee: the winner found, or no winner
      when no entry of the level has votes > -1. */
  lemma WinnerIsBest(ps: seq<Payee>, level: Option<uint32>, best: int)
    requires best == -1 ==> forall j :: 0 <= j < |ps| && OnLevel(ps[j], level) ==> ps[j].votes <= -1
    requires best != -1 ==> IsWinner(ps, level, best)
    ensures BestPayee(ps, level) == if best == -1 then None else Some(ps[best].script)
  {
    if best != -1 {
      forall i | IsWinner(ps, level, i) ensures i == best {
        WinnerUnique(ps, level, i, best);
      }
    }
  }

  /** Entries of the level and their required votes: the payment check's notion
      of a phase that is enforced (its running maximum reaches 6). */
  predicate Enforced(ps: seq<Payee>, phase: int) {
    exists i :: 0 <= i < |ps| && ps[i].level == phase && ps[i].votes >= SIGNATURES_REQUIRED
  }

  /** Some payee of the phase with at least 6 votes is paid at least `required`
      by an output with its script. */
  predicate PhasePaid(ps: seq<Payee>, phase: int, tx: seq<TxOut>, required: int) {
    exists i, k :: 0 <= i < |ps| && 0 <= k < |tx|
                   && ps[i].level == phase && ps[i].votes >= SIGNATURES_REQUIRED
                   && tx[k].script == ps[i].script && tx[k].value >= required
  }

  /** The masternode count the required amount is computed for: the stable
      count under enforcement, otherwise the full count, plus the drift. */
  function DriftCount(net: NetworkCounts, sched: Schedule): int {
    (if net.enforcement then net.stableSize else net.size) + sched.countDrift
  }

  function Required(height: int, phase: uint32, sched: Schedule, net: NetworkCounts): int64 {
    sched.payment(height, phase, sched.blockValue(height), DriftCount(net, sched), false)
  }

  /** Every enforced phase in 1..phaseCount(height) is paid. */
  predicate AllPhasesPaid(ps: seq<Payee>, height: int, tx: seq<TxOut>, sched: Schedule, net: NetworkCounts) {
    forall phase: uint32 :: 1 <= phase <= sched.phaseCount(height) && Enforced(ps, phase) ==>
      PhasePaid(ps, phase, tx, Required(height, phase, sched, net))
  }

  // ---------------------------------------------------------------------------
  // Serialisation: nBlockHeight, then the vector of (script, level, votes).

  function WriteMasternodePayee(p: Payee): Bytes {
    WriteBytes(p.script) + WriteU32(p.level) + WriteI32(p.votes)
  }

  function ReadMasternodePayee(s: Bytes): Option<Decoded<Payee>> {
    match ReadBytes(s)
    case None => None
    case Some(Decoded(script, t)) =>
      match ReadU32(t)
      case None => None
      case Some(Decoded(level, u)) =>
        match ReadI32(u)
        case None => None
        case Some(Decoded(votes, v)) => Some(Decoded(Payee(script, level, votes), v))
  }

  function WriteBlockPayees(d: BlockPayeesData): Bytes {
    WriteI32(d.height) + WriteVector(d.payments, WriteMasternodePayee)
  }

  function ReadBlockPayees(s: Bytes): Option<Decoded<BlockPayeesData>> {
    match ReadI32(s)
    case None => None
    case Some(Decoded(height, t)) =>
      match ReadVector(t, ReadMasternodePayee)
      case None => None
      case Some(Decoded(payments, u)) => Some(Decoded(BlockPayeesData(height, payments), u))
  }

  predicate PayeeFits(p: Payee) {
    |p.script| <= MAX_SIZE
  }

  predicate BlockPayeesFit(d: BlockPayeesData) {
    |d.payments| <= MAX_SIZE && forall i :: 0 <= i < |d.payments| ==> PayeeFits(d.payments[i])
  }

  lemma PayeeLayout(p: Payee, rest: Bytes)
    ensures WriteMasternodePayee(p) + rest == WriteBytes(p.script) + (WriteU32(p.level) + (WriteI32(p.votes) + rest))
  {
  }

  lemma PayeeRoundTrip(p: Payee, rest: Bytes)
    requires PayeeFits(p)
    ensures ReadMasternodePayee(WriteMasternodePayee(p) + rest) == Some(Decoded(p, rest))
  {
    PayeeLayout(p, rest);
    BytesRoundTrip(p.script, WriteU32(p.level) + (WriteI32(p.votes) + rest));
    U32RoundTrip(p.level, WriteI32(p.votes) + rest);
    I32RoundTrip(p.votes, rest);
  }

  lemma PayeeInverse()
    ensures Inverse(WriteMasternodePayee, ReadMasternodePayee, PayeeFits, (p: Payee) => p)
  {
    forall p: Payee, rest: Bytes | PayeeFits(p)
      ensures ReadMasternodePayee(WriteMasternodePayee(p) + rest) == Some(Decoded(p, rest))
    {
      PayeeRoundTrip(p, rest);
    }
  }

  /** A serialised tally reads back as the same height and entries. */
  lemma BlockPayeesRoundTrip(d: BlockPayeesData, rest: Bytes)
    requires BlockPayeesFit(d)
    ensures ReadBlockPayees(WriteBlockPayees(d) + rest) == Some(Decoded(d, rest))
  {
    var body := WriteVector(d.payments, WriteMasternodePayee);
    assert WriteBlockPayees(d) + rest == WriteI32(d.height) + (body + rest);
    I32RoundTrip(d.height, body + rest);
    PayeeInverse();
    VectorRoundTrip(d.payments, rest, WriteMasternodePayee, ReadMasternodePayee, PayeeFits, (p: Payee) => p);
    assert MapSeq(d.payments, (p: Payee) => p) == d.payments;
  }

  // ---------------------------------------------------------------------------
  // The tally object

  class BlockPayees {
    var nBlockHeight: int32
    var payments: seq<Payee>

    /** CMasternodeBlockPayees(nBlockHeightIn) */
    constructor (height: int32)
      ensures nBlockHeight == height && payments == []
    {
      nBlockHeight := height;
      payments := [];
    }

    /** Rebuilds a tally from its serialised value. */
    constructor FromData(d: BlockPayeesData)
      ensures nBlockHeight == d.height && payments == d.payments
    {
      nBlockHeight := d.height;
      payments := d.payments;
    }

    function Data(): BlockPayeesData
      reads this
    {
      BlockPayeesData(nBlockHeight, payments)
    }

    /** AddPayee(payee, nIncrement): merges into the first entry with that
        script, whatever its level, or appends one at level 0. */
    method AddPayee(script: Script, inc: int32)
      modifies this
      ensures nBlockHeight == old(nBlockHeight)
      ensures payments == WithVotes(old(payments), script, None, inc)
    {
      var k := 0;
      while k < |payments|
        invariant 0 <= k <= |payments|
        invariant forall j :: 0 <= j < k ==> !SameSlot(payments[j], script, None)
      {
        if payments[k].script == script {
          payments := payments[k := payments[k].(votes := Wrap32(payments[k].votes + inc))];
          return;
        }
        k := k + 1;
      }
      payments := payments + [Payee(script, 0, inc)];
    }

    /** AddPayee(payee, masternodeLevel, nIncrement): merges into the entry with
        that script and level, or appends one. */
    method AddPayeeOnLevel(script: Script, level: uint32, inc: int32)
      modifies this
      ensures nBlockHeight == old(nBlockHeight)
      ensures payments == WithVotes(old(payments), script, Some(level), inc)
    {
      var k := 0;
      while k < |payments|
        invariant 0 <= k <= |payments|
        invariant forall j :: 0 <= j < k ==> !SameSlot(payments[j], script, Some(level))
      {
        if payments[k].script == script && payments[k].level == level {
          payments := payments[k := payments[k].(votes := Wrap32(payments[k].votes + inc))];
          return;
        }
        k := k + 1;
      }
      payments := payments + [Payee(script, level, inc)];
    }

    /** GetPayee(payee): the script with the most votes over all entries, the
        earliest on a tie; None when no entry has votes > -1. */
    method GetPayee() returns (payee: Option<Script>)
      ensures payee.None? <==> forall i :: 0 <= i < |payments| ==> payments[i].votes <= -1
      ensures payee.Some? ==> exists i :: IsWinner(payments, None, i) && payments[i].script == payee.value
      ensures payee == BestPayee(payments, None)
    {
      var nVotes := -1;
      payee := None;
      ghost var best := -1;
      var k := 0;
      while k < |payments|
        invariant 0 <= k <= |payments|
        invariant (nVotes == -1) == (best == -1) == payee.None?
        invariant best == -1 ==> forall j :: 0 <= j < k ==> payments[j].votes <= -1
        invariant best != -1 ==> IsWinnerIn(payments, k, None, best)
                                 && payee == Some(payments[best].script) && nVotes == payments[best].votes
      {
        if payments[k].votes > nVotes {
          payee := Some(payments[k].script);
          nVotes := payments[k].votes;
          best := k;
        }
        k := k + 1;
      }
      WinnerIsBest(payments, None, best);
    }

    /** GetPayee(payee, masternodeLevel): the same scan restricted to one level. */
    method GetPayeeOnLevel(level: uint32) returns (payee: Option<Script>)
      ensures payee.None? <==> forall i :: 0 <= i < |payments| && payments[i].level == level ==> payments[i].votes <= -1
      ensures payee.Some? ==> exists i :: IsWinner(payments, Some(level), i) && payments[i].script == payee.value
      ensures payee == BestPayee(payments, Some(level))
    {
      var nVotes := -1;
      payee := None;
      ghost var best := -1;
      var k := 0;
      while k < |payments|
        invariant 0 <= k <= |payments|
        invariant (nVotes == -1) == (best == -1) == payee.None?
        invariant best == -1 ==> forall j :: 0 <= j < k && payments[j].level == level ==> payments[j].votes <= -1
        invariant best != -1 ==> IsWinnerIn(payments, k, Some(level), best)
                                 && payee == Some(payments[best].script) && nVotes == payments[best].votes
      {
        if payments[k].level == level && payments[k].votes > nVotes {
          payee := Some(payments[k].script);
          nVotes := payments[k].votes;
          best := k;
        }
        k := k + 1;
      }
      WinnerIsBest(payments, Some(level), best);
    }

    /** HasPayeeWithVotes: some entry has that script and at least nVotesReq votes. */
    method HasPayeeWithVotes(script: Script, votesRequired: int) returns (found: bool)
      ensures found <==> exists i :: 0 <= i < |payments| && payments[i].votes >= votesRequired
                                     && payments[i].script == script
    {
      var k := 0;
      while k < |payments|
        invariant 0 <= k <= |payments|
        invariant forall j :: 0 <= j < k ==> !(payments[j].votes >= votesRequired && payments[j].script == script)
      {
        if payments[k].votes >= votesRequired && payments[k].script == script {
          return true;
        }
        k := k + 1;
      }
      return false;
    }

    /** IsTransactionValid(txNew): for each phase 1..phaseCount, when the most
        voted payee of the phase has at least 6 votes, some payee of that phase
        with at least 6 votes must be paid at least the required amount. */
    method IsTransactionValid(tx: seq<TxOut>, sched: Schedule, net: NetworkCounts) returns (valid: bool)
      ensures valid <==> AllPhasesPaid(payments, nBlockHeight, tx, sched, net)
    {
      valid := true;
      var phaseCount: int := sched.phaseCount(nBlockHeight);
      var phase: int := 1;
      while phase <= phaseCount
        invariant 1 <= phase <= phaseCount + 1
        invariant valid <==> forall q: uint32 :: 1 <= q < phase && Enforced(payments, q) ==>
                               PhasePaid(payments, q, tx, Required(nBlockHeight, q, sched, net))
      {
        var maxVotes := MaxVotesOnLevel(phase);
        if maxVotes >= SIGNATURES_REQUIRED {
          var required := Required(nBlockHeight, phase, sched, net);
          var paid := LevelPaid(phase, tx, required);
          if !paid {
            valid := false;
          }
        }
        phase := phase + 1;
      }
    }

    /** The running maximum `nMaxSignatures` of the payment check: it starts at
        0 and takes the votes of each entry of the level that reaches it. */
    method MaxVotesOnLevel(level: uint32) returns (maxVotes: int)
      ensures maxVotes >= SIGNATURES_REQUIRED <==> Enforced(payments, level)
      ensures maxVotes >= 0
    {
      maxVotes := 0;
      var k := 0;
      while k < |payments|
        invariant 0 <= k <= |payments|
        invariant maxVotes >= 0
        invariant forall j :: 0 <= j < k && payments[j].level == level ==> payments[j].votes <= maxVotes
        invariant maxVotes == 0 || exists j :: 0 <= j < k && payments[j].level == level && payments[j].votes == maxVotes
      {
        if payments[k].votes >= maxVotes && payments[k].level == level {
          maxVotes := payments[k].votes;
        }
        k := k + 1;
      }
    }

    /** The `hasLevelPayment` scan: over the level's entries with at least 6
        votes, look for an output to the entry's script worth at least
        `required`, stopping at the first one found. */
    method LevelPaid(level: uint32, tx: seq<TxOut>, required: int) returns (paid: bool)
      ensures paid <==> PhasePaid(payments, level, tx, required)
    {
      paid := false;
      var k := 0;
      while k < |payments|
        invariant 0 <= k <= |payments|
        invariant !paid
        invariant forall i, o :: 0 <= i < k && 0 <= o < |tx| && payments[i].level == level
                                 && payments[i].votes >= SIGNATURES_REQUIRED && tx[o].script == payments[i].script
                                 ==> tx[o].value < required
      {
        if payments[k].level != level || payments[k].votes < SIGNATURES_REQUIRED {
          k := k + 1;
          continue;
        }
        var o := 0;
        while o < |tx|
          invariant 0 <= o <= |tx|
          invariant forall p :: 0 <= p < o && tx[p].script == payments[k].script ==> tx[p].value < required
        {
          if payments[k].script == tx[o].script && tx[o].value >= required {
            return true;
          }
          o := o + 1;
        }
        k := k + 1;
      }
    }

    /** GetRequiredPayments: one line per entry, with the script rendered as an
        address and the int vote count converted to uint64 (a negative count
        wraps to 2^64 + votes). */
    method GetRequiredPayments(address: Script -> string) returns (lines: seq<RequiredPayment>)
      ensures |lines| == |payments|
      ensures forall i :: 0 <= i < |payments| ==>
                lines[i] == RequiredPayment(address(payments[i].script),
                                            payments[i].votes % 0x1_0000_0000_0000_0000, payments[i].level)
    {
      lines := [];
      var k := 0;
      while k < |payments|
        invariant 0 <= k <= |payments|
        invariant |lines| == k
        invariant forall i :: 0 <= i < k ==>
                    lines[i] == RequiredPayment(address(payments[i].script),
                                                payments[i].votes % 0x1_0000_0000_0000_0000, payments[i].level)
      {
        var p := payments[k];
        lines := lines + [RequiredPayment(address(p.script), p.votes % 0x1_0000_0000_0000_0000, p.level)];
        k := k + 1;
      }
    }
  }
}
