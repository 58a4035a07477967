/** The payment vote ("winner"): a masternode's signed claim that a payee should
    be paid at a block height, its wire format, its identity hash, and the
    registry and signature collaborators it is checked against. */
module PaymentWinner {
  import opened Common
  import opened Serialize

  /** MNPAYMENTS_SIGNATURES_TOTAL: only the top ten ranked masternodes may vote. */
  const SIGNATURES_TOTAL: int := 10

  datatype OutPoint = OutPoint(hash: Hash, n: uint32)
  datatype TxIn = TxIn(prevout: OutPoint, scriptSig: Script, sequence: uint32)

  /** COutPoint() and CTxIn(): a null outpoint and a final, unsigned input. */
  const NULL_OUTPOINT: OutPoint := OutPoint([0, 0, 0, 0, 0, 0, 0, 0, 0, 0, 0, 0, 0, 0, 0, 0, 0, 0, 0, 0, 0, 0, 0, 0, 0, 0, 0, 0, 0, 0, 0, 0], 0xffff_ffff)
  const EMPTY_TXIN: TxIn := TxIn(NULL_OUTPOINT, [], 0xffff_ffff)

  /** CMasternodePaymentWinner. `payee` is the legacy script form of the payee and
      `vinPayee` the collateral-input form; which one travels on the wire depends
      on the protocol version. */
  datatype Winner = Winner(vinMasternode: TxIn, nBlockHeight: int32, payee: Script,
                           vinPayee: TxIn, vchSig: Bytes)

  /** CMasternodePaymentWinner(vinIn): a vote by vinIn, with everything else empty. */
  function NewWinner(vin: TxIn): (w: Winner)
    ensures w.vinMasternode == vin && w.nBlockHeight == 0 && w.payee == []
    ensures w.vinPayee == EMPTY_TXIN && w.vchSig == []
  {
    Winner(vin, 0, [], EMPTY_TXIN, [])
  }

  /** The protocol parameters the winner's encoding and hash depend on: the
      active protocol (ActiveProtocol()), the first protocol that carries the
      payee as a collateral input (MIN_PEER_PROTO_VERSION_MNW_VIN), the
      double-SHA256 digest, and the text a script renders as (CScript::ToString). */
  datatype Protocol = Protocol(active: int, minVinVersion: int, hash: Bytes -> Hash,
                               scriptText: Script -> string)

  /** The masternode registry as the winner code queries it. */
  datatype Masternode = Masternode(collateralScript: Script, pubKeyMasternode: Bytes,
                                   protocolVersion: int, phaseAt: int -> uint32)

  datatype Registry = Registry(
    byVin: TxIn -> Option<Masternode>,          // mnodeman.Find(vin)
    byScript: Script -> Option<Masternode>,     // mnodeman.Find(payee script)
    rank: (TxIn, int, int) -> int,              // GetMasternodeRank(vin, height, minProtocol)
    txOutScript: OutPoint -> Option<Script>)    // GetTransaction(...).vout[n].scriptPubKey

  // ---------------------------------------------------------------------------
  // Registry-derived attributes

  /** GetPhase: the voter's phase at the vote height, 0 for an unknown voter. */
  function VoterPhase(w: Winner, reg: Registry): uint32 {
    match reg.byVin(w.vinMasternode)
    case Some(mn) => mn.phaseAt(w.nBlockHeight)
    case None => 0
  }

  /** GetPayeeScript: the legacy script, or the collateral script of the payee
      masternode, or the script of the payee's collateral output, or empty. */
  function PayeeScript(w: Winner, reg: Registry, proto: Protocol): Script {
    if proto.active < proto.minVinVersion then w.payee
    else match reg.byVin(w.vinPayee)
      case Some(mn) => mn.collateralScript
      case None =>
        match reg.txOutScript(w.vinPayee.prevout)
        case Some(script) => script
        case None => []
  }

  /** GetPayeePhase: the payee masternode's phase at the vote height, 0 if unknown. */
  function PayeePhase(w: Winner, reg: Registry, proto: Protocol): uint32 {
    var found := if proto.active < proto.minVinVersion then reg.byScript(w.payee) else reg.byVin(w.vinPayee);
    match found
    case Some(mn) => mn.phaseAt(w.nBlockHeight)
    case None => 0
  }

  /** CMasternodePaymentWinner::AddPayee: records the payee input and its script. */
  function WithPayee(w: Winner, vin: TxIn, reg: Registry, proto: Protocol): (r: Winner)
    ensures r.vinPayee == vin && r.vinMasternode == w.vinMasternode
    ensures r.nBlockHeight == w.nBlockHeight && r.vchSig == w.vchSig
    ensures r.payee == PayeeScript(w.(vinPayee := vin), reg, proto)
  {
    var w' := w.(vinPayee := vin);
    w'.(payee := PayeeScript(w', reg, proto))
  }

  /** IsValid: the voter is known, speaks the active protocol, and is ranked in
      the top SIGNATURES_TOTAL at height - 100. A rank of -1 (which the registry
      reports when it cannot rank) passes, as the comparison is only `> 10`. */
  function IsValidVoter(w: Winner, reg: Registry, proto: Protocol): (ok: bool)
    ensures ok <==> reg.byVin(w.vinMasternode).Some?
                    && reg.byVin(w.vinMasternode).value.protocolVersion >= proto.active
                    && reg.rank(w.vinMasternode, w.nBlockHeight - 100, proto.active) <= SIGNATURES_TOTAL
  {
    match reg.byVin(w.vinMasternode)
    case None => false
    case Some(mn) =>
      if mn.protocolVersion < proto.active then false
      else reg.rank(w.vinMasternode, w.nBlockHeight - 100, proto.active) <= SIGNATURES_TOTAL
  }

  // ---------------------------------------------------------------------------
  // Signatures

  /** uint256::ToString: the 32 bytes from the last to the first, each as two
      lower-case hexadecimal digits. */
  function HexText(b: Bytes): (s: string)
    ensures |s| == 2 * |b|
    ensures forall i :: 0 <= i < |s| ==> ('0' <= s[i] <= '9' || 'a' <= s[i] <= 'f')
  {
    if b == [] then ""
    else HexText(b[1..]) + [HexDigit(b[0] / 16), HexDigit(b[0] % 16)]
  }

  function HexDigit(d: nat): (c: char)
    requires d < 16
    ensures '0' <= c <= '9' || 'a' <= c <= 'f'
  {
    if d < 10 then ('0' as int + d) as char else ('a' as int + d - 10) as char
  }

  /** COutPoint::ToStringShort: the hash in hex, a dash, then the index. */
  function OutPointText(o: OutPoint): (s: string)
    ensures |s| == 65 + |Digits(o.n)| && s[64] == '-' && '-' !in s[..64]
    ensures s[65..] == Digits(o.n)
  {
    HexText(o.hash) + "-" + Digits(o.n)
  }

  /** What a winner signature covers: the text of the voter outpoint, then the
      height in decimal, then the payee script as CScript::ToString renders it,
      with nothing between them. */
  type SignedMessage = string

  function MessageOf(w: Winner, reg: Registry, proto: Protocol): SignedMessage {
    OutPointText(w.vinMasternode.prevout) + NumberText(w.nBlockHeight) + proto.scriptText(PayeeScript(w, reg, proto))
  }

  /** The text does not separate the outpoint index from the height: the voter
      at index 1 of a transaction voting at height 1100 and the voter at index
      11 of the same transaction voting at height 100 sign the same message. */
  lemma MessageTextCollides(a: Winner, b: Winner, reg: Registry, proto: Protocol)
    requires a.vinMasternode.prevout == OutPoint(b.vinMasternode.prevout.hash, 1) && a.nBlockHeight == 1100
    requires b.vinMasternode.prevout.n == 11 && b.nBlockHeight == 100
    requires PayeeScript(a, reg, proto) == PayeeScript(b, reg, proto)
    ensures a.vinMasternode.prevout != b.vinMasternode.prevout && a.nBlockHeight != b.nBlockHeight
    ensures MessageOf(a, reg, proto) == MessageOf(b, reg, proto)
  {
    assert Digits(1) == "1" && Digits(11) == "11";
    assert Digits(1100) == Digits(110) + "0" && Digits(110) == Digits(11) + "0";
    assert Digits(100) == Digits(10) + "0" && Digits(10) == "10";
    var h := HexText(b.vinMasternode.prevout.hash);
    calc {
      MessageOf(a, reg, proto);
      h + "-" + "1" + "1100" + proto.scriptText(PayeeScript(a, reg, proto));
      { assert "1" + "1100" == "11" + "100"; }
      h + "-" + "11" + "100" + proto.scriptText(PayeeScript(b, reg, proto));
      MessageOf(b, reg, proto);
    }
  }

  /** So a signature that verifies for one vote verifies for every vote with
      the same message text whose voter has the same key. */
  lemma SignatureCarriesOver(a: Winner, b: Winner, reg: Registry, proto: Protocol,
                             verify: (Bytes, Bytes, SignedMessage) -> bool)
    requires MessageOf(a, reg, proto) == MessageOf(b, reg, proto)
    requires reg.byVin(a.vinMasternode).Some? && reg.byVin(b.vinMasternode).Some?
    requires reg.byVin(a.vinMasternode).value.pubKeyMasternode == reg.byVin(b.vinMasternode).value.pubKeyMasternode
    requires SignatureValid(a, reg, proto, verify)
    ensures SignatureValid(b.(vchSig := a.vchSig), reg, proto, verify)
  {
    MessageIgnoresSignature(b, a.vchSig, reg, proto);
  }

  /** SignatureValid: the voter is known and the signature verifies under its key. */
  function SignatureValid(w: Winner, reg: Registry, proto: Protocol,
                          verify: (Bytes, Bytes, SignedMessage) -> bool): bool
  {
    match reg.byVin(w.vinMasternode)
    case None => false
    case Some(mn) => verify(mn.pubKeyMasternode, w.vchSig, MessageOf(w, reg, proto))
  }

  /** Sign: signs the message and checks the signature against the public key;
      None when either step fails. */
  function Sign(w: Winner, reg: Registry, proto: Protocol, sign: SignedMessage -> Option<Bytes>,
                pubKey: Bytes, verify: (Bytes, Bytes, SignedMessage) -> bool): (r: Option<Winner>)
    ensures r.Some? ==> r.value == w.(vchSig := r.value.vchSig)
                        && verify(pubKey, r.value.vchSig, MessageOf(w, reg, proto))
  {
    match sign(MessageOf(w, reg, proto))
    case None => None
    case Some(sig) => if verify(pubKey, sig, MessageOf(w, reg, proto)) then Some(w.(vchSig := sig)) else None
  }

  /** The signed message does not depend on the signature. */
  lemma MessageIgnoresSignature(w: Winner, sig: Bytes, reg: Registry, proto: Protocol)
    ensures MessageOf(w.(vchSig := sig), reg, proto) == MessageOf(w, reg, proto)
  {
  }

  // ---------------------------------------------------------------------------
  // Wire format

  function WriteOutPoint(o: OutPoint): (b: Bytes)
    ensures |b| == 36
  {
    o.hash + WriteU32(o.n)
  }

  function ReadOutPoint(s: Bytes): Option<Decoded<OutPoint>> {
    match ReadHash(s)
    case None => None
    case Some(Decoded(h, t)) =>
      match ReadU32(t)
      case None => None
      case Some(Decoded(n, u)) => Some(Decoded(OutPoint(h, n), u))
  }

  function WriteTxIn(t: TxIn): Bytes {
    WriteOutPoint(t.prevout) + WriteBytes(t.scriptSig) + WriteU32(t.sequence)
  }

  function ReadTxIn(s: Bytes): Option<Decoded<TxIn>> {
    match ReadOutPoint(s)
    case None => None
    case Some(Decoded(o, t)) =>
      match ReadBytes(t)
      case None => None
      case Some(Decoded(script, u)) =>
        match ReadU32(u)
        case None => None
        case Some(Decoded(sequence, v)) => Some(Decoded(TxIn(o, script, sequence), v))
  }

  /** Below the collateral-input protocol the payee travels as a script. */
  predicate LegacyPayee(version: int, proto: Protocol) {
    version < proto.minVinVersion
  }

  /** SerializationOp: voter input, height, payee (script or input), signature. */
  function WriteWinner(w: Winner, version: int, proto: Protocol): Bytes {
    WriteTxIn(w.vinMasternode) + WriteVote(w, LegacyPayee(version, proto))
  }

  /** Everything after the voter input: height, payee and signature. */
  function WriteVote(w: Winner, legacy: bool): Bytes {
    WriteI32(w.nBlockHeight) + PayeeBytes(w, legacy) + WriteBytes(w.vchSig)
  }

  /** The payee as a script (legacy) or as the collateral input. */
  function PayeeBytes(w: Winner, legacy: bool): Bytes {
    if legacy then WriteBytes(w.payee) else WriteTxIn(w.vinPayee)
  }

  /** Reads into a default-constructed winner, so the payee form that is not on
      the wire keeps its default. */
  function ReadWinner(s: Bytes, version: int, proto: Protocol): Option<Decoded<Winner>> {
    match ReadTxIn(s)
    case None => None
    case Some(Decoded(vin, t)) => ReadVote(t, vin, LegacyPayee(version, proto))
  }

  function ReadVote(s: Bytes, vin: TxIn, legacy: bool): Option<Decoded<Winner>> {
    match ReadI32(s)
    case None => None
    case Some(Decoded(height, t)) =>
      match ReadPayee(t, legacy)
      case None => None
      case Some(Decoded((payee, vinPayee), u)) =>
        match ReadBytes(u)
        case None => None
        case Some(Decoded(sig, v)) => Some(Decoded(Winner(vin, height, payee, vinPayee, sig), v))
  }

  /** Reads the payee form the version carries, leaving the other default. */
  function ReadPayee(s: Bytes, legacy: bool): Option<Decoded<(Script, TxIn)>> {
    if legacy then
      match ReadBytes(s)
      case None => None
      case Some(Decoded(script, t)) => Some(Decoded((script, EMPTY_TXIN), t))
    else
      match ReadTxIn(s)
      case None => None
      case Some(Decoded(vinPayee, t)) => Some(Decoded(([], vinPayee), t))
  }

  /** The winner as it reads back at a version: the payee form that is not
      written is reset to its default. */
  function OnWire(w: Winner, version: int, proto: Protocol): Winner {
    if LegacyPayee(version, proto) then w.(vinPayee := EMPTY_TXIN) else w.(payee := [])
  }

  /** Every length prefix of the winner is within MAX_SIZE. */
  predicate Fits(w: Winner) {
    |w.vinMasternode.scriptSig| <= MAX_SIZE && |w.payee| <= MAX_SIZE
    && |w.vinPayee.scriptSig| <= MAX_SIZE && |w.vchSig| <= MAX_SIZE
  }

  lemma OutPointRoundTrip(o: OutPoint, rest: Bytes)
    ensures ReadOutPoint(WriteOutPoint(o) + rest) == Some(Decoded(o, rest))
  {
    assert WriteOutPoint(o) + rest == o.hash + (WriteU32(o.n) + rest);
    HashRoundTrip(o.hash, WriteU32(o.n) + rest);
    U32RoundTrip(o.n, rest);
  }

  lemma TxInRoundTrip(t: TxIn, rest: Bytes)
    requires |t.scriptSig| <= MAX_SIZE
    ensures ReadTxIn(WriteTxIn(t) + rest) == Some(Decoded(t, rest))
  {
    var afterScript := WriteU32(t.sequence) + rest;
    var afterPrevout := WriteBytes(t.scriptSig) + afterScript;
    assert WriteTxIn(t) + rest == WriteOutPoint(t.prevout) + afterPrevout;
    OutPointRoundTrip(t.prevout, afterPrevout);
    BytesRoundTrip(t.scriptSig, afterScript);
    U32RoundTrip(t.sequence, rest);
  }

  lemma PayeeRoundTrip(w: Winner, legacy: bool, rest: Bytes)
    requires Fits(w)
    ensures ReadPayee(PayeeBytes(w, legacy) + rest, legacy)
         == Some(Decoded(if legacy then (w.payee, EMPTY_TXIN) else ([], w.vinPayee), rest))
  {
    if legacy {
      BytesRoundTrip(w.payee, rest);
    } else {
      TxInRoundTrip(w.vinPayee, rest);
    }
  }

  /** Deserialising at the version it was serialised at restores the voter, the
      height, the payee form that version carries, and the signature. */
  lemma WinnerRoundTrip(w: Winner, version: int, proto: Protocol, rest: Bytes)
    requires Fits(w)
    ensures ReadWinner(WriteWinner(w, version, proto) + rest, version, proto)
         == Some(Decoded(OnWire(w, version, proto), rest))
  {
    var legacy := LegacyPayee(version, proto);
    var afterVin := WriteVote(w, legacy) + rest;
    assert WriteWinner(w, version, proto) + rest == WriteTxIn(w.vinMasternode) + afterVin;
    TxInRoundTrip(w.vinMasternode, afterVin);
    VoteRoundTrip(w, legacy, rest);
  }

  lemma VoteLayout(w: Winner, legacy: bool, rest: Bytes)
    ensures WriteVote(w, legacy) + rest
         == WriteI32(w.nBlockHeight) + (PayeeBytes(w, legacy) + (WriteBytes(w.vchSig) + rest))
  {
  }

  lemma VoteRoundTrip(w: Winner, legacy: bool, rest: Bytes)
    requires Fits(w)
    ensures ReadVote(WriteVote(w, legacy) + rest, w.vinMasternode, legacy)
         == Some(Decoded(if legacy then w.(vinPayee := EMPTY_TXIN) else w.(payee := []), rest))
  {
    var afterPayee := WriteBytes(w.vchSig) + rest;
    var afterHeight := PayeeBytes(w, legacy) + afterPayee;
    VoteLayout(w, legacy, rest);
    I32RoundTrip(w.nBlockHeight, afterHeight);
    PayeeRoundTrip(w, legacy, afterPayee);
    BytesRoundTrip(w.vchSig, rest);
    var payee := if legacy then (w.payee, EMPTY_TXIN) else ([], w.vinPayee);
    assert ReadPayee(afterHeight, legacy) == Some(Decoded(payee, afterPayee));
    assert (if legacy then w.(vinPayee := EMPTY_TXIN) else w.(payee := []))
        == Winner(w.vinMasternode, w.nBlockHeight, payee.0, payee.1, w.vchSig);
  }

  // ---------------------------------------------------------------------------
  // Identity hash

  /** The bytes GetHash digests: the payee (script or input, by the active
      protocol), the height and the voter's outpoint. */
  function HashPreimage(w: Winner, proto: Protocol): Bytes {
    PayeeBytes(w, proto.active < proto.minVinVersion)
    + WriteI32(w.nBlockHeight) + WriteOutPoint(w.vinMasternode.prevout)
  }

  function GetHash(w: Winner, proto: Protocol): Hash {
    proto.hash(HashPreimage(w, proto))
  }

  predicate SamePayee(a: Winner, b: Winner, legacy: bool) {
    if legacy then a.payee == b.payee else a.vinPayee == b.vinPayee
  }

  /** The fields the identity hash covers. */
  predicate SameIdentity(a: Winner, b: Winner, proto: Protocol) {
    && SamePayee(a, b, proto.active < proto.minVinVersion)
    && a.nBlockHeight == b.nBlockHeight
    && a.vinMasternode.prevout == b.vinMasternode.prevout
  }

  /** Two winners that differ only in their signature (or the voter's scriptSig
      and sequence, or the payee form the protocol does not hash) hash alike. */
  lemma HashIgnoresSignature(a: Winner, b: Winner, proto: Protocol)
    requires SameIdentity(a, b, proto)
    ensures GetHash(a, proto) == GetHash(b, proto)
  {
  }

  /** The payee encoding is self-delimiting: it fixes the payee and where the
      rest of the stream begins. */
  lemma PayeeBytesPrefix(a: Winner, b: Winner, legacy: bool, tailA: Bytes, tailB: Bytes)
    requires Fits(a) && Fits(b)
    requires PayeeBytes(a, legacy) + tailA == PayeeBytes(b, legacy) + tailB
    ensures SamePayee(a, b, legacy) && tailA == tailB
  {
    if legacy {
      BytesRoundTrip(a.payee, tailA);
      BytesRoundTrip(b.payee, tailB);
    } else {
      TxInRoundTrip(a.vinPayee, tailA);
      TxInRoundTrip(b.vinPayee, tailB);
    }
  }

  lemma PreimageLayout(w: Winner, proto: Protocol)
    ensures HashPreimage(w, proto) == PayeeBytes(w, proto.active < proto.minVinVersion)
              + (WriteI32(w.nBlockHeight) + WriteOutPoint(w.vinMasternode.prevout))
  {
  }

  /** Conversely the preimage determines the covered fields: two winners with
      the same preimage agree on payee, height and voter outpoint. */
  lemma PreimageDeterminesIdentity(a: Winner, b: Winner, proto: Protocol)
    requires Fits(a) && Fits(b)
    requires HashPreimage(a, proto) == HashPreimage(b, proto)
    ensures SameIdentity(a, b, proto)
  {
    var legacy := proto.active < proto.minVinVersion;
    var outA := WriteOutPoint(a.vinMasternode.prevout);
    var outB := WriteOutPoint(b.vinMasternode.prevout);
    var tailA := WriteI32(a.nBlockHeight) + outA;
    var tailB := WriteI32(b.nBlockHeight) + outB;
    PreimageLayout(a, proto);
    PreimageLayout(b, proto);
    PayeeBytesPrefix(a, b, legacy, tailA, tailB);
    I32RoundTrip(a.nBlockHeight, outA);
    I32RoundTrip(b.nBlockHeight, outB);
    OutPointRoundTrip(a.vinMasternode.prevout, []);
    OutPointRoundTrip(b.vinMasternode.prevout, []);
    assert outA + [] == outB + [];
  }

  // ---------------------------------------------------------------------------
  // uint256 arithmetic on outpoints

  const TWO_256: int := 0x1_0000_0000_0000_0000_0000_0000_0000_0000_0000_0000_0000_0000_0000_0000_0000_0000

  type U256 = x: int | 0 <= x < TWO_256

  lemma HashBound(h: Hash)
    ensures FromLE(h) < TWO_256
  {
    assert Pow256(4) == 0x1_0000_0000;
    Pow256Add(4, 4);
    Pow256Add(8, 8);
    Pow256Add(16, 16);
  }

  /** A digest read as a uint256 number (its bytes are little-endian). */
  function HashRank(h: Hash): (r: int)
    ensures r == FromLE(h) && 0 <= r < TWO_256
  {
    HashBound(h);
    FromLE(h)
  }

  lemma HashRankInjective(keys: set<Hash>)
    ensures forall a, b :: a in keys && b in keys && HashRank(a) == HashRank(b) ==> a == b
  {
    forall a, b | a in keys && b in keys && HashRank(a) == HashRank(b) ensures a == b {
      FromLEInjective(a, b);
    }
  }

  /** The last-vote key of CanVote(outpoint, height): hash + n in uint256. */
  function OutPointKey(o: OutPoint): U256 {
    (HashRank(o.hash) + o.n) % TWO_256
  }

  /** The last-vote key of CanVote(winner): ((hash + n) << 4) + payee phase, all
      in uint256 arithmetic. */
  function PhaseVoteKey(o: OutPoint, phase: uint32): U256 {
    ((OutPointKey(o) * 16) % TWO_256 + phase) % TWO_256
  }
}
