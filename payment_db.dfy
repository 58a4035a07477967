/** The ledger's cache file, mnpayments.dat (CMasternodePaymentDB): the magic
    message, the network's magic bytes, the serialised votes and tallies, and a
    checksum of all of that. Reading checks each layer in turn and reports the
    first that fails with its own result code. The file is a byte sequence; it
    is absent when it cannot be opened. */
module PaymentDb {
  import opened Common
  import opened Serialize
  import opened PaymentWinner
  import opened BlockPayees
  import opened MasternodePayments

  /** strMagicMessage, "MasternodePayments", as ASCII bytes. */
  const MAGIC_MESSAGE: Bytes := [77, 97, 115, 116, 101, 114, 110, 111, 100, 101, 80, 97, 121, 109, 101, 110, 116, 115]

  /** sizeof(uint256): the checksum closing the file. */
  const CHECKSUM_SIZE: nat := 32

  /** Params().MessageStart(): four bytes that differ between networks. */
  type MessageStart = b: Bytes | |b| == 4 witness [0, 0, 0, 0]

  /** CMasternodePaymentDB::ReadResult */
  datatype ReadResult =
    | Ok | FileError | HashReadError | IncorrectHash
    | IncorrectMagicMessage | IncorrectMagicNumber | IncorrectFormat

  /** What the file is written and read with: the stream version
      (CLIENT_VERSION), the protocol (whose digest is the checksum) and the
      network's magic bytes. */
  datatype DbParams = DbParams(version: int, proto: Protocol, messageStart: MessageStart)

  /** The part of the ledger the file holds (CMasternodePayments'
      SerializationOp): the votes and the tallies. */
  datatype Saved = Saved(votes: map<Hash, Winner>, tallies: map<int32, BlockPayeesData>)

  // ---------------------------------------------------------------------------
  // The body: two std::maps

  /** A uint256 key is its 32 raw bytes. */
  function HashBytes(h: Hash): Bytes {
    h
  }

  /** std::map<int, ...> orders its keys as numbers. */
  function HeightRank(h: int32): int {
    h as int
  }

  function WinnerWriter(db: DbParams): Winner -> Bytes {
    w => WriteWinner(w, db.version, db.proto)
  }

  function WinnerReader(db: DbParams): Bytes -> Option<Decoded<Winner>> {
    s => ReadWinner(s, db.version, db.proto)
  }

  /** How a vote reads back at the file's version. */
  function WinnerOnDisk(db: DbParams): Winner -> Winner {
    w => OnWire(w, db.version, db.proto)
  }

  /** A tally reads back as itself. */
  function SameTally(d: BlockPayeesData): BlockPayeesData {
    d
  }

  function WriteVotes(votes: map<Hash, Winner>, db: DbParams): Bytes {
    HashRankInjective(votes.Keys);
    WriteMap(votes, HashRank, HashBytes, WinnerWriter(db))
  }

  function WriteTallies(tallies: map<int32, BlockPayeesData>): Bytes {
    WriteMap(tallies, HeightRank, WriteI32, WriteBlockPayees)
  }

  /** READWRITE(mapMasternodePayeeVotes); READWRITE(mapMasternodeBlocks) */
  function WriteSaved(s: Saved, db: DbParams): Bytes {
    WriteVotes(s.votes, db) + WriteTallies(s.tallies)
  }

  function ReadSaved(s: Bytes, db: DbParams): Option<Decoded<Saved>> {
    match ReadMap(s, ReadHash, WinnerReader(db))
    case None => None
    case Some(Decoded(votes, t)) =>
      match ReadMap(t, ReadI32, ReadBlockPayees)
      case None => None
      case Some(Decoded(tallies, u)) => Some(Decoded(Saved(votes, tallies), u))
  }

  /** Every length in the saved state fits its compact-size prefix. */
  predicate SavedFits(s: Saved) {
    |s.votes| <= MAX_SIZE && |s.tallies| <= MAX_SIZE
    && (forall k :: k in s.votes ==> Fits(s.votes[k]))
    && (forall h :: h in s.tallies ==> BlockPayeesFit(s.tallies[h]))
  }

  /** The saved state as it reads back: each vote keeps only the payee form
      the file's version carries. */
  function OnDisk(s: Saved, db: DbParams): (r: Saved)
    ensures r.votes.Keys == s.votes.Keys && r.tallies == s.tallies
    ensures forall k :: k in s.votes ==> r.votes[k] == OnWire(s.votes[k], db.version, db.proto)
  {
    Saved(MapValues(s.votes, WinnerOnDisk(db)), s.tallies)
  }

  lemma HashKeyInverse()
    ensures KeyInverse(HashBytes, ReadHash)
  {
    forall h: Hash, rest: Bytes
      ensures ReadHash(HashBytes(h) + rest) == Some(Decoded(h, rest))
    {
      HashRoundTrip(h, rest);
    }
  }

  lemma HeightKeyInverse()
    ensures KeyInverse(WriteI32, ReadI32)
  {
    forall h: int32, rest: Bytes
      ensures ReadI32(WriteI32(h) + rest) == Some(Decoded(h, rest))
    {
      I32RoundTrip(h, rest);
    }
  }

  lemma WinnerInverse(db: DbParams)
    ensures Inverse(WinnerWriter(db), WinnerReader(db), Fits, WinnerOnDisk(db))
  {
    forall w: Winner, rest: Bytes | Fits(w)
      ensures WinnerReader(db)(WinnerWriter(db)(w) + rest) == Some(Decoded(WinnerOnDisk(db)(w), rest))
    {
      WinnerRoundTrip(w, db.version, db.proto, rest);
    }
  }

  lemma TallyInverse()
    ensures Inverse(WriteBlockPayees, ReadBlockPayees, BlockPayeesFit, SameTally)
  {
    forall d: BlockPayeesData, rest: Bytes | BlockPayeesFit(d)
      ensures ReadBlockPayees(WriteBlockPayees(d) + rest) == Some(Decoded(SameTally(d), rest))
    {
      BlockPayeesRoundTrip(d, rest);
    }
  }

  lemma VotesRoundTrip(votes: map<Hash, Winner>, db: DbParams, rest: Bytes)
    requires |votes| <= MAX_SIZE && forall k :: k in votes ==> Fits(votes[k])
    ensures ReadMap(WriteVotes(votes, db) + rest, ReadHash, WinnerReader(db))
         == Some(Decoded(MapValues(votes, WinnerOnDisk(db)), rest))
  {
    HashRankInjective(votes.Keys);
    HashKeyInverse();
    WinnerInverse(db);
    MapRoundTrip(votes, rest, HashRank, HashBytes, ReadHash, WinnerWriter(db), WinnerReader(db),
                 Fits, WinnerOnDisk(db));
  }

  lemma TalliesRoundTrip(tallies: map<int32, BlockPayeesData>, rest: Bytes)
    requires |tallies| <= MAX_SIZE && forall h :: h in tallies ==> BlockPayeesFit(tallies[h])
    ensures ReadMap(WriteTallies(tallies) + rest, ReadI32, ReadBlockPayees) == Some(Decoded(tallies, rest))
  {
    HeightKeyInverse();
    TallyInverse();
    MapRoundTrip(tallies, rest, HeightRank, WriteI32, ReadI32, WriteBlockPayees, ReadBlockPayees,
                 BlockPayeesFit, SameTally);
    assert MapValues(tallies, SameTally) == tallies;
  }

  /** The serialised votes and tallies read back as the votes at the file's
      version and the same tallies. */
  lemma SavedRoundTrip(s: Saved, db: DbParams, rest: Bytes)
    requires SavedFits(s)
    ensures ReadSaved(WriteSaved(s, db) + rest, db) == Some(Decoded(OnDisk(s, db), rest))
  {
    var tail := WriteTallies(s.tallies) + rest;
    SavedLayout(s, db, rest);
    VotesRoundTrip(s.votes, db, tail);
    TalliesRoundTrip(s.tallies, rest);
  }

  lemma SavedLayout(s: Saved, db: DbParams, rest: Bytes)
    ensures WriteSaved(s, db) + rest == WriteVotes(s.votes, db) + (WriteTallies(s.tallies) + rest)
  {
  }

  // ---------------------------------------------------------------------------
  // The frame

  /** A file in the cache's layout: the message as a string, the network's
      magic bytes, the body, then the digest of everything before it. */
  function Frame(message: Bytes, net: MessageStart, body: Bytes, hash: Bytes -> Hash): (file: Bytes)
    ensures |file| >= CHECKSUM_SIZE
  {
    var data := WriteBytes(message) + net + body;
    data + hash(data)
  }

  /** CMasternodePaymentDB::Write: the saved part of the ledger, framed. */
  function WriteFile(l: Ledger, db: DbParams): Bytes {
    Frame(MAGIC_MESSAGE, db.messageStart, WriteSaved(Saved(l.votes, l.tallies), db), db.proto.hash)
  }

  /** What Read does with the checksummed data: the magic message, the magic
      bytes, then the body. A read that runs off the data is IncorrectFormat;
      bytes after the body are ignored. */
  function ParseData(data: Bytes, db: DbParams): (r: (ReadResult, Option<Saved>))
    ensures r.1.Some? <==> r.0 == Ok
    ensures r.0 in {Ok, IncorrectMagicMessage, IncorrectMagicNumber, IncorrectFormat}
  {
    match ReadBytes(data)
    case None => (IncorrectFormat, None)
    case Some(Decoded(message, t)) =>
      if message != MAGIC_MESSAGE then (IncorrectMagicMessage, None)
      else if |t| < 4 then (IncorrectFormat, None)
      else if t[..4] != db.messageStart then (IncorrectMagicNumber, None)
      else match ReadSaved(t[4..], db)
        case None => (IncorrectFormat, None)
        case Some(Decoded(saved, _)) => (Ok, Some(saved))
  }

  /** CleanPaymentList on the ledger's values: with a tip, the stale votes go
      and so do the tallies at their heights. */
  function Cleaned(l: Ledger, tip: Option<int32>, registrySize: nat): (r: Ledger)
    ensures r.lastVote == l.lastVote
    ensures tip.None? ==> r == l
    ensures tip.Some? ==> r.votes == KeptVotes(l.votes, tip.value, CleanLimit(registrySize))
    ensures tip.Some? ==> forall h :: h in r.tallies <==>
              h in l.tallies && h !in StaleHeights(l.votes, l.votes.Keys, tip.value, CleanLimit(registrySize))
    ensures forall h :: h in r.tallies ==> r.tallies[h] == l.tallies[h]
  {
    if tip.None? then l
    else
      var limit := CleanLimit(registrySize);
      var stale := StaleHeights(l.votes, l.votes.Keys, tip.value, limit);
      l.(votes := KeptVotes(l.votes, tip.value, limit),
         tallies := map h | h in l.tallies && h !in stale :: l.tallies[h])
  }

  /** The ledger with the file's contents loaded; a real (not dry) run then
      cleans it at the current tip. */
  function Loaded(start: Ledger, saved: Saved, dryRun: bool, tip: Option<int32>, registrySize: nat): Ledger {
    var l := start.(votes := saved.votes, tallies := saved.tallies);
    if dryRun then l else Cleaned(l, tip, registrySize)
  }

  /** CMasternodePaymentDB::Read into a ledger `start`: the result code and the
      ledger afterwards. Only Ok loads anything; IncorrectFormat clears the
      votes and tallies; every other failure leaves the ledger as it was. */
  function ReadFile(file: Option<Bytes>, db: DbParams, start: Ledger, dryRun: bool, tip: Option<int32>,
                    registrySize: nat): (r: (ReadResult, Ledger))
    ensures r.0 == FileError <==> file.None?
    ensures r.0 == HashReadError <==> file.Some? && |file.value| < CHECKSUM_SIZE
    ensures r.0 != Ok && r.0 != IncorrectFormat ==> r.1 == start
    ensures r.0 == IncorrectFormat ==> r.1 == start.(votes := map[], tallies := map[])
    ensures r.1.lastVote == start.lastVote
  {
    if file.None? then (FileError, start)
    else if |file.value| < CHECKSUM_SIZE then (HashReadError, start)
    else
      var split := |file.value| - CHECKSUM_SIZE;
      var data := file.value[..split];
      if db.proto.hash(data) != file.value[split..] then (IncorrectHash, start)
      else
        var (code, saved) := ParseData(data, db);
        if code == Ok then (Ok, Loaded(start, saved.value, dryRun, tip, registrySize))
        else if code == IncorrectFormat then (IncorrectFormat, start.(votes := map[], tallies := map[]))
        else (code, start)
  }

  /** A frame's checksum covers exactly the bytes before it. */
  lemma FrameSplit(message: Bytes, net: MessageStart, body: Bytes, hash: Bytes -> Hash)
    ensures var file := Frame(message, net, body, hash);
            var data := WriteBytes(message) + net + body;
            file[..|file| - CHECKSUM_SIZE] == data && file[|file| - CHECKSUM_SIZE..] == hash(data)
  {
  }

  /** The data of a frame with a representable message reads as that message
      followed by the magic bytes and the body. */
  lemma FrameMessage(message: Bytes, net: MessageStart, body: Bytes)
    requires |message| <= MAX_SIZE
    ensures var t := net + body;
            ReadBytes(WriteBytes(message) + net + body) == Some(Decoded(message, t))
            && t[..4] == net && t[4..] == body
  {
    assert WriteBytes(message) + net + body == WriteBytes(message) + (net + body);
    BytesRoundTrip(message, net + body);
  }

  /** A file Write produced reads back as Ok, with the votes at the file's
      version and the same tallies, cleaned unless the read is a dry run; the
      last-vote slots are the reader's own. */
  lemma WriteThenRead(l: Ledger, db: DbParams, start: Ledger, dryRun: bool, tip: Option<int32>, registrySize: nat)
    requires SavedFits(Saved(l.votes, l.tallies))
    ensures ReadFile(Some(WriteFile(l, db)), db, start, dryRun, tip, registrySize)
         == (Ok, Loaded(start, OnDisk(Saved(l.votes, l.tallies), db), dryRun, tip, registrySize))
  {
    var saved := Saved(l.votes, l.tallies);
    var body := WriteSaved(saved, db);
    FrameSplit(MAGIC_MESSAGE, db.messageStart, body, db.proto.hash);
    FrameMessage(MAGIC_MESSAGE, db.messageStart, body);
    SavedRoundTrip(saved, db, []);
    assert body + [] == body;
  }

  /** A file whose checksum does not match its data is refused as
      IncorrectHash, whatever the data holds, and loads nothing. */
  lemma TamperedRefused(data: Bytes, stored: Hash, db: DbParams, start: Ledger, dryRun: bool,
                        tip: Option<int32>, registrySize: nat)
    requires db.proto.hash(data) != stored
    ensures ReadFile(Some(data + stored), db, start, dryRun, tip, registrySize) == (IncorrectHash, start)
  {
    var file := data + stored;
    assert file[..|file| - CHECKSUM_SIZE] == data && file[|file| - CHECKSUM_SIZE..] == stored;
  }

  /** A well-checksummed file with another magic message (another cache's
      file) is refused as IncorrectMagicMessage before the network is looked
      at, and loads nothing. */
  lemma ForeignMessageRefused(message: Bytes, net: MessageStart, body: Bytes, db: DbParams, start: Ledger,
                              dryRun: bool, tip: Option<int32>, registrySize: nat)
    requires |message| <= MAX_SIZE && message != MAGIC_MESSAGE
    ensures ReadFile(Some(Frame(message, net, body, db.proto.hash)), db, start, dryRun, tip, registrySize)
         == (IncorrectMagicMessage, start)
  {
    FrameSplit(message, net, body, db.proto.hash);
    FrameMessage(message, net, body);
  }

  /** A file written on another network is refused as IncorrectMagicNumber
      before its body is decoded, and loads nothing. */
  lemma ForeignNetworkRefused(net: MessageStart, body: Bytes, db: DbParams, start: Ledger, dryRun: bool,
                              tip: Option<int32>, registrySize: nat)
    requires net != db.messageStart
    ensures ReadFile(Some(Frame(MAGIC_MESSAGE, net, body, db.proto.hash)), db, start, dryRun, tip, registrySize)
         == (IncorrectMagicNumber, start)
  {
    FrameSplit(MAGIC_MESSAGE, net, body, db.proto.hash);
    FrameMessage(MAGIC_MESSAGE, net, body);
  }

  /** A file with the right header whose body does not decode is
      IncorrectFormat, and the reader's votes and tallies are cleared. */
  lemma UndecodableBodyClears(body: Bytes, db: DbParams, start: Ledger, dryRun: bool, tip: Option<int32>,
                              registrySize: nat)
    requires ReadSaved(body, db).None?
    ensures ReadFile(Some(Frame(MAGIC_MESSAGE, db.messageStart, body, db.proto.hash)), db, start, dryRun, tip,
                     registrySize)
         == (IncorrectFormat, start.(votes := map[], tallies := map[]))
  {
    FrameSplit(MAGIC_MESSAGE, db.messageStart, body, db.proto.hash);
    FrameMessage(MAGIC_MESSAGE, db.messageStart, body);
  }

  // ---------------------------------------------------------------------------
  // DumpMasternodePayments

  /** The empty ledger the dump verifies the old file into. */
  const FRESH: Ledger := Ledger(map[], map[], map[])

  /** The dump overwrites the file unless the dry-run read found a file it
      cannot make sense of. */
  predicate MayOverwrite(code: ReadResult) {
    code == Ok || code == FileError || code == IncorrectFormat
  }

  /** DumpMasternodePayments: the bytes written over the existing file, or None
      when it is kept. */
  function Dump(existing: Option<Bytes>, current: Ledger, db: DbParams): (written: Option<Bytes>)
    ensures written.Some? <==> MayOverwrite(ReadFile(existing, db, FRESH, true, None, 0).0)
    ensures written.Some? ==> written.value == WriteFile(current, db)
  {
    var (code, _) := ReadFile(existing, db, FRESH, true, None, 0);
    if MayOverwrite(code) then Some(WriteFile(current, db)) else None
  }

  /** The dry run's verdict depends on the file alone, not on the ledger read
      into or on the tip. */
  lemma VerdictIndependentOfReader(file: Option<Bytes>, db: DbParams, a: Ledger, b: Ledger,
                                   tipA: Option<int32>, tipB: Option<int32>, sizeA: nat, sizeB: nat)
    ensures ReadFile(file, db, a, true, tipA, sizeA).0 == ReadFile(file, db, b, false, tipB, sizeB).0
  {
  }

  /** A cache this node wrote is replaced by the current ledger, and a missing
      one is created. */
  lemma DumpReplacesOwnFile(previous: Ledger, current: Ledger, db: DbParams)
    requires SavedFits(Saved(previous.votes, previous.tallies))
    ensures Dump(Some(WriteFile(previous, db)), current, db) == Some(WriteFile(current, db))
    ensures Dump(None, current, db) == Some(WriteFile(current, db))
  {
    WriteThenRead(previous, db, FRESH, true, None, 0);
  }

  /** Another cache's file, and a file from another network, are left alone. */
  lemma DumpKeepsForeignFile(message: Bytes, net: MessageStart, body: Bytes, current: Ledger, db: DbParams)
    requires |message| <= MAX_SIZE
    requires message != MAGIC_MESSAGE || net != db.messageStart
    ensures Dump(Some(Frame(message, net, body, db.proto.hash)), current, db) == None
  {
    if message != MAGIC_MESSAGE {
      ForeignMessageRefused(message, net, body, db, FRESH, true, None, 0);
    } else {
      ForeignNetworkRefused(net, body, db, FRESH, true, None, 0);
    }
  }

  /** Whatever the dump writes loads back as the current ledger's votes at
      the file's version and its tallies. */
  lemma DumpThenRead(existing: Option<Bytes>, current: Ledger, db: DbParams, start: Ledger, dryRun: bool,
                     tip: Option<int32>, registrySize: nat)
    requires SavedFits(Saved(current.votes, current.tallies))
    requires Dump(existing, current, db).Some?
    ensures ReadFile(Dump(existing, current, db), db, start, dryRun, tip, registrySize)
         == (Ok, Loaded(start, OnDisk(Saved(current.votes, current.tallies), db), dryRun, tip, registrySize))
  {
    WriteThenRead(current, db, start, dryRun, tip, registrySize);
  }
}
