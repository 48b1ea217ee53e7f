/** The canonical bytes of a registry state, whose hash is the registry root. */
module Serialization {
  import opened Wrappers
  import opened Bytes
  import opened Types
  import opened Sorting
  import opened Registry

  type ByteState = RegistryState<bytes>
  type ByteRecord = CuratorRecord<bytes>

  datatype DecodeError = Truncated | BadSchemaVersion | TrailingBytes

  /** Reads one item at an offset, and says where it ends. */
  type Decoder<T> = (bytes, nat) -> Result<(T, nat), DecodeError>

  const NO_REVOCATION: nat := 0xFFFF_FFFF_FFFF_FFFF

  // ---------- encoding ----------

  function EncodeVarint(n: nat): bytes {
    if n < 0xFD then [n]
    else if n <= 0xFFFF then [0xFD] + LE(n, 2)
    else if n <= 0xFFFF_FFFF then [0xFE] + LE(n, 4)
    else [0xFF] + LE(n, 8)
  }

  function EncodeString(s: bytes): bytes {
    EncodeVarint(|s|) + s
  }

  function OrZeros(o: Option<bytes>): bytes {
    match o
    case None => Zeros(32)
    case Some(b) => b
  }

  function EncodeRecord(r: ByteRecord): bytes {
    Join([LE(GOVERNANCE_SCHEMA_VERSION, 4), EncodeString(r.curatorId), EncodeFixedPart(r)])
  }

  /** The 144 bytes after the curator id. */
  function EncodeFixedPart(r: ByteRecord): bytes {
    Join([r.publicKey, LE(r.activation, 8), LE(RevocationValue(r), 8),
            OrZeros(r.previousKey), r.registrationTxid, OrZeros(r.latestRotationTxid)])
  }

  function RevocationValue(r: ByteRecord): nat {
    match r.revocation
    case None => NO_REVOCATION
    case Some(h) => h
  }

  function EncodeEach(rs: seq<ByteRecord>): (r: seq<bytes>)
    ensures |r| == |rs|
  {
    seq(|rs|, i requires 0 <= i < |rs| => EncodeRecord(rs[i]))
  }

  function Encode(s: ByteState): bytes {
    Whole(s.governanceVersion, s.networkId, s.governanceKeys, Tail(s.threshold, EncodeEach(Sort(s.records, IdLeq))))
  }

  function Whole(version: nat, networkId: bytes, keys: seq<bytes>, tail: bytes): bytes {
    Join([LE(version, 4), EncodeString(networkId), EncodeVarint(|keys|), Join(keys), tail])
  }

  function Tail(threshold: nat, pieces: seq<bytes>): bytes {
    Join([[threshold % 256], EncodeVarint(|pieces|), Join(pieces)])
  }

  /** Every number fits its field; elsewhere to_bytes raises OverflowError. */
  predicate RecordFits(r: ByteRecord) {
    && |r.curatorId| < Pow256(8)
    && r.activation < Pow256(8)
    && (r.revocation.Some? ==> r.revocation.value < Pow256(8))
  }

  predicate Fits(s: ByteState) {
    && s.governanceVersion < Pow256(4)
    && |s.networkId| < Pow256(8)
    && |s.governanceKeys| < Pow256(8)
    && s.threshold < 256
    && |s.records| < Pow256(8)
    && forall r :: r in s.records ==> RecordFits(r)
  }

  function Serialize(s: ByteState): Option<bytes> {
    if Fits(s) then Some(Encode(s)) else None
  }

  // ---------- decoding ----------

  function DecodeVarint(data: bytes, offset: nat): Result<(nat, nat), DecodeError> {
    if offset >= |data| then Err(Truncated)
    else if data[offset] < 0xFD then Ok((data[offset], offset + 1))
    else if data[offset] == 0xFD then Ok((FromLE(Slice(data, offset + 1, offset + 3)), offset + 3))
    else if data[offset] == 0xFE then Ok((FromLE(Slice(data, offset + 1, offset + 5)), offset + 5))
    else Ok((FromLE(Slice(data, offset + 1, offset + 9)), offset + 9))
  }

  function DecodeString(data: bytes, offset: nat): Result<(bytes, nat), DecodeError> {
    match DecodeVarint(data, offset)
    case Err(e) => Err(e)
    case Ok((length, at)) =>
      if at + length > |data| then Err(Truncated) else Ok((data[at..at + length], at + length))
  }

  function UnlessZeros(b: bytes): Option<bytes> {
    if b != Zeros(32) then Some(b) else None
  }

  function DecodeRecord(data: bytes, offset: nat): Result<(ByteRecord, nat), DecodeError> {
    if FromLE(Slice(data, offset, offset + 4)) != GOVERNANCE_SCHEMA_VERSION then Err(BadSchemaVersion)
    else
      match DecodeString(data, offset + 4)
      case Err(e) => Err(e)
      case Ok((id, at)) => Ok((DecodeFixedPart(id, data, at), at + 144))
  }

  function DecodeFixedPart(id: bytes, data: bytes, at: nat): ByteRecord {
    var revocation := FromLE(Slice(data, at + 40, at + 48));
    CuratorRecord(
      id,
      Slice(data, at, at + 32),
      FromLE(Slice(data, at + 32, at + 40)),
      if revocation == NO_REVOCATION then None else Some(revocation),
      UnlessZeros(Slice(data, at + 48, at + 80)),
      Slice(data, at + 80, at + 112),
      UnlessZeros(Slice(data, at + 112, at + 144)))
  }

  /** `count` items one after the other. */
  function DecodeMany<T>(data: bytes, offset: nat, count: nat, decode: Decoder<T>)
    : Result<(seq<T>, nat), DecodeError>
    decreases count
  {
    if count == 0 then Ok(([], offset))
    else
      match decode(data, offset)
      case Err(e) => Err(e)
      case Ok((item, at)) =>
        match DecodeMany(data, at, count - 1, decode)
        case Err(e) => Err(e)
        case Ok((rest, end)) => Ok(([item] + rest, end))
  }

  function SplitKeys(data: bytes, offset: nat, count: nat): seq<bytes>
    decreases count
  {
    if count == 0 then [] else [Slice(data, offset, offset + 32)] + SplitKeys(data, offset + 32, count - 1)
  }

  function Deserialize(data: bytes): Result<ByteState, DecodeError> {
    DeserializeWith(data, DecodeRecord)
  }

  function DeserializeWith(data: bytes, decode: Decoder<ByteRecord>): Result<ByteState, DecodeError> {
    if |data| < 4 then Err(Truncated)
    else
      var version := FromLE(Slice(data, 0, 4));
      if version != GOVERNANCE_SCHEMA_VERSION then Err(BadSchemaVersion)
      else
        match DecodeString(data, 4)
        case Err(e) => Err(e)
        case Ok((networkId, at)) =>
          match DecodeVarint(data, at)
          case Err(e) => Err(e)
          case Ok((keyCount, keysAt)) =>
            if keysAt + keyCount * 32 > |data| then Err(Truncated)
            else DecodeTail(version, networkId, SplitKeys(data, keysAt, keyCount), data, keysAt + keyCount * 32, decode)
  }

  function DecodeTail(version: nat, networkId: bytes, keys: seq<bytes>, data: bytes, at: nat,
                      decode: Decoder<ByteRecord>)
    : Result<ByteState, DecodeError>
  {
    if at >= |data| then Err(Truncated)
    else
      match DecodeVarint(data, at + 1)
      case Err(e) => Err(e)
      case Ok((recordCount, recordsAt)) =>
        match DecodeMany(data, recordsAt, recordCount, decode)
        case Err(e) => Err(e)
        case Ok((records, end)) =>
          if end != |data| then Err(TrailingBytes)
          else Ok(RegistryState(records, version, networkId, keys, data[at]))
  }

  // ---------- round trip ----------

  /** Keys and digests are 32 bytes, as the transaction parser demands. */
  predicate RecordSized(r: ByteRecord) {
    && |r.publicKey| == |r.registrationTxid| == 32
    && |OrZeros(r.previousKey)| == |OrZeros(r.latestRotationTxid)| == 32
  }

  predicate Sized(s: ByteState) {
    && (forall i :: 0 <= i < |s.governanceKeys| ==> |s.governanceKeys[i]| == 32)
    && (forall r :: r in s.records ==> RecordSized(r))
  }

  /** What the three in-band None markers do to a record. */
  function Normal(r: ByteRecord): ByteRecord {
    r.(revocation := if r.revocation == Some(NO_REVOCATION) then None else r.revocation,
       previousKey := UnlessZeros(OrZeros(r.previousKey)),
       latestRotationTxid := UnlessZeros(OrZeros(r.latestRotationTxid)))
  }

  function NormalAll(rs: seq<ByteRecord>): (r: seq<ByteRecord>)
    ensures |r| == |rs| && forall i :: 0 <= i < |rs| ==> r[i] == Normal(rs[i])
  {
    seq(|rs|, i requires 0 <= i < |rs| => Normal(rs[i]))
  }

  /** States the format can represent: schema 1, records in order, no value equal to a None marker. */
  ghost predicate Canonical(s: ByteState) {
    && s.governanceVersion == GOVERNANCE_SCHEMA_VERSION
    && SortedBy(s.records, IdLeq)
    && forall r :: r in s.records ==>
         && r.revocation != Some(NO_REVOCATION)
         && r.previousKey != Some(Zeros(32))
         && r.latestRotationTxid != Some(Zeros(32))
  }

  /** The piece of data that starts at an offset. */
  ghost predicate At(data: bytes, offset: nat, piece: bytes) {
    offset + |piece| <= |data| && forall i {:trigger piece[i]} :: 0 <= i < |piece| ==> data[offset + i] == piece[i]
  }

  lemma {:induction false} AtSlice(data: bytes, offset: nat, piece: bytes)
    requires At(data, offset, piece)
    ensures Slice(data, offset, offset + |piece|) == piece == data[offset..offset + |piece|]
  {
  }

  /** The first of several parts, and where the others start. */
  lemma {:induction false} Peel(data: bytes, offset: nat, parts: seq<bytes>)
    requires parts != [] && At(data, offset, Join(parts))
    ensures At(data, offset, parts[0]) && At(data, offset + |parts[0]|, Join(parts[1..]))
    ensures Slice(data, offset, offset + |parts[0]|) == parts[0]
    ensures |Join(parts)| == |parts[0]| + |Join(parts[1..])|
  {
    AtSplit(data, offset, parts[0], Join(parts[1..]));
  }

  lemma {:induction false} AtSplit(data: bytes, offset: nat, a: bytes, b: bytes)
    requires At(data, offset, a + b)
    ensures At(data, offset, a) && At(data, offset + |a|, b)
    ensures Slice(data, offset, offset + |a|) == a
  {
    forall i | 0 <= i < |a| ensures data[offset + i] == a[i] {
      assert (a + b)[i] == a[i];
    }
    forall i | 0 <= i < |b| ensures data[offset + |a| + i] == b[i] {
      assert (a + b)[|a| + i] == b[i];
    }
    AtSlice(data, offset, a);
  }

  lemma {:induction false} NumberComesBack(data: bytes, offset: nat, n: nat, width: nat)
    requires n < Pow256(width) && At(data, offset, LE(n, width))
    ensures FromLE(Slice(data, offset, offset + width)) == n
  {
    AtSlice(data, offset, LE(n, width));
    LittleEndianRoundTrip(n, width);
  }

  lemma {:induction false} NumberPeels(data: bytes, offset: nat, n: nat, width: nat, rest: seq<bytes>)
    requires n < Pow256(width) && At(data, offset, Join([LE(n, width)] + rest))
    ensures FromLE(Slice(data, offset, offset + width)) == n && At(data, offset + width, Join(rest))
    ensures |Join([LE(n, width)] + rest)| == width + |Join(rest)|
  {
    Peel(data, offset, [LE(n, width)] + rest);
    assert ([LE(n, width)] + rest)[1..] == rest;
    LittleEndianRoundTrip(n, width);
  }

  lemma {:induction false} VarintComesBack(data: bytes, offset: nat, n: nat)
    requires n < Pow256(8) && At(data, offset, EncodeVarint(n))
    ensures DecodeVarint(data, offset) == Ok((n, offset + |EncodeVarint(n)|))
  {
    Pow256Values();
    assert data[offset] == EncodeVarint(n)[0];
    if n >= 0xFD {
      var width := if n <= 0xFFFF then 2 else if n <= 0xFFFF_FFFF then 4 else 8;
      AtSplit(data, offset, [EncodeVarint(n)[0]], LE(n, width));
      AtSlice(data, offset + 1, LE(n, width));
      LittleEndianRoundTrip(n, width);
    }
  }

  lemma {:induction false} StringComesBack(data: bytes, offset: nat, s: bytes)
    requires |s| < Pow256(8) && At(data, offset, EncodeString(s))
    ensures DecodeString(data, offset) == Ok((s, offset + |EncodeString(s)|))
  {
    AtSplit(data, offset, EncodeVarint(|s|), s);
    VarintComesBack(data, offset, |s|);
    PrefixedComesBack(data, offset + |EncodeVarint(|s|)|, offset, s);
  }

  lemma {:induction false} PrefixedComesBack(data: bytes, at: nat, offset: nat, s: bytes)
    requires DecodeVarint(data, offset) == Ok((|s|, at)) && At(data, at, s)
    ensures DecodeString(data, offset) == Ok((s, at + |s|))
  {
    AtSlice(data, at, s);
  }

  lemma {:induction false} FixedPartComesBack(data: bytes, at: nat, r: ByteRecord)
    requires RecordFits(r) && RecordSized(r) && At(data, at, EncodeFixedPart(r))
    ensures |EncodeFixedPart(r)| == 144
    ensures DecodeFixedPart(r.curatorId, data, at) == Normal(r)
  {
    Pow256Values();
    var previous, latest := OrZeros(r.previousKey), OrZeros(r.latestRotationTxid);
    var p4 := [r.registrationTxid, latest];
    var p3 := [previous, r.registrationTxid, latest];
    var p2 := [LE(RevocationValue(r), 8)] + p3;
    var p1 := [LE(r.activation, 8)] + p2;
    var p0 := [r.publicKey, LE(r.activation, 8), LE(RevocationValue(r), 8), previous, r.registrationTxid, latest];
    assert p0[1..] == p1 && p3[1..] == p4 && p4[1..] == [latest];
    Peel(data, at, p0);
    NumberPeels(data, at + 32, r.activation, 8, p2);
    NumberPeels(data, at + 40, RevocationValue(r), 8, p3);
    Peel(data, at + 48, p3);
    Peel(data, at + 80, p4);
    Peel(data, at + 112, [latest]);
  }

  lemma {:induction false} RecordComesBack(data: bytes, offset: nat, r: ByteRecord)
    requires RecordFits(r) && RecordSized(r) && At(data, offset, EncodeRecord(r))
    ensures DecodeRecord(data, offset) == Ok((Normal(r), offset + |EncodeRecord(r)|))
  {
    Pow256Values();
    LittleEndianRoundTrip(GOVERNANCE_SCHEMA_VERSION, 4);
    RecordPartsComeBack(data, offset, r, LE(GOVERNANCE_SCHEMA_VERSION, 4), EncodeString(r.curatorId),
                        EncodeFixedPart(r));
  }

  lemma {:induction false} RecordPartsComeBack(data: bytes, offset: nat, r: ByteRecord, version: bytes, id: bytes,
                                               body: bytes)
    requires RecordFits(r) && RecordSized(r) && At(data, offset, Join([version, id, body]))
    requires |version| == 4 && FromLE(version) == GOVERNANCE_SCHEMA_VERSION
    requires id == EncodeString(r.curatorId) && body == EncodeFixedPart(r)
    ensures DecodeRecord(data, offset) == Ok((Normal(r), offset + |Join([version, id, body])|))
  {
    ThreeParts(data, offset, version, id, body);
    AtSlice(data, offset, version);
    StringComesBack(data, offset + 4, r.curatorId);
    FixedPartComesBack(data, offset + 4 + |id|, r);
    RecordFromParts(data, offset, r.curatorId, offset + 4 + |id|, Normal(r));
  }

  lemma {:induction false} RecordFromParts(data: bytes, offset: nat, id: bytes, at: nat, r: ByteRecord)
    requires FromLE(Slice(data, offset, offset + 4)) == GOVERNANCE_SCHEMA_VERSION
    requires DecodeString(data, offset + 4) == Ok((id, at)) && DecodeFixedPart(id, data, at) == r
    ensures DecodeRecord(data, offset) == Ok((r, at + 144))
  {
  }

  /** Each piece decodes to its value, wherever it lies. */
  ghost predicate Decodes<T(!new)>(data: bytes, pieces: seq<bytes>, values: seq<T>, decode: Decoder<T>) {
    && |pieces| == |values|
    && forall i, o: nat ::
         0 <= i < |pieces| && At(data, o, pieces[i]) ==> decode(data, o) == Ok((values[i], o + |pieces[i]|))
  }

  lemma {:induction false} RecordsDecode(data: bytes, rs: seq<ByteRecord>)
    requires forall r :: r in rs ==> RecordFits(r) && RecordSized(r)
    ensures Decodes(data, EncodeEach(rs), NormalAll(rs), DecodeRecord)
  {
    forall i, o: nat | 0 <= i < |rs| && At(data, o, EncodeEach(rs)[i])
      ensures DecodeRecord(data, o) == Ok((NormalAll(rs)[i], o + |EncodeEach(rs)[i]|))
    {
      RecordComesBack(data, o, rs[i]);
    }
  }

  /** Pieces that each decode on their own decode one after the other. */
  lemma {:induction false} EachComesBack<T(!new)>(data: bytes, offset: nat, pieces: seq<bytes>, values: seq<T>,
                                                  decode: Decoder<T>)
    requires Decodes(data, pieces, values, decode) && At(data, offset, Join(pieces))
    ensures DecodeMany(data, offset, |pieces|, decode) == Ok((values, offset + |Join(pieces)|))
    decreases |pieces|
  {
    if pieces != [] {
      Peel(data, offset, pieces);
      var middle := FirstDecodes(data, offset, pieces, values, decode);
      OthersDecode(data, pieces, values, decode);
      EachComesBack(data, middle, pieces[1..], values[1..], decode);
      FirstThenOthers(data, offset, values, middle, offset + |Join(pieces)|, decode);
    } else {
      assert values == [];
    }
  }

  lemma {:induction false} FirstDecodes<T(!new)>(data: bytes, offset: nat, pieces: seq<bytes>, values: seq<T>,
                                                 decode: Decoder<T>)
    returns (middle: nat)
    requires pieces != [] && Decodes(data, pieces, values, decode) && At(data, offset, pieces[0])
    ensures middle == offset + |pieces[0]| && decode(data, offset) == Ok((values[0], middle))
  {
    middle := offset + |pieces[0]|;
  }

  lemma {:induction false} FirstThenOthers<T>(data: bytes, offset: nat, values: seq<T>, middle: nat, end: nat,
                                              decode: Decoder<T>)
    requires values != [] && decode(data, offset) == Ok((values[0], middle))
    requires DecodeMany(data, middle, |values| - 1, decode) == Ok((values[1..], end))
    ensures DecodeMany(data, offset, |values|, decode) == Ok((values, end))
  {
    assert values == [values[0]] + values[1..];
  }

  lemma {:induction false} OthersDecode<T(!new)>(data: bytes, pieces: seq<bytes>, values: seq<T>, decode: Decoder<T>)
    requires pieces != [] && Decodes(data, pieces, values, decode)
    ensures Decodes(data, pieces[1..], values[1..], decode)
  {
    forall i, o: nat | 0 <= i < |pieces[1..]| && At(data, o, pieces[1..][i])
      ensures decode(data, o) == Ok((values[1..][i], o + |pieces[1..][i]|))
    {
      assert pieces[1..][i] == pieces[i + 1];
    }
  }

  lemma {:induction false} KeysComeBack(data: bytes, offset: nat, keys: seq<bytes>)
    requires (forall i :: 0 <= i < |keys| ==> |keys[i]| == 32) && At(data, offset, Join(keys))
    ensures |Join(keys)| == 32 * |keys|
    ensures SplitKeys(data, offset, |keys|) == keys
    decreases |keys|
  {
    if keys != [] {
      Peel(data, offset, keys);
      KeysComeBack(data, offset + 32, keys[1..]);
      assert keys == [keys[0]] + keys[1..];
    }
  }

  lemma {:induction false} TailComesBack(data: bytes, at: nat, s: ByteState, pieces: seq<bytes>,
                                         values: seq<ByteRecord>, decode: Decoder<ByteRecord>)
    requires s.threshold < 256 && |pieces| < Pow256(8) && Decodes(data, pieces, values, decode)
    requires At(data, at, Tail(s.threshold, pieces)) && at + |Tail(s.threshold, pieces)| == |data|
    ensures DecodeTail(s.governanceVersion, s.networkId, s.governanceKeys, data, at, decode)
            == Ok(s.(records := values))
  {
    ThreeParts(data, at, [s.threshold % 256], EncodeVarint(|pieces|), Join(pieces));
    assert data[at] == [s.threshold % 256][0];
    VarintComesBack(data, at + 1, |pieces|);
    var recordsAt := at + 1 + |EncodeVarint(|pieces|)|;
    EachComesBack(data, recordsAt, pieces, values, decode);
    assert DecodeVarint(data, at + 1) == Ok((|pieces|, recordsAt));
    assert DecodeMany(data, recordsAt, |pieces|, decode) == Ok((values, |data|));
  }

  lemma {:induction false} ThreeParts(data: bytes, at: nat, a: bytes, b: bytes, c: bytes)
    requires At(data, at, Join([a, b, c]))
    ensures At(data, at, a) && At(data, at + |a|, b) && At(data, at + |a| + |b|, c)
    ensures |Join([a, b, c])| == |a| + |b| + |c|
  {
    assert [a, b, c][1..] == [b, c] && [b, c][1..] == [c];
    Peel(data, at, [a, b, c]);
    Peel(data, at + |a|, [b, c]);
    Peel(data, at + |a| + |b|, [c]);
  }

  lemma {:induction false} FiveParts(data: bytes, version: bytes, id: bytes, count: bytes, all: bytes, tail: bytes)
    requires |version| == 4 && data == Join([version, id, count, all, tail])
    ensures |data| == 4 + |id| + |count| + |all| + |tail|
    ensures At(data, 0, version) && At(data, 4, id) && At(data, 4 + |id|, count)
    ensures At(data, 4 + |id| + |count|, all) && At(data, 4 + |id| + |count| + |all|, tail)
  {
    assert [version, id, count, all, tail][1..] == [id, count, all, tail];
    assert [id, count, all, tail][1..] == [count, all, tail];
    assert At(data, 0, data);
    Peel(data, 0, [version, id, count, all, tail]);
    Peel(data, 4, [id, count, all, tail]);
    ThreeParts(data, 4 + |id|, count, all, tail);
  }

  lemma {:induction false} StateComesBack(s: ByteState, pieces: seq<bytes>, values: seq<ByteRecord>,
                                          decode: Decoder<ByteRecord>, data: bytes)
    requires s.governanceVersion < Pow256(4) && |s.networkId| < Pow256(8) && |s.governanceKeys| < Pow256(8)
    requires forall i :: 0 <= i < |s.governanceKeys| ==> |s.governanceKeys[i]| == 32
    requires s.threshold < 256 && |pieces| < Pow256(8)
    requires data == Whole(s.governanceVersion, s.networkId, s.governanceKeys, Tail(s.threshold, pieces))
    requires Decodes(data, pieces, values, decode)
    ensures DeserializeWith(data, decode)
            == if s.governanceVersion != GOVERNANCE_SCHEMA_VERSION then Err(BadSchemaVersion)
               else Ok(s.(records := values))
  {
    var id, count, all, tail := EncodeString(s.networkId), EncodeVarint(|s.governanceKeys|), Join(s.governanceKeys),
      Tail(s.threshold, pieces);
    FiveParts(data, LE(s.governanceVersion, 4), id, count, all, tail);
    var keyCountAt, keysAt := 4 + |id|, 4 + |id| + |count|;
    HeadComesBack(data, s, keyCountAt, keysAt);
    TailComesBack(data, keysAt + |s.governanceKeys| * 32, s, pieces, values, decode);
    StateFromParts(s, data, keyCountAt, keysAt, values, decode);
  }

  lemma {:induction false} HeadComesBack(data: bytes, s: ByteState, keyCountAt: nat, keysAt: nat)
    requires s.governanceVersion < Pow256(4) && |s.networkId| < Pow256(8) && |s.governanceKeys| < Pow256(8)
    requires forall i :: 0 <= i < |s.governanceKeys| ==> |s.governanceKeys[i]| == 32
    requires At(data, 0, LE(s.governanceVersion, 4)) && At(data, 4, EncodeString(s.networkId))
    requires keyCountAt == 4 + |EncodeString(s.networkId)| && At(data, keyCountAt, EncodeVarint(|s.governanceKeys|))
    requires keysAt == keyCountAt + |EncodeVarint(|s.governanceKeys|)| && At(data, keysAt, Join(s.governanceKeys))
    ensures FromLE(Slice(data, 0, 4)) == s.governanceVersion
    ensures DecodeString(data, 4) == Ok((s.networkId, keyCountAt))
    ensures DecodeVarint(data, keyCountAt) == Ok((|s.governanceKeys|, keysAt))
    ensures SplitKeys(data, keysAt, |s.governanceKeys|) == s.governanceKeys
            && |Join(s.governanceKeys)| == 32 * |s.governanceKeys|
  {
    NumberComesBack(data, 0, s.governanceVersion, 4);
    StringComesBack(data, 4, s.networkId);
    VarintComesBack(data, keyCountAt, |s.governanceKeys|);
    KeysComeBack(data, keysAt, s.governanceKeys);
  }

  lemma {:induction false} StateFromParts(s: ByteState, data: bytes, keyCountAt: nat, keysAt: nat,
                                          values: seq<ByteRecord>, decode: Decoder<ByteRecord>)
    requires FromLE(Slice(data, 0, 4)) == s.governanceVersion && |data| >= 4
    requires DecodeString(data, 4) == Ok((s.networkId, keyCountAt))
    requires DecodeVarint(data, keyCountAt) == Ok((|s.governanceKeys|, keysAt))
    requires SplitKeys(data, keysAt, |s.governanceKeys|) == s.governanceKeys
             && keysAt + |s.governanceKeys| * 32 <= |data|
    requires DecodeTail(s.governanceVersion, s.networkId, s.governanceKeys, data, keysAt + |s.governanceKeys| * 32,
                        decode)
             == Ok(s.(records := values))
    ensures DeserializeWith(data, decode)
            == if s.governanceVersion != GOVERNANCE_SCHEMA_VERSION then Err(BadSchemaVersion)
               else Ok(s.(records := values))
  {
  }

  /** Decoding the canonical bytes gives the state back with its records sorted and its markers read as None. */
  lemma {:induction false} DecodedEncoding(s: ByteState)
    requires Fits(s) && Sized(s)
    ensures Deserialize(Encode(s))
            == if s.governanceVersion != GOVERNANCE_SCHEMA_VERSION then Err(BadSchemaVersion)
               else Ok(s.(records := NormalAll(Sort(s.records, IdLeq))))
  {
    var sorted := Sort(s.records, IdLeq);
    SortPermutes(s.records, IdLeq);
    forall r | r in sorted ensures RecordFits(r) && RecordSized(r) {
      assert r in multiset(sorted);
    }
    RecordsDecode(Encode(s), sorted);
    StateComesBack(s, EncodeEach(sorted), NormalAll(sorted), DecodeRecord, Encode(s));
  }

  /** The round trip restores the state exactly when the state is canonical. */
  lemma {:induction false} RoundTripIffCanonical(s: ByteState)
    requires Fits(s) && Sized(s)
    ensures Deserialize(Encode(s)) == Ok(s) <==> Canonical(s)
  {
    DecodedEncoding(s);
    RecordsSurviveIffCanonical(s.records);
  }

  lemma {:induction false} RecordsSurviveIffCanonical(rs: seq<ByteRecord>)
    ensures NormalAll(Sort(rs, IdLeq)) == rs <==> SortedBy(rs, IdLeq) && forall r :: r in rs ==> Normal(r) == r
  {
    var sorted := Sort(rs, IdLeq);
    if SortedBy(rs, IdLeq) {
      SortedIsFixed(rs, IdLeq);
    }
    if NormalAll(sorted) == rs {
      ByteIdLeqIsTotal();
      SortSorts(rs, IdLeq);
      forall i, j | 0 <= i < j < |rs| ensures IdLeq(rs[i], rs[j]) {
        assert IdLeq(sorted[i], sorted[j]) && rs[i] == Normal(sorted[i]) && rs[j] == Normal(sorted[j]);
      }
      SortedIsFixed(rs, IdLeq);
    }
  }

  lemma {:induction false} ByteIdLeqIsTotal()
    ensures TotalPreorder<ByteRecord>(IdLeq)
  {
    forall a: ByteRecord, b: ByteRecord ensures IdLeq(a, b) || IdLeq(b, a) {
      LexTotal(a.curatorId, b.curatorId);
    }
    forall a: ByteRecord, b: ByteRecord, c: ByteRecord | IdLeq(a, b) && IdLeq(b, c) ensures IdLeq(a, c) {
      LexTransitive(a.curatorId, b.curatorId, c.curatorId);
    }
  }

  // ---------- the states the reducer reaches ----------

  /** A registry state with its hash terms written as digests. */
  function Concrete(s: State, digest: Hash -> bytes): ByteState {
    RegistryState(ConcreteRecords(s.records, digest), s.governanceVersion, s.networkId, s.governanceKeys, s.threshold)
  }

  function ConcreteRecords(rs: seq<Record>, digest: Hash -> bytes): (r: seq<ByteRecord>)
    ensures |r| == |rs| && forall i :: 0 <= i < |rs| ==> r[i] == ConcreteRecord(rs[i], digest)
  {
    seq(|rs|, i requires 0 <= i < |rs| => ConcreteRecord(rs[i], digest))
  }

  function ConcreteRecord(r: Record, digest: Hash -> bytes): ByteRecord {
    CuratorRecord(r.curatorId, r.publicKey, r.activation, r.revocation, r.previousKey, digest(r.registrationTxid),
                  match r.latestRotationTxid case None => None case Some(t) => Some(digest(t)))
  }

  predicate IsDigest(b: bytes) {
    |b| == 32 && b != Zeros(32)
  }

  /** Heights below 2^64 - 1, 32-byte keys, and no previous key or transaction id of 32 zeros. */
  predicate Representable(s: State, digest: Hash -> bytes) {
    && |s.networkId| < Pow256(8) && |s.governanceKeys| < Pow256(8) && s.threshold < 256 && |s.records| < Pow256(8)
    && (forall i :: 0 <= i < |s.governanceKeys| ==> |s.governanceKeys[i]| == 32)
    && forall r :: r in s.records ==> RepresentableRecord(r, digest)
  }

  predicate RepresentableRecord(r: Record, digest: Hash -> bytes) {
    && |r.curatorId| < Pow256(8) && |r.publicKey| == 32
    && r.activation < NO_REVOCATION
    && (r.revocation.Some? ==> r.revocation.value < NO_REVOCATION)
    && (r.previousKey.Some? ==> IsDigest(r.previousKey.value))
    && IsDigest(digest(r.registrationTxid))
    && (r.latestRotationTxid.Some? ==> IsDigest(digest(r.latestRotationTxid.value)))
  }

  /** On every representable state the reducer reaches, decoding undoes encoding. */
  lemma {:induction false} ReachableStatesRoundTrip(s: State, digest: Hash -> bytes)
    requires WellFormed(s) && Representable(s, digest)
    ensures Serialize(Concrete(s, digest)).Some?
    ensures Deserialize(Serialize(Concrete(s, digest)).value) == Ok(Concrete(s, digest))
  {
    var c := Concrete(s, digest);
    Pow256Values();
    forall r | r in c.records
      ensures RecordFits(r) && RecordSized(r) && r.revocation != Some(NO_REVOCATION)
      ensures r.previousKey != Some(Zeros(32)) && r.latestRotationTxid != Some(Zeros(32))
    {
      var i :| 0 <= i < |c.records| && c.records[i] == r;
      assert s.records[i] in s.records && r == ConcreteRecord(s.records[i], digest);
    }
    forall i, j | 0 <= i < j < |c.records| ensures IdLeq(c.records[i], c.records[j]) {
      assert IdLeq(s.records[i], s.records[j]);
    }
    RoundTripIffCanonical(c);
  }

  ghost function DigestedIn(s: State): set<Hash> {
    (set r | r in s.records :: r.registrationTxid)
    + (set r | r in s.records && r.latestRotationTxid.Some? :: r.latestRotationTxid.value)
  }

  /** Equal registry roots mean equal states, as long as none of the hashes involved collide. */
  lemma {:induction false} EqualRootsEqualStates(s: State, t: State, digest: Hash -> bytes, sha: Digest32)
    requires WellFormed(s) && WellFormed(t) && Representable(s, digest) && Representable(t, digest)
    requires forall g, h ::
               g in DigestedIn(s) + DigestedIn(t) && h in DigestedIn(s) + DigestedIn(t) && digest(g) == digest(h)
               ==> g == h
    requires var a, b := Encode(Concrete(s, digest)), Encode(Concrete(t, digest)); sha(a) == sha(b) ==> a == b
    ensures sha(Encode(Concrete(s, digest))) == sha(Encode(Concrete(t, digest))) <==> s == t
  {
    var a, b := Encode(Concrete(s, digest)), Encode(Concrete(t, digest));
    if sha(a) == sha(b) {
      EncodingIsInjective(s, t, digest);
      ConcreteIsInjective(s, t, digest);
    }
  }

  lemma {:induction false} EncodingIsInjective(s: State, t: State, digest: Hash -> bytes)
    requires WellFormed(s) && WellFormed(t) && Representable(s, digest) && Representable(t, digest)
    requires Encode(Concrete(s, digest)) == Encode(Concrete(t, digest))
    ensures Concrete(s, digest) == Concrete(t, digest)
  {
    ReachableStatesRoundTrip(s, digest);
    ReachableStatesRoundTrip(t, digest);
  }

  lemma {:induction false} ConcreteIsInjective(s: State, t: State, digest: Hash -> bytes)
    requires forall g, h ::
               g in DigestedIn(s) + DigestedIn(t) && h in DigestedIn(s) + DigestedIn(t) && digest(g) == digest(h)
               ==> g == h
    requires Concrete(s, digest) == Concrete(t, digest)
    ensures s == t
  {
    var cs, ct := ConcreteRecords(s.records, digest), ConcreteRecords(t.records, digest);
    assert |s.records| == |cs| == |ct| == |t.records|;
    forall i | 0 <= i < |s.records| ensures s.records[i] == t.records[i] {
      assert ConcreteRecord(s.records[i], digest) == cs[i] == ct[i] == ConcreteRecord(t.records[i], digest);
      RecordIsInjective(s, t, s.records[i], t.records[i], digest);
    }
  }

  lemma {:induction false} RecordIsInjective(s: State, t: State, a: Record, b: Record, digest: Hash -> bytes)
    requires forall g, h ::
               g in DigestedIn(s) + DigestedIn(t) && h in DigestedIn(s) + DigestedIn(t) && digest(g) == digest(h)
               ==> g == h
    requires a in s.records && b in t.records && ConcreteRecord(a, digest) == ConcreteRecord(b, digest)
    ensures a == b
  {
    assert a.registrationTxid in DigestedIn(s) && b.registrationTxid in DigestedIn(t);
    if a.latestRotationTxid.Some? {
      assert a.latestRotationTxid.value in DigestedIn(s) && b.latestRotationTxid.value in DigestedIn(t);
    }
  }
}
