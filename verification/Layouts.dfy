/** Where every byte goes: envelopes, journal records, block records, the HEAD line and registry states. */
module Layouts {
  import opened Wrappers
  import opened Bytes
  import opened Types
  import opened Envelope
  import Framing
  import Formats
  import JournalFile
  import Serialization
  import Sorting
  import Registry

  // ---------- envelopes ----------

  /** An envelope on the wire: 70 bytes in front of the payload, lengths big-endian, the hash over the payload. */
  predicate IsEnvelope(d: bytes, sha: Digest32) {
    && 70 <= |d| <= 2_000_070
    && d[0] == 0x43 && d[1] == 0x42 && d[2] == 0x4E && d[3] == 0x31
    && d[4] == 0 && d[5] == 1 && d[6] == 25
    && d[7..32] == Ascii("chainbreaker-scripture-v2")
    && 1 <= d[32] <= 13 && d[33] < 4
    && Big(d[34], d[35], d[36], d[37]) == |d| - 70
    && d[38..70] == sha(d[70..])
  }

  function Ascii(s: string): (r: bytes)
    requires forall i :: 0 <= i < |s| ==> s[i] as int < 128
    ensures |r| == |s|
  {
    seq(|s|, i requires 0 <= i < |s| => s[i] as int)
  }

  /** Four bytes as a number, the first one the highest. */
  function Big(a: int, b: int, c: int, d: int): int {
    16777216 * a + 65536 * b + 256 * c + d
  }

  /** The n bytes from position i on as a number, the first one the lowest. */
  function Little(d: bytes, i: nat, n: nat): nat
    requires i + n <= |d|
    decreases n
  {
    if n == 0 then 0 else d[i] as int + 256 * Little(d, i + 1, n - 1)
  }

  lemma {:induction false} ReadsBig(d: bytes, i: nat)
    requires i + 4 <= |d|
    ensures FromBE(d[i..i + 2]) == Big(0, 0, d[i], d[i + 1])
    ensures FromBE(d[i..i + 4]) == Big(d[i], d[i + 1], d[i + 2], d[i + 3])
  {
    OneByteMore(d, i, 0);
    OneByteMore(d, i, 1);
    OneByteMore(d, i, 2);
    OneByteMore(d, i, 3);
  }

  lemma {:induction false} OneByteMore(d: bytes, i: nat, n: nat)
    requires i + n + 1 <= |d|
    ensures FromBE(d[i..i + n + 1]) == 256 * FromBE(d[i..i + n]) + d[i + n] as int
  {
    var b := d[i..i + n + 1];
    assert b[..n] == d[i..i + n];
  }

  /** Little-endian numbers, byte for byte. */
  lemma {:induction false} ReadsLittle(d: bytes, i: nat, n: nat)
    requires i + n <= |d|
    ensures FromLE(d[i..i + n]) == Little(d, i, n)
    decreases n
  {
    if n > 0 {
      assert d[i..i + n][1..] == d[i + 1..i + n];
      ReadsLittle(d, i + 1, n - 1);
    }
  }

  lemma {:induction false} NetworkName()
    ensures NETWORK_ID == Ascii("chainbreaker-scripture-v2")
  {
  }

  /** Parsing takes exactly these bytes, and reads type, flags and payload off their places. */
  lemma {:induction false} EnvelopeExactlyWhen(d: bytes, sha: Digest32)
    ensures Parse(d, sha).Ok? <==> IsEnvelope(d, sha)
    ensures IsEnvelope(d, sha) ==> Parse(d, sha) == Ok(NetworkEnvelope(d[32], d[33], d[70..]))
  {
    NetworkName();
    if |d| >= 70 {
      ReadsBig(d, 4);
      ReadsBig(d, 34);
      assert d[..4] == MAGIC <==> d[0] == 0x43 && d[1] == 0x42 && d[2] == 0x4E && d[3] == 0x31 by {
        assert d[..4] == [d[0], d[1], d[2], d[3]];
      }
      if d[6] != 25 && 7 + d[6] <= |d| {
        assert |d[7..7 + d[6]]| != |NETWORK_ID|;
      }
    }
  }

  // ---------- frames ----------

  /** A frame of `size` bytes starts the buffer and is whole, by its id length and payload length alone. */
  predicate FrameInFront(buf: bytes, limit: nat, size: nat) {
    && 7 <= |buf| && size <= |buf| && size <= limit
    && buf[0] == 0x43 && buf[1] == 0x42 && buf[2] == 0x4E && buf[3] == 0x31
    && var n := buf[6];
       && 1 <= n <= 64 && 45 + n <= |buf|
       && size == 45 + n + Big(buf[9 + n], buf[10 + n], buf[11 + n], buf[12 + n])
  }

  /** The frame announced is longer than a message may be; the bytes after its header need not be there. */
  predicate FrameTooLong(buf: bytes, limit: nat) {
    && 7 <= |buf|
    && buf[0] == 0x43 && buf[1] == 0x42 && buf[2] == 0x4E && buf[3] == 0x31
    && var n := buf[6];
       && 1 <= n <= 64 && 45 + n <= |buf|
       && 45 + n + Big(buf[9 + n], buf[10 + n], buf[11 + n], buf[12 + n]) > limit
  }

  lemma {:induction false} StartsWithMagic(buf: bytes)
    requires |buf| >= 4
    ensures buf[..4] == MAGIC <==> buf[0] == 0x43 && buf[1] == 0x42 && buf[2] == 0x4E && buf[3] == 0x31
  {
    assert buf[..4] == [buf[0], buf[1], buf[2], buf[3]];
  }

  /** A frame is cut off exactly when one lies whole in front, and refused exactly when one announced is too long. */
  lemma {:induction false} FramesAreCutExactlyWhen(lim: Framing.Limits, parse: Framing.Parser, buf: bytes, size: nat)
    ensures var step := Framing.NextStep(lim, parse, buf);
            && (step.Cut? && step.size == size <==> FrameInFront(buf, lim.maxMessageSize, size))
            && (step.Cut? ==> step.size <= |buf| && step.parsed == parse(buf[..step.size]))
            && (step.Refuse? <==> FrameTooLong(buf, lim.maxMessageSize))
  {
    if |buf| >= 7 {
      StartsWithMagic(buf);
      var n := buf[6];
      if 45 + n <= |buf| {
        ReadsBig(buf, 9 + n);
      }
    }
  }

  // ---------- journal records ----------

  /** A journal record at the front of d with a payload of n bytes; numbers are little-endian. */
  predicate IsJournalRecord(d: bytes, n: nat, sha2: Digest32) {
    && n <= 67_108_864 && 57 + n <= |d|
    && d[0] == 0x43 && d[1] == 0x42 && d[2] == 0x4A && d[3] == 0x52
    && FromLE(d[21..25]) == n
    && d[25 + n..57 + n] == sha2(d[4..25 + n])
  }

  /** Kind at 4, sequence number at 5, height at 13, payload length at 21, then the payload and its hash. */
  lemma {:induction false} JournalRecordExactlyWhen(d: bytes, n: nat, sha2: Digest32)
    ensures IsJournalRecord(d, n, sha2)
            <==> JournalFile.Decode(d, sha2).Some? && |JournalFile.Decode(d, sha2).value.0.payload| == n
    ensures IsJournalRecord(d, n, sha2)
            ==> JournalFile.Decode(d, sha2)
                == Some((JournalFile.Record(d[4], FromLE(d[5..13]), FromLE(d[13..21]), d[25..25 + n]), 57 + n))
  {
    if |d| >= 25 {
      JournalUnfolds(d, FromLE(d[21..25]), sha2);
    }
  }

  lemma {:induction false} JournalUnfolds(d: bytes, n: nat, sha2: Digest32)
    requires |d| >= 25 && n == FromLE(d[21..25])
    ensures JournalFile.Decode(d, sha2)
            == if IsJournalRecord(d, n, sha2) then
                 Some((JournalFile.Record(d[4], FromLE(d[5..13]), FromLE(d[13..21]), d[25..25 + n]), 57 + n))
               else None
  {
    JournalMagic(d);
    if 57 + n <= |d| {
      SlicesMeet(d, 4, 25, 25 + n);
    }
  }

  lemma {:induction false} JournalMagic(d: bytes)
    requires |d| >= 25
    ensures d[..4] == JournalFile.JOURNAL_MAGIC <==> d[0] == 0x43 && d[1] == 0x42 && d[2] == 0x4A && d[3] == 0x52
  {
    assert d[..4] == [d[0], d[1], d[2], d[3]];
  }

  lemma {:induction false} SlicesMeet(d: bytes, i: nat, j: nat, k: nat)
    requires i <= j <= k <= |d|
    ensures d[i..j] + d[j..k] == d[i..k]
  {
  }

  // ---------- block records ----------

  /** A whole block record: a header of 149 bytes, the length of the body, the number of transactions, the body. */
  predicate IsBlockRecord(d: bytes, sha2: Digest32) {
    && |d| >= 210
    && d[0] == 0x43 && d[1] == 0x42 && d[2] == 0x42 && d[3] == 0x32
    && FromLE(d[4..8]) == 2 && FromLE(d[8..12]) == 149
    && d[161] == 0
    && var n := FromLE(d[162..170]);
       && n <= 67_108_864 && FromLE(d[170..174]) <= 10_000 && |d| == 210 + n
       && d[174 + n..206 + n] == sha2(d[162..174 + n])
       && d[206 + n] == 0 && d[206 + n + 1] == 0 && d[206 + n + 2] == 0 && d[206 + n + 3] == 0
  }

  lemma {:induction false} FourZeros(d: bytes, i: nat)
    requires |d| == i + 4
    ensures d[i..] == Zeros(4) <==> d[i] == 0 && d[i + 1] == 0 && d[i + 2] == 0 && d[i + 3] == 0
  {
    assert d[i..] == [d[i], d[i + 1], d[i + 2], d[i + 3]];
    assert Zeros(4) == [0, 0, 0, 0];
  }

  lemma {:induction false} HashedPart(d: bytes, n: nat)
    requires 174 + n <= |d|
    ensures LE(FromLE(d[162..170]), 8) + LE(FromLE(d[170..174]), 4) + d[174..174 + n] == d[162..174 + n]
  {
    LittleEndianReencode(d[162..170]);
    LittleEndianReencode(d[170..174]);
    SlicesMeet(d, 162, 170, 174);
    SlicesMeet(d, 162, 174, 174 + n);
  }

  /** Header at 12, body length at 162, number of transactions at 170, body at 174, then its hash and four zeros. */
  lemma {:induction false} BlockRecordExactlyWhen(d: bytes, sha2: Digest32, readable: Formats.Stored -> bool)
    ensures var r := Formats.DecodeBlockRecord(d, sha2, readable);
            && (r.Some? ==> IsBlockRecord(d, sha2))
            && (IsBlockRecord(d, sha2) ==>
                  var stored := Formats.Stored(d[12..161], FromLE(d[170..174]), d[174..|d| - 36]);
                  r == if readable(stored) then Some(stored) else None)
  {
    if |d| >= 210 {
      assert d[..4] == [d[0], d[1], d[2], d[3]];
      var n := FromLE(d[162..170]);
      if |d| == 210 + n {
        HashedPart(d, n);
        FourZeros(d, 206 + n);
      }
    }
  }

  // ---------- the HEAD line ----------

  /** Digits without a leading zero, or the single digit 0. */
  predicate Plain(s: string) {
    Formats.AllDigits(s) && s != "" && (|s| > 1 ==> s[0] != '0')
  }

  /** The digits of the number, filled up with zeros on the left to at least twenty. */
  predicate HeightField(s: string, height: nat) {
    Formats.AllDigits(s) && |s| >= 20 && (|s| > 20 ==> s[0] != '0') && Formats.Value(s) == height
  }

  /** Height, block hash, network id, genesis hash and format version between colons, and a newline. */
  predicate IsHeadText(t: string, h: Formats.Head, k: nat, v: nat) {
    var n := |h.networkId|;
    && k + n + v + 133 == |t|
    && HeightField(t[..k], h.height)
    && t[k] == ':' && t[k + 1..k + 65] == h.blockHash
    && t[k + 65] == ':' && t[k + 66..k + 66 + n] == h.networkId
    && t[k + 66 + n] == ':' && t[k + 67 + n..k + 131 + n] == h.genesisHash
    && t[k + 131 + n] == ':'
    && Plain(t[k + 132 + n..k + 132 + n + v]) && Formats.Value(t[k + 132 + n..k + 132 + n + v]) == h.formatVersion
    && t[k + 132 + n + v] == '\n'
  }

  lemma {:induction false} DecimalIsPlain(n: nat)
    ensures Plain(Formats.Decimal(n)) && (n > 0 ==> Formats.Decimal(n)[0] != '0')
  {
    Formats.DecimalReadsBack(n);
    if n >= 10 {
      DecimalIsPlain(n / 10);
      assert Formats.Decimal(n)[0] == Formats.Decimal(n / 10)[0];
    }
  }

  lemma {:induction false} HeightIsPadded(n: nat)
    ensures HeightField(Formats.Padded(n, 20), n)
  {
    Formats.PaddedReadsBack(n, 20);
    DecimalIsPlain(n);
    var s := Formats.Decimal(n);
    if |s| < 20 {
      assert |Formats.Nulls(20 - |s|) + s| == 20;
    }
  }

  /** Five fields, of which the second and the fourth have 64 characters, between colons, and a newline. */
  predicate FieldsLie(t: string, a: string, b: string, c: string, d: string, e: string) {
    var k, n, v := |a|, |c|, |e|;
    && |t| == k + n + v + 133
    && t[..k] == a && t[k] == ':' && t[k + 1..k + 65] == b && t[k + 65] == ':'
    && t[k + 66..k + 66 + n] == c && t[k + 66 + n] == ':' && t[k + 67 + n..k + 131 + n] == d
    && t[k + 131 + n] == ':' && t[k + 132 + n..k + 132 + n + v] == e && t[k + 132 + n + v] == '\n'
  }

  lemma {:induction false} FiveFieldsLie(a: string, b: string, c: string, d: string, e: string)
    requires |b| == 64 && |d| == 64
    ensures FieldsLie(a + ":" + (b + ":" + (c + ":" + (d + ":" + e))) + "\n", a, b, c, d, e)
  {
  }

  lemma {:induction false} LinesLie(h: Formats.Head)
    requires Formats.EncodeHead(h).Some?
    ensures FieldsLie(Formats.EncodeHead(h).value, Formats.Padded(h.height, 20), h.blockHash, h.networkId,
                      h.genesisHash, Formats.Decimal(h.formatVersion))
  {
    FiveFieldsLie(Formats.Padded(h.height, 20), h.blockHash, h.networkId, h.genesisHash,
                  Formats.Decimal(h.formatVersion));
  }

  lemma {:induction false} FieldsAreHeadText(t: string, h: Formats.Head, height: string, version: string)
    requires FieldsLie(t, height, h.blockHash, h.networkId, h.genesisHash, version)
    requires HeightField(height, h.height) && Plain(version) && Formats.Value(version) == h.formatVersion
    ensures IsHeadText(t, h, |height|, |version|)
  {
  }

  /** A HEAD file is written exactly when both hashes have 64 characters, with these fields. */
  lemma {:induction false} HeadIsLaidOut(h: Formats.Head) returns (k: nat, v: nat)
    ensures Formats.EncodeHead(h).Some? <==> |h.blockHash| == 64 && |h.genesisHash| == 64
    ensures Formats.EncodeHead(h).Some? ==> IsHeadText(Formats.EncodeHead(h).value, h, k, v)
  {
    var height, version := Formats.Padded(h.height, 20), Formats.Decimal(h.formatVersion);
    k, v := |height|, |version|;
    if Formats.EncodeHead(h).Some? {
      LinesLie(h);
      HeightIsPadded(h.height);
      DecimalIsPlain(h.formatVersion);
      Formats.DecimalReadsBack(h.formatVersion);
      FieldsAreHeadText(Formats.EncodeHead(h).value, h, height, version);
    }
  }

  // ---------- registry states ----------

  /** Numbers below 253 take one byte, larger ones a marker and 2, 4 or 8 bytes. */
  function VarintSize(n: nat): nat {
    if n < 253 then 1 else if n < 65536 then 3 else if n < 0x1_0000_0000 then 5 else 9
  }

  predicate IsVarint(d: bytes, at: nat, n: nat) {
    var size := VarintSize(n);
    && at + size <= |d|
    && (size == 1 ==> d[at] == n)
    && (size == 3 ==> d[at] == 253 && FromLE(d[at + 1..at + 3]) == n)
    && (size == 5 ==> d[at] == 254 && FromLE(d[at + 1..at + 5]) == n)
    && (size == 9 ==> d[at] == 255 && FromLE(d[at + 1..at + 9]) == n)
  }

  /** A length and as many bytes. */
  predicate IsString(d: bytes, at: nat, s: bytes) {
    var id := at + VarintSize(|s|);
    IsVarint(d, at, |s|) && id + |s| <= |d| && d[id..id + |s|] == s
  }

  lemma {:induction false} VarintIsLaidOut(d: bytes, at: nat, n: nat)
    requires n < 0x1_0000_0000_0000_0000 && Serialization.At(d, at, Serialization.EncodeVarint(n))
    ensures IsVarint(d, at, n) && |Serialization.EncodeVarint(n)| == VarintSize(n)
  {
    var e := Serialization.EncodeVarint(n);
    assert d[at] == e[0];
    if n >= 253 {
      Pow256Values();
      Serialization.AtSplit(d, at, [e[0]], e[1..]);
      NumberLies(d, at + 1, n, |e| - 1);
    }
  }

  lemma {:induction false} NumberLies(d: bytes, at: nat, n: nat, width: nat)
    requires n < Pow256(width) && Serialization.At(d, at, LE(n, width))
    ensures FromLE(d[at..at + width]) == n
  {
    Serialization.AtSlice(d, at, LE(n, width));
    LittleEndianRoundTrip(n, width);
  }

  /** The digest at a place, or 32 zeros for none. */
  predicate IsOptional(d: bytes, at: nat, o: Option<bytes>) {
    at + 32 <= |d| && d[at..at + 32] == match o case None => Zeros(32) case Some(b) => b
  }

  function RecordSize(r: Serialization.ByteRecord): nat {
    4 + VarintSize(|r.curatorId|) + |r.curatorId| + 144
  }

  /** One curator's record: schema number, curator id behind its length, key, two heights and three digests. */
  predicate IsRecord(d: bytes, at: nat, r: Serialization.ByteRecord) {
    && at + RecordSize(r) <= |d|
    && FromLE(d[at..at + 4]) == 1
    && IsString(d, at + 4, r.curatorId)
    && IsFixedPart(d, at + RecordSize(r) - 144, r)
  }

  predicate IsFixedPart(d: bytes, at: nat, r: Serialization.ByteRecord)
    requires at + 144 <= |d|
  {
    && d[at..at + 32] == r.publicKey
    && FromLE(d[at + 32..at + 40]) == r.activation
    && FromLE(d[at + 40..at + 48]) == (match r.revocation case None => 0xFFFF_FFFF_FFFF_FFFF case Some(h) => h)
    && IsOptional(d, at + 48, r.previousKey)
    && d[at + 80..at + 112] == r.registrationTxid
    && IsOptional(d, at + 112, r.latestRotationTxid)
  }

  lemma {:induction false} FixedPartIsLaidOut(d: bytes, at: nat, r: Serialization.ByteRecord)
    requires Serialization.RecordFits(r) && Serialization.RecordSized(r)
    requires Serialization.At(d, at, Serialization.EncodeFixedPart(r))
    ensures |Serialization.EncodeFixedPart(r)| == 144 && at + 144 <= |d| && IsFixedPart(d, at, r)
  {
    Pow256Values();
    var previous, latest := Serialization.OrZeros(r.previousKey), Serialization.OrZeros(r.latestRotationTxid);
    var p0 := [r.publicKey, LE(r.activation, 8), LE(Serialization.RevocationValue(r), 8), previous,
               r.registrationTxid, latest];
    SixParts(d, at, p0);
    NumberLies(d, at + 32, r.activation, 8);
    NumberLies(d, at + 40, Serialization.RevocationValue(r), 8);
    Serialization.AtSlice(d, at, r.publicKey);
    Serialization.AtSlice(d, at + 48, previous);
    Serialization.AtSlice(d, at + 80, r.registrationTxid);
    Serialization.AtSlice(d, at + 112, latest);
  }

  lemma {:induction false} SixParts(d: bytes, at: nat, p: seq<bytes>)
    requires |p| == 6 && |p[0]| == 32 && |p[1]| == |p[2]| == 8 && |p[3]| == |p[4]| == |p[5]| == 32
    requires Serialization.At(d, at, Join(p))
    ensures |Join(p)| == 144
    ensures Serialization.At(d, at, p[0]) && Serialization.At(d, at + 32, p[1]) && Serialization.At(d, at + 40, p[2])
    ensures Serialization.At(d, at + 48, p[3]) && Serialization.At(d, at + 80, p[4])
    ensures Serialization.At(d, at + 112, p[5])
  {
    Serialization.Peel(d, at, p);
    Serialization.Peel(d, at + 32, p[1..]);
    assert p[1..][1..] == p[2..] && p[2..][1..] == p[3..] && p[3..][1..] == p[4..] && p[4..][1..] == p[5..];
    Serialization.Peel(d, at + 40, p[2..]);
    Serialization.Peel(d, at + 48, p[3..]);
    Serialization.Peel(d, at + 80, p[4..]);
    Serialization.Peel(d, at + 112, p[5..]);
  }

  lemma {:induction false} RecordSplits(d: bytes, at: nat, r: Serialization.ByteRecord)
    requires Serialization.At(d, at, Serialization.EncodeRecord(r))
    ensures var id, fixed := Serialization.EncodeString(r.curatorId), Serialization.EncodeFixedPart(r);
            && |Serialization.EncodeRecord(r)| == 4 + |id| + |fixed|
            && Serialization.At(d, at, LE(1, 4)) && Serialization.At(d, at + 4, id)
            && Serialization.At(d, at + 4 + |id|, fixed)
  {
    Serialization.ThreeParts(d, at, LE(GOVERNANCE_SCHEMA_VERSION, 4), Serialization.EncodeString(r.curatorId),
                             Serialization.EncodeFixedPart(r));
  }

  lemma {:induction false} StringIsLaidOut(d: bytes, at: nat, s: bytes)
    requires |s| < 0x1_0000_0000_0000_0000 && Serialization.At(d, at, Serialization.EncodeString(s))
    ensures |Serialization.EncodeString(s)| == VarintSize(|s|) + |s| && IsString(d, at, s)
  {
    var v := Serialization.EncodeVarint(|s|);
    Serialization.AtSplit(d, at, v, s);
    VarintIsLaidOut(d, at, |s|);
    Serialization.AtSlice(d, at + |v|, s);
  }

  lemma {:induction false} RecordFromParts(d: bytes, at: nat, r: Serialization.ByteRecord, fixedAt: nat)
    requires fixedAt == at + RecordSize(r) - 144 && fixedAt + 144 <= |d|
    requires FromLE(d[at..at + 4]) == 1 && IsString(d, at + 4, r.curatorId) && IsFixedPart(d, fixedAt, r)
    ensures IsRecord(d, at, r)
  {
  }

  lemma {:induction false} PartsAreLaidOut(d: bytes, at: nat, r: Serialization.ByteRecord, id: bytes, fixed: bytes)
    requires Serialization.RecordFits(r) && Serialization.RecordSized(r)
    requires id == Serialization.EncodeString(r.curatorId) && fixed == Serialization.EncodeFixedPart(r)
    requires Serialization.At(d, at, LE(1, 4)) && Serialization.At(d, at + 4, id)
    requires Serialization.At(d, at + 4 + |id|, fixed)
    ensures |id| == VarintSize(|r.curatorId|) + |r.curatorId| && |fixed| == 144 && IsRecord(d, at, r)
  {
    Pow256Values();
    StringIsLaidOut(d, at + 4, r.curatorId);
    FixedPartIsLaidOut(d, at + 4 + |id|, r);
    NumberLies(d, at, 1, 4);
    RecordFromParts(d, at, r, at + 4 + |id|);
  }

  lemma {:induction false} RecordIsLaidOut(d: bytes, at: nat, r: Serialization.ByteRecord)
    requires Serialization.RecordFits(r) && Serialization.RecordSized(r)
    requires Serialization.At(d, at, Serialization.EncodeRecord(r))
    ensures IsRecord(d, at, r) && |Serialization.EncodeRecord(r)| == RecordSize(r)
  {
    RecordSplits(d, at, r);
    PartsAreLaidOut(d, at, r, Serialization.EncodeString(r.curatorId), Serialization.EncodeFixedPart(r));
  }

  /** Where record i of a list lies. */
  function PlaceOf(rs: seq<Serialization.ByteRecord>, start: nat, i: nat): nat
    requires i <= |rs|
  {
    if i == 0 then start else PlaceOf(rs, start, i - 1) + RecordSize(rs[i - 1])
  }

  ghost predicate AreRecords(d: bytes, start: nat, rs: seq<Serialization.ByteRecord>) {
    forall i: nat :: i < |rs| ==> IsRecord(d, PlaceOf(rs, start, i), rs[i])
  }

  predicate IsKey(d: bytes, at: nat, key: bytes) {
    at + 32 <= |d| && d[at..at + 32] == key
  }

  ghost predicate AreKeys(d: bytes, start: nat, keys: seq<bytes>) {
    forall i: nat :: i < |keys| ==> IsKey(d, start + 32 * i, keys[i])
  }

  /** Where the keys, the threshold and the first record of a state lie. */
  function KeysAt(s: Serialization.ByteState): nat {
    4 + VarintSize(|s.networkId|) + |s.networkId| + VarintSize(|s.governanceKeys|)
  }

  function ThresholdAt(s: Serialization.ByteState): nat {
    KeysAt(s) + 32 * |s.governanceKeys|
  }

  function RecordsAt(s: Serialization.ByteState): nat {
    ThresholdAt(s) + 1 + VarintSize(|s.records|)
  }

  /** Version, network id, number of keys, keys. */
  ghost predicate IsStateHead(d: bytes, s: Serialization.ByteState) {
    && |d| >= ThresholdAt(s)
    && FromLE(d[0..4]) == s.governanceVersion
    && IsString(d, 4, s.networkId)
    && IsVarint(d, KeysAt(s) - VarintSize(|s.governanceKeys|), |s.governanceKeys|)
    && AreKeys(d, KeysAt(s), s.governanceKeys)
  }

  /** Threshold, number of records, records; and nothing behind them. */
  ghost predicate IsStateTail(d: bytes, at: nat, threshold: nat, rs: seq<Serialization.ByteRecord>, recordsAt: nat) {
    && |d| > at && |d| == PlaceOf(rs, recordsAt, |rs|)
    && d[at] == threshold
    && IsVarint(d, at + 1, |rs|)
    && AreRecords(d, recordsAt, rs)
  }

  ghost predicate IsState(d: bytes, s: Serialization.ByteState, rs: seq<Serialization.ByteRecord>) {
    IsStateHead(d, s) && IsStateTail(d, ThresholdAt(s), s.threshold, rs, RecordsAt(s))
  }

  ghost predicate AllEncodable(rs: seq<Serialization.ByteRecord>) {
    forall i: nat :: i < |rs| ==> Encodable(rs[i])
  }

  predicate Encodable(r: Serialization.ByteRecord) {
    Serialization.RecordFits(r) && Serialization.RecordSized(r)
  }

  /** Where piece i lies, one after the other. */
  function PieceAt(pieces: seq<bytes>, start: nat, i: nat): nat
    requires i <= |pieces|
  {
    if i == 0 then start else PieceAt(pieces, start, i - 1) + |pieces[i - 1]|
  }

  lemma {:induction false} PiecesShift(pieces: seq<bytes>, start: nat, i: nat)
    requires i < |pieces|
    ensures PieceAt(pieces, start, i + 1) == PieceAt(pieces[1..], start + |pieces[0]|, i)
  {
    if i > 0 {
      PiecesShift(pieces, start, i - 1);
    }
  }

  lemma {:induction false} PieceLies(d: bytes, at: nat, pieces: seq<bytes>, i: nat)
    requires i < |pieces| && Serialization.At(d, at, Join(pieces))
    ensures Serialization.At(d, PieceAt(pieces, at, i), pieces[i])
    decreases |pieces|
  {
    Serialization.Peel(d, at, pieces);
    if i > 0 {
      PieceLies(d, at + |pieces[0]|, pieces[1..], i - 1);
      PiecesShift(pieces, at, i - 1);
    }
  }

  lemma {:induction false} JoinedSize(pieces: seq<bytes>)
    requires pieces != []
    ensures |Join(pieces)| == |pieces[0]| + |Join(pieces[1..])|
  {
  }

  lemma {:induction false} PiecesEnd(pieces: seq<bytes>, at: nat)
    ensures PieceAt(pieces, at, |pieces|) == at + |Join(pieces)|
    decreases |pieces|
  {
    if pieces != [] {
      var rest, next := pieces[1..], at + |pieces[0]|;
      PiecesShift(pieces, at, |rest|);
      PiecesEnd(rest, next);
      JoinedSize(pieces);
    }
  }

  lemma {:induction false} EncodedSize(r: Serialization.ByteRecord)
    requires Encodable(r)
    ensures |Serialization.EncodeRecord(r)| == RecordSize(r)
  {
    var e := Serialization.EncodeRecord(r);
    RecordIsLaidOut(e, 0, r);
  }

  lemma {:induction false} PlacesAgree(rs: seq<Serialization.ByteRecord>, at: nat, i: nat)
    requires i <= |rs| && AllEncodable(rs)
    ensures PlaceOf(rs, at, i) == PieceAt(Serialization.EncodeEach(rs), at, i)
  {
    if i > 0 {
      PlacesAgree(rs, at, i - 1);
      assert Encodable(rs[i - 1]);
      EncodedSize(rs[i - 1]);
    }
  }

  lemma {:induction false} RecordLies(d: bytes, at: nat, rs: seq<Serialization.ByteRecord>, i: nat)
    requires i < |rs| && AllEncodable(rs) && Serialization.At(d, at, Join(Serialization.EncodeEach(rs)))
    ensures IsRecord(d, PlaceOf(rs, at, i), rs[i])
  {
    PlacesAgree(rs, at, i);
    PieceLies(d, at, Serialization.EncodeEach(rs), i);
    assert Encodable(rs[i]);
    RecordIsLaidOut(d, PlaceOf(rs, at, i), rs[i]);
  }

  lemma {:induction false} RecordsAreLaidOut(d: bytes, at: nat, rs: seq<Serialization.ByteRecord>)
    requires AllEncodable(rs) && Serialization.At(d, at, Join(Serialization.EncodeEach(rs)))
    ensures AreRecords(d, at, rs)
    ensures PlaceOf(rs, at, |rs|) == at + |Join(Serialization.EncodeEach(rs))|
  {
    forall i: nat | i < |rs| ensures IsRecord(d, PlaceOf(rs, at, i), rs[i]) {
      RecordLies(d, at, rs, i);
    }
    PlacesAgree(rs, at, |rs|);
    PiecesEnd(Serialization.EncodeEach(rs), at);
  }

  lemma {:induction false} KeysAreLaidOut(d: bytes, at: nat, keys: seq<bytes>)
    requires KeysSized(keys) && Serialization.At(d, at, Join(keys))
    ensures |Join(keys)| == 32 * |keys| && AreKeys(d, at, keys)
    decreases |keys|
  {
    if keys != [] {
      Serialization.Peel(d, at, keys);
      Serialization.AtSlice(d, at, keys[0]);
      KeysAreLaidOut(d, at + 32, keys[1..]);
      forall i: nat | i < |keys| ensures IsKey(d, at + 32 * i, keys[i]) {
        assert i > 0 ==> IsKey(d, at + 32 + 32 * (i - 1), keys[1..][i - 1]);
      }
    }
  }

  ghost predicate KeysSized(keys: seq<bytes>) {
    forall i :: 0 <= i < |keys| ==> |keys[i]| == 32
  }

  lemma {:induction false} HeadSplits(d: bytes, s: Serialization.ByteState, tail: bytes)
    requires |s.networkId| < Pow256(8) && |s.governanceKeys| < Pow256(8) && KeysSized(s.governanceKeys)
    requires d == Serialization.Whole(s.governanceVersion, s.networkId, s.governanceKeys, tail)
    ensures |d| == ThresholdAt(s) + |tail| && Serialization.At(d, ThresholdAt(s), tail)
    ensures Serialization.At(d, 0, LE(s.governanceVersion, 4))
    ensures Serialization.At(d, 4, Serialization.EncodeString(s.networkId))
    ensures Serialization.At(d, KeysAt(s) - VarintSize(|s.governanceKeys|),
                             Serialization.EncodeVarint(|s.governanceKeys|))
    ensures Serialization.At(d, KeysAt(s), Join(s.governanceKeys))
  {
    var id, count, all := Serialization.EncodeString(s.networkId), Serialization.EncodeVarint(|s.governanceKeys|),
                          Join(s.governanceKeys);
    Serialization.FiveParts(d, LE(s.governanceVersion, 4), id, count, all, tail);
    KeysJoined(s.governanceKeys);
  }

  lemma {:induction false} KeysJoined(keys: seq<bytes>)
    requires KeysSized(keys)
    ensures |Join(keys)| == 32 * |keys|
    decreases |keys|
  {
    if keys != [] {
      KeysJoined(keys[1..]);
    }
  }

  lemma {:induction false} HeadOfState(d: bytes, s: Serialization.ByteState, tail: bytes)
    requires s.governanceVersion < Pow256(4) && |s.networkId| < Pow256(8) && |s.governanceKeys| < Pow256(8)
    requires KeysSized(s.governanceKeys)
    requires d == Serialization.Whole(s.governanceVersion, s.networkId, s.governanceKeys, tail)
    ensures |d| == ThresholdAt(s) + |tail| && Serialization.At(d, ThresholdAt(s), tail)
    ensures IsStateHead(d, s)
  {
    Pow256Values();
    HeadSplits(d, s, tail);
    NumberLies(d, 0, s.governanceVersion, 4);
    StringIsLaidOut(d, 4, s.networkId);
    VarintIsLaidOut(d, KeysAt(s) - VarintSize(|s.governanceKeys|), |s.governanceKeys|);
    KeysAreLaidOut(d, KeysAt(s), s.governanceKeys);
  }

  lemma {:induction false} TailSplits(d: bytes, at: nat, threshold: nat, pieces: seq<bytes>)
    requires threshold < 256 && Serialization.At(d, at, Serialization.Tail(threshold, pieces))
    ensures var count := Serialization.EncodeVarint(|pieces|);
            && |Serialization.Tail(threshold, pieces)| == 1 + |count| + |Join(pieces)|
            && at < |d| && d[at] == threshold && Serialization.At(d, at + 1, count)
            && Serialization.At(d, at + 1 + |count|, Join(pieces))
  {
    Serialization.ThreeParts(d, at, [threshold % 256], Serialization.EncodeVarint(|pieces|), Join(pieces));
    assert d[at] == [threshold % 256][0];
  }

  lemma {:induction false} TailOfState(d: bytes, at: nat, threshold: nat, rs: seq<Serialization.ByteRecord>,
                                       recordsAt: nat)
    requires threshold < 256 && |rs| < 0x1_0000_0000_0000_0000 && AllEncodable(rs)
    requires recordsAt == at + 1 + VarintSize(|rs|)
    requires var tail := Serialization.Tail(threshold, Serialization.EncodeEach(rs));
             |d| == at + |tail| && Serialization.At(d, at, tail)
    ensures IsStateTail(d, at, threshold, rs, recordsAt)
  {
    TailSplits(d, at, threshold, Serialization.EncodeEach(rs));
    VarintIsLaidOut(d, at + 1, |rs|);
    RecordsAreLaidOut(d, recordsAt, rs);
  }

  lemma {:induction false} SortedIsEncodable(s: Serialization.ByteState)
    requires Serialization.Fits(s) && Serialization.Sized(s)
    ensures AllEncodable(Sorting.Sort(s.records, Registry.IdLeq))
  {
    var rs := Sorting.Sort(s.records, Registry.IdLeq);
    Sorting.SortPermutes(s.records, Registry.IdLeq);
    forall i: nat | i < |rs| ensures Encodable(rs[i]) {
      assert rs[i] in multiset(rs);
      assert rs[i] in s.records;
    }
  }

  lemma {:induction false} EncodedIsState(d: bytes, s: Serialization.ByteState, rs: seq<Serialization.ByteRecord>)
    requires s.governanceVersion < Pow256(4) && |s.networkId| < Pow256(8) && |s.governanceKeys| < Pow256(8)
    requires s.threshold < 256 && |rs| == |s.records| < Pow256(8) && KeysSized(s.governanceKeys) && AllEncodable(rs)
    requires d == Serialization.Whole(s.governanceVersion, s.networkId, s.governanceKeys,
                                      Serialization.Tail(s.threshold, Serialization.EncodeEach(rs)))
    ensures IsState(d, s, rs)
  {
    Pow256Values();
    HeadOfState(d, s, Serialization.Tail(s.threshold, Serialization.EncodeEach(rs)));
    TailOfState(d, ThresholdAt(s), s.threshold, rs, RecordsAt(s));
  }

  /** The canonical bytes of a registry state, byte for byte; the records lie in the order of the sorted list. */
  lemma {:induction false} StateIsLaidOut(s: Serialization.ByteState)
    requires Serialization.Fits(s) && Serialization.Sized(s)
    ensures Serialization.Serialize(s).Some?
    ensures IsState(Serialization.Serialize(s).value, s, Sorting.Sort(s.records, Registry.IdLeq))
  {
    SortedIsEncodable(s);
    EncodedIsState(Serialization.Encode(s), s, Sorting.Sort(s.records, Registry.IdLeq));
  }
}
