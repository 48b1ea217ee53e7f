/** The write-ahead journal as bytes: framing of records, appending, and the scans that stop at a torn tail. */
module JournalFile {
  import opened Wrappers
  import opened Bytes

  const JOURNAL_MAGIC: bytes := [0x43, 0x42, 0x4A, 0x52]
  const JOURNAL_COMMIT: byte := 0x10
  const MAX_JOURNAL_PAYLOAD := 64 * 1024 * 1024

  datatype Record = Record(kind: byte, number: nat, height: nat, payload: bytes)

  datatype JournalError = PayloadTooLong | NumberTooLarge

  // ---------- one record ----------

  function Prefix(r: Record): (h: bytes)
    ensures |h| == 21
  {
    [r.kind] + LE(r.number, 8) + LE(r.height, 8) + LE(|r.payload|, 4)
  }

  function Encoding(r: Record, sha2: Digest32): bytes {
    JOURNAL_MAGIC + Prefix(r) + r.payload + sha2(Prefix(r) + r.payload)
  }

  predicate Fits(r: Record) {
    r.number < Pow256(8) && r.height < Pow256(8) && |r.payload| <= MAX_JOURNAL_PAYLOAD
  }

  function Encode(r: Record, sha2: Digest32): Result<bytes, JournalError> {
    if |r.payload| > MAX_JOURNAL_PAYLOAD then Err(PayloadTooLong)
    else if !Fits(r) then Err(NumberTooLarge)
    else Ok(Encoding(r, sha2))
  }

  /** Decodes the record at the front of d, with its size. */
  function Decode(d: bytes, sha2: Digest32): Option<(Record, nat)> {
    if |d| < 25 then None
    else if d[..4] != JOURNAL_MAGIC then None
    else
      var length := FromLE(d[21..25]);
      if length > MAX_JOURNAL_PAYLOAD then None
      else if 25 + length + 32 > |d| then None
      else
        var payload := d[25..25 + length];
        if d[25 + length..25 + length + 32] != sha2(d[4..25] + payload) then None
        else Some((Record(d[4], FromLE(d[5..13]), FromLE(d[13..21]), payload), 25 + length + 32))
  }

  lemma {:induction false} PrefixFields(r: Record)
    requires Fits(r)
    ensures var h := Prefix(r);
            && h[0] == r.kind && FromLE(h[1..9]) == r.number && FromLE(h[9..17]) == r.height
            && FromLE(h[17..21]) == |r.payload|
  {
    var a, b, c := LE(r.number, 8), LE(r.height, 8), LE(|r.payload|, 4);
    assert Pow256(4) == 256 * 256 * Pow256(2) && Pow256(2) == 65536;
    LittleEndianRoundTrip(r.number, 8);
    LittleEndianRoundTrip(r.height, 8);
    LittleEndianRoundTrip(|r.payload|, 4);
    FourPieces([r.kind], a, b, c);
  }

  lemma {:induction false} FourPieces(k: bytes, a: bytes, b: bytes, c: bytes)
    requires |k| == 1 && |a| == |b| == 8 && |c| == 4
    ensures var h := k + a + b + c;
            h[0] == k[0] && h[1..9] == a && h[9..17] == b && h[17..21] == c
  {
  }

  /** Where the pieces of a record lie, whatever follows it. */
  lemma {:induction false} EncodingPieces(r: Record, sha2: Digest32, more: bytes)
    ensures var d, h, n := Encoding(r, sha2) + more, Prefix(r), |r.payload|;
            && |Encoding(r, sha2)| == 25 + n + 32
            && d[..4] == JOURNAL_MAGIC && d[4..25] == h && d[25..25 + n] == r.payload
            && d[25 + n..25 + n + 32] == sha2(h + r.payload)
  {
    var h, p, c := Prefix(r), r.payload, sha2(Prefix(r) + r.payload);
    assert Encoding(r, sha2) + more == JOURNAL_MAGIC + h + p + c + more;
    FivePieces(JOURNAL_MAGIC, h, p, c, more);
  }

  lemma {:induction false} FivePieces(m: bytes, h: bytes, p: bytes, c: bytes, more: bytes)
    requires |m| == 4 && |h| == 21 && |c| == 32
    ensures var d, n := m + h + p + c + more, |p|;
            d[..4] == m && d[4..25] == h && d[25..25 + n] == p && d[25 + n..25 + n + 32] == c
  {
  }

  lemma {:induction false} NumbersOf(d: bytes, h: bytes)
    requires |d| >= 25 && d[4..25] == h
    ensures d[4] == h[0] && d[5..13] == h[1..9] && d[13..21] == h[9..17] && d[21..25] == h[17..21]
  {
    SubSlice(d, 4, 25, 1, 9);
    SubSlice(d, 4, 25, 9, 17);
    SubSlice(d, 4, 25, 17, 21);
  }

  lemma {:induction false} SubSlice(d: bytes, lo: nat, hi: nat, i: nat, j: nat)
    requires i <= j && lo + j <= hi <= |d|
    ensures d[lo..hi][i..j] == d[lo + i..lo + j]
  {
    var a, b := d[lo..hi][i..j], d[lo + i..lo + j];
    forall k | 0 <= k < j - i ensures a[k] == b[k] {
      assert a[k] == d[lo..hi][i + k] == d[lo + i + k];
    }
    assert a == b;
  }

  /** A whole record decodes to itself, whatever follows it. */
  lemma {:induction false} WholeRecordDecodes(r: Record, sha2: Digest32, more: bytes)
    requires Fits(r)
    ensures Decode(Encoding(r, sha2) + more, sha2) == Some((r, |Encoding(r, sha2)|))
  {
    EncodingPieces(r, sha2, more);
    PrefixFields(r);
    NumbersOf(Encoding(r, sha2) + more, Prefix(r));
  }

  /** A record with its end missing does not decode. */
  lemma {:induction false} TornRecordFails(r: Record, sha2: Digest32, cut: nat)
    requires Fits(r) && cut < |Encoding(r, sha2)|
    ensures Decode(Encoding(r, sha2)[..cut], sha2) == None
  {
    var e := Encoding(r, sha2);
    EncodingPieces(r, sha2, []);
    assert e + [] == e;
    PrefixFields(r);
    NumbersOf(e, Prefix(r));
    if cut >= 25 {
      assert e[..cut][21..25] == e[21..25];
    }
  }

  // ---------- scanning ----------

  predicate Consumes(d: bytes, found: Option<(Record, nat)>) {
    found.Some? ==> 0 < found.value.1 <= |d|
  }

  type Decoder = f: bytes -> Option<(Record, nat)> | forall d :: Consumes(d, f(d)) witness (d: bytes) => None

  function JournalDecoder(sha2: Digest32): Decoder {
    (d: bytes) => Decode(d, sha2)
  }

  /** The records read one after the other until one does not decode. */
  function Scan(decode: Decoder, d: bytes): seq<Record>
    decreases |d|
  {
    if d == [] then []
    else
      match decode(d)
      case None => []
      case Some((record, size)) => [record] + Scan(decode, d[size..])
  }

  /** How many whole pieces the first n bytes hold. */
  function WholePieces(pieces: seq<bytes>, n: nat): (k: nat)
    ensures k <= |pieces|
  {
    if pieces == [] || |pieces[0]| > n then 0 else 1 + WholePieces(pieces[1..], n - |pieces[0]|)
  }

  /** That is the largest number of pieces that fit. */
  lemma {:induction false} WholePiecesIsLongest(pieces: seq<bytes>, n: nat, k: nat)
    requires k <= |pieces| && forall i :: 0 <= i < |pieces| ==> pieces[i] != []
    ensures |Join(pieces[..k])| <= n <==> k <= WholePieces(pieces, n)
    decreases |pieces|
  {
    if k > 0 {
      assert pieces[..k][1..] == pieces[1..][..k - 1];
      if |pieces[0]| <= n {
        WholePiecesIsLongest(pieces[1..], n - |pieces[0]|, k - 1);
      }
    }
  }

  ghost predicate Decodes(decode: Decoder, pieces: seq<bytes>, rs: seq<Record>) {
    && |pieces| == |rs|
    && (forall i, more :: 0 <= i < |pieces| ==> decode(pieces[i] + more) == Some((rs[i], |pieces[i]|)))
    && (forall i, cut: nat :: 0 <= i < |pieces| && cut < |pieces[i]| ==> decode(pieces[i][..cut]) == None)
  }

  /** Scanning a truncated run of records yields exactly its whole records. */
  lemma {:induction false} ScanStopsAtTear(decode: Decoder, pieces: seq<bytes>, rs: seq<Record>, n: nat)
    requires Decodes(decode, pieces, rs) && n <= |Join(pieces)|
    ensures Scan(decode, Join(pieces)[..n]) == rs[..WholePieces(pieces, n)]
    decreases |pieces|
  {
    if pieces != [] {
      var first, others := pieces[0], Join(pieces[1..]);
      forall i, more | 0 <= i < |pieces[1..]|
        ensures decode(pieces[1..][i] + more) == Some((rs[1..][i], |pieces[1..][i]|))
      {
        assert pieces[1..][i] == pieces[i + 1];
      }
      forall i, cut: nat | 0 <= i < |pieces[1..]| && cut < |pieces[1..][i]|
        ensures decode(pieces[1..][i][..cut]) == None
      {
        assert pieces[1..][i] == pieces[i + 1];
      }
      if |first| <= n {
        ScanStopsAtTear(decode, pieces[1..], rs[1..], n - |first|);
        var d := Join(pieces)[..n];
        assert d == first + others[..n - |first|];
        assert decode(d) == Some((rs[0], |first|));
        assert d[|first|..] == others[..n - |first|];
        var k := WholePieces(pieces[1..], n - |first|);
        assert rs[..k + 1] == [rs[0]] + rs[1..][..k];
      } else {
        assert Join(pieces)[..n] == first[..n];
        assert decode(first[..n]) == None;
      }
    }
  }

  function Encodings(rs: seq<Record>, sha2: Digest32): (r: seq<bytes>)
    ensures |r| == |rs|
  {
    seq(|rs|, i requires 0 <= i < |rs| => Encoding(rs[i], sha2))
  }

  /** A journal cut off anywhere reads back as the longest prefix of whole records. */
  lemma {:induction false} TruncatedJournal(rs: seq<Record>, sha2: Digest32, n: nat)
    requires forall i :: 0 <= i < |rs| ==> Fits(rs[i])
    requires n <= |Join(Encodings(rs, sha2))|
    ensures Scan(JournalDecoder(sha2), Join(Encodings(rs, sha2))[..n]) == rs[..WholePieces(Encodings(rs, sha2), n)]
  {
    var pieces, decode := Encodings(rs, sha2), JournalDecoder(sha2);
    forall i, more | 0 <= i < |pieces| ensures decode(pieces[i] + more) == Some((rs[i], |pieces[i]|)) {
      WholeRecordDecodes(rs[i], sha2, more);
    }
    forall i, cut: nat | 0 <= i < |pieces| && cut < |pieces[i]| ensures decode(pieces[i][..cut]) == None {
      TornRecordFails(rs[i], sha2, cut);
    }
    ScanStopsAtTear(decode, pieces, rs, n);
  }

  // ---------- what the scans compute ----------

  /** The largest number read, starting from `highest`. */
  function HighestNumber(rs: seq<Record>, highest: nat): nat
    decreases |rs|
  {
    if rs == [] then highest
    else HighestNumber(rs[1..], if rs[0].number > highest then rs[0].number else highest)
  }

  /** The largest height of a COMMIT read, starting from `highest`. */
  function LastCommitHeight(rs: seq<Record>, highest: nat): nat
    decreases |rs|
  {
    if rs == [] then highest
    else
      var next := if rs[0].kind == JOURNAL_COMMIT && rs[0].height > highest then rs[0].height else highest;
      LastCommitHeight(rs[1..], next)
  }

  /** The last-commit scan returns the largest height of any COMMIT record, or where it started. */
  lemma {:induction false} LastCommitIsHighest(rs: seq<Record>, highest: nat)
    ensures var h := LastCommitHeight(rs, highest);
            && h >= highest
            && (forall i :: 0 <= i < |rs| && rs[i].kind == JOURNAL_COMMIT ==> rs[i].height <= h)
            && (h == highest || exists i :: 0 <= i < |rs| && rs[i].kind == JOURNAL_COMMIT && rs[i].height == h)
    decreases |rs|
  {
    if rs != [] {
      var next := if rs[0].kind == JOURNAL_COMMIT && rs[0].height > highest then rs[0].height else highest;
      LastCommitIsHighest(rs[1..], next);
      var h := LastCommitHeight(rs[1..], next);
      forall i | 0 <= i < |rs| && rs[i].kind == JOURNAL_COMMIT ensures rs[i].height <= h {
        assert i > 0 ==> rs[i] == rs[1..][i - 1];
      }
      if h != highest && h != next {
        var i :| 0 <= i < |rs[1..]| && rs[1..][i].kind == JOURNAL_COMMIT && rs[1..][i].height == h;
        assert rs[i + 1] == rs[1..][i];
      }
    }
  }

  ghost predicate NumberedFrom(rs: seq<Record>, k: nat) {
    forall i :: 0 <= i < |rs| ==> rs[i].number == k + i + 1
  }

  lemma {:induction false} HighestOfNumbered(rs: seq<Record>, k: nat)
    requires NumberedFrom(rs, k)
    ensures HighestNumber(rs, k) == k + |rs|
    decreases |rs|
  {
    if rs != [] {
      HighestOfNumbered(rs[1..], k + 1);
    }
  }

  // ---------- the journal object ----------

  class Journal {
    const sha2: Digest32
    var file: Option<bytes>
    var number: nat

    function Data(): bytes
      reads this`file
    {
      match file
      case None => []
      case Some(d) => d
    }

    constructor (file: Option<bytes>, sha2: Digest32)
      ensures this.file == file && this.sha2 == sha2
      ensures number == HighestNumber(Scan(JournalDecoder(sha2), match file case None => [] case Some(d) => d), 0)
    {
      this.sha2 := sha2;
      this.file := file;
      number := 0;
      new;
      if file.Some? {
        number := HighestSeq();
      }
    }

    method HighestSeq() returns (highest: nat)
      ensures highest == HighestNumber(Scan(JournalDecoder(sha2), Data()), 0)
    {
      if file.None? {
        return 0;
      }
      highest := HighestIn(JournalDecoder(sha2), file.value);
    }

    method ReadRecords() returns (records: seq<Record>)
      ensures records == Scan(JournalDecoder(sha2), Data())
    {
      records := [];
      if file.None? {
        return;
      }
      records := ScanRecords(JournalDecoder(sha2), file.value);
    }

    /** Numbers the record one above everything readable, and adds its bytes at the end. */
    method Append(kind: byte, height: nat, payload: bytes) returns (r: Result<(), JournalError>)
      modifies this`file, this`number
      ensures Data() == Appended(JournalDecoder(sha2), JournalEncoder(sha2), old(Data()),
                                 [Entry(kind, height, payload)])
      ensures number == HighestNumber(Scan(JournalDecoder(sha2), old(Data())), 0) + 1
      ensures r.Err? ==> file == old(file)
    {
      number := HighestSeq();
      number := number + 1;
      r := AppendNumbered(JournalDecoder(sha2), JournalEncoder(sha2), Entry(kind, height, payload));
    }

    method AppendNumbered(ghost decode: Decoder, encode: Encoder, e: Entry) returns (r: Result<(), JournalError>)
      requires number == HighestNumber(Scan(decode, Data()), 0) + 1
      modifies this`file
      ensures Data() == Appended(decode, encode, old(Data()), [e])
      ensures r.Err? ==> file == old(file)
      ensures r.Ok? <==> encode(Record(e.kind, number, e.height, e.payload)).Ok?
    {
      AppendedOne(decode, encode, Data(), e);
      match encode(Record(e.kind, number, e.height, e.payload)) {
        case Err(e) => return Err(e);
        case Ok(added) =>
          file := Some(Data() + added);
          return Ok(());
      }
    }
  }

  method ScanRecords(decode: Decoder, data: bytes) returns (records: seq<Record>)
    ensures records == Scan(decode, data)
  {
    records := [];
    var offset := 0;
    assert data[0..] == data;
    while offset < |data|
      invariant 0 <= offset <= |data|
      invariant records + Scan(decode, data[offset..]) == Scan(decode, data)
    {
      match decode(data[offset..]) {
        case None => break;
        case Some((record, size)) =>
          assert data[offset..][size..] == data[offset + size..];
          records := records + [record];
          offset := offset + size;
      }
    }
  }

  /** Recovery's own scan for the last COMMIT. */
  method ReadLastCommitHeight(file: Option<bytes>, sha2: Digest32) returns (highest: nat)
    ensures highest == LastCommitHeight(Scan(JournalDecoder(sha2), match file case None => [] case Some(d) => d), 0)
  {
    if file.None? {
      return 0;
    }
    highest := LastCommitIn(JournalDecoder(sha2), file.value);
  }

  method LastCommitIn(decode: Decoder, data: bytes) returns (highest: nat)
    ensures highest == LastCommitHeight(Scan(decode, data), 0)
  {
    highest := 0;
    var offset := 0;
    assert data[0..] == data;
    while offset < |data|
      invariant 0 <= offset <= |data|
      invariant LastCommitHeight(Scan(decode, data[offset..]), highest) == LastCommitHeight(Scan(decode, data), 0)
    {
      match decode(data[offset..]) {
        case None => return;
        case Some((record, size)) =>
          assert data[offset..][size..] == data[offset + size..];
          if record.kind == JOURNAL_COMMIT && record.height > highest {
            highest := record.height;
          }
          offset := offset + size;
      }
    }
  }

  method HighestIn(decode: Decoder, data: bytes) returns (highest: nat)
    ensures highest == HighestNumber(Scan(decode, data), 0)
  {
    highest := 0;
    var offset := 0;
    assert data[0..] == data;
    while offset < |data|
      invariant 0 <= offset <= |data|
      invariant HighestNumber(Scan(decode, data[offset..]), highest) == HighestNumber(Scan(decode, data), 0)
    {
      match decode(data[offset..]) {
        case None => return;
        case Some((record, size)) =>
          assert data[offset..][size..] == data[offset + size..];
          if record.number > highest {
            highest := record.number;
          }
          offset := offset + size;
      }
    }
  }

  // ---------- journals built by appending ----------

  datatype Entry = Entry(kind: byte, height: nat, payload: bytes)

  type Encoder = Record -> Result<bytes, JournalError>

  function JournalEncoder(sha2: Digest32): Encoder {
    (r: Record) => Encode(r, sha2)
  }

  /** The file after a run of appends; an append that raises leaves it as it is. */
  function Appended(decode: Decoder, encode: Encoder, file: bytes, entries: seq<Entry>): bytes
    decreases |entries|
  {
    if entries == [] then file
    else
      var e := entries[0];
      var number := HighestNumber(Scan(decode, file), 0) + 1;
      match encode(Record(e.kind, number, e.height, e.payload))
      case Err(_) => Appended(decode, encode, file, entries[1..])
      case Ok(added) => Appended(decode, encode, file + added, entries[1..])
  }

  lemma {:induction false} AppendedOne(decode: Decoder, encode: Encoder, file: bytes, e: Entry)
    ensures Appended(decode, encode, file, [e])
            == match encode(Record(e.kind, HighestNumber(Scan(decode, file), 0) + 1, e.height, e.payload))
               case Err(_) => file
               case Ok(added) => file + added
  {
    assert [e][1..] == [];
  }

  ghost predicate Codec(decode: Decoder, encode: Encoder) {
    forall r, more :: encode(r).Ok? ==> decode(encode(r).value + more) == Some((r, |encode(r).value|))
  }

  ghost predicate Pieces(encode: Encoder, pieces: seq<bytes>, rs: seq<Record>) {
    |pieces| == |rs| && forall i :: 0 <= i < |rs| ==> encode(rs[i]) == Ok(pieces[i])
  }

  lemma {:induction false} ScanWhole(decode: Decoder, encode: Encoder, pieces: seq<bytes>, rs: seq<Record>)
    requires Codec(decode, encode) && Pieces(encode, pieces, rs)
    ensures Scan(decode, Join(pieces)) == rs
    decreases |pieces|
  {
    if pieces != [] {
      var first, others := pieces[0], Join(pieces[1..]);
      ScanWhole(decode, encode, pieces[1..], rs[1..]);
      assert encode(rs[0]) == Ok(first) && decode(first + others) == Some((rs[0], |first|));
      assert (first + others)[|first|..] == others;
      assert rs == [rs[0]] + rs[1..];
    }
  }

  /** The records a run of appends writes after n others: numbered on, leaving out what cannot be encoded. */
  function Written(encode: Encoder, n: nat, entries: seq<Entry>): seq<Record>
    decreases |entries|
  {
    if entries == [] then []
    else
      var record := Record(entries[0].kind, n + 1, entries[0].height, entries[0].payload);
      if encode(record).Err? then Written(encode, n, entries[1..]) else [record] + Written(encode, n + 1, entries[1..])
  }

  /** Appending to a journal of whole records numbered 1, 2, 3, ... keeps it one, and every record stays readable. */
  lemma {:induction false} AppendsKeepNumbering(decode: Decoder, encode: Encoder, pieces: seq<bytes>, rs: seq<Record>,
                                                entries: seq<Entry>)
    returns (allPieces: seq<bytes>, all: seq<Record>)
    requires Codec(decode, encode) && Pieces(encode, pieces, rs) && NumberedFrom(rs, 0)
    ensures Pieces(encode, allPieces, all) && NumberedFrom(all, 0) && all == rs + Written(encode, |rs|, entries)
    ensures Appended(decode, encode, Join(pieces), entries) == Join(allPieces)
    ensures Scan(decode, Join(allPieces)) == all
    decreases |entries|
  {
    ScanWhole(decode, encode, pieces, rs);
    HighestOfNumbered(rs, 0);
    if entries == [] {
      allPieces, all := pieces, rs;
    } else {
      var e := entries[0];
      var record := Record(e.kind, |rs| + 1, e.height, e.payload);
      match encode(record) {
        case Err(_) => allPieces, all := AppendsKeepNumbering(decode, encode, pieces, rs, entries[1..]);
        case Ok(added) =>
          JoinAppend(pieces, added);
          OneMoreRecord(encode, pieces, rs, added, record);
          allPieces, all := AppendsKeepNumbering(decode, encode, pieces + [added], rs + [record], entries[1..]);
          Regroup(rs, record, Written(encode, |rs| + 1, entries[1..]));
      }
    }
  }

  lemma {:induction false} OneMoreRecord(encode: Encoder, pieces: seq<bytes>, rs: seq<Record>, added: bytes,
                                         record: Record)
    requires Pieces(encode, pieces, rs) && NumberedFrom(rs, 0) && encode(record) == Ok(added)
             && record.number == |rs| + 1
    ensures Pieces(encode, pieces + [added], rs + [record]) && NumberedFrom(rs + [record], 0)
  {
  }

  lemma {:induction false} Regroup(rs: seq<Record>, r: Record, more: seq<Record>)
    ensures rs + [r] + more == rs + ([r] + more)
  {
  }

  lemma {:induction false} JoinAppend(pieces: seq<bytes>, last: bytes)
    ensures Join(pieces + [last]) == Join(pieces) + last
  {
    if pieces == [] {
      assert [last][1..] == [] && last + [] == last;
      assert [] + [last] == [last];
    } else {
      assert (pieces + [last])[1..] == pieces[1..] + [last];
      JoinAppend(pieces[1..], last);
      assert pieces[0] + (Join(pieces[1..]) + last) == pieces[0] + Join(pieces[1..]) + last;
    }
  }

  lemma {:induction false} JournalCodec(sha2: Digest32)
    ensures Codec(JournalDecoder(sha2), JournalEncoder(sha2))
  {
    forall r, more | Encode(r, sha2).Ok?
      ensures Decode(Encode(r, sha2).value + more, sha2) == Some((r, |Encode(r, sha2).value|))
    {
      WholeRecordDecodes(r, sha2, more);
    }
  }

  /** A journal built only by append reads back whole, numbered 1, 2, 3 and so on. */
  lemma {:induction false} JournalsBuiltByAppend(entries: seq<Entry>, sha2: Digest32) returns (all: seq<Record>)
    ensures var file := Appended(JournalDecoder(sha2), JournalEncoder(sha2), [], entries);
            Scan(JournalDecoder(sha2), file) == all && file == Join(Encodings(all, sha2))
    ensures forall i :: 0 <= i < |all| ==> all[i].number == i + 1
    ensures all == Written(JournalEncoder(sha2), 0, entries)
  {
    var decode, encode := JournalDecoder(sha2), JournalEncoder(sha2);
    JournalCodec(sha2);
    var pieces;
    pieces, all := AppendsKeepNumbering(decode, encode, [], [], entries);
    PiecesAreEncodings(pieces, all, sha2);
    assert NumberedFrom(all, 0);
  }

  lemma {:induction false} PiecesAreEncodings(pieces: seq<bytes>, rs: seq<Record>, sha2: Digest32)
    requires Pieces(JournalEncoder(sha2), pieces, rs)
    ensures pieces == Encodings(rs, sha2)
  {
    var encode := JournalEncoder(sha2);
    forall i | 0 <= i < |rs| ensures pieces[i] == Encoding(rs[i], sha2) {
      assert encode(rs[i]) == Ok(pieces[i]);
    }
  }
}
