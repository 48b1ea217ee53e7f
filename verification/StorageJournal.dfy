/** The journal of the store model and the journal file: the same COMMIT height is read from both. */
module StorageJournal {
  import opened Bytes
  import opened Storage
  import JournalFile

  function KindByte(k: JournalKind): byte {
    match k
    case Begin => 0x01
    case HeaderStaged => 0x02
    case BlockStaged => 0x03
    case RegistryStaged => 0x04
    case IndexStaged => 0x05
    case Commit => JournalFile.JOURNAL_COMMIT
  }

  /** The appends that write these records, with any payloads. */
  ghost predicate Writes(entries: seq<JournalFile.Entry>, journal: seq<JournalRecord>) {
    && |entries| == |journal|
    && forall i :: 0 <= i < |entries| ==> WritesOne(entries[i], journal[i])
  }

  predicate WritesOne(e: JournalFile.Entry, r: JournalRecord) {
    e.kind == KindByte(r.kind) && e.height == r.height
  }

  /** Payloads and heights the format can hold, and fewer than 2^64 records. */
  ghost predicate Encodable(entries: seq<JournalFile.Entry>) {
    && |entries| < Pow256(8)
    && forall i :: 0 <= i < |entries| ==> EncodableOne(entries[i])
  }

  predicate EncodableOne(e: JournalFile.Entry) {
    |e.payload| <= JournalFile.MAX_JOURNAL_PAYLOAD && e.height < Pow256(8)
  }

  /** The records written, when every append succeeds. */
  function Numbered(n: nat, entries: seq<JournalFile.Entry>): (r: seq<JournalFile.Record>)
    ensures |r| == |entries|
    ensures forall i :: 0 <= i < |r| ==> r[i].kind == entries[i].kind && r[i].height == entries[i].height
  {
    seq(|entries|, i requires 0 <= i < |entries| =>
      JournalFile.Record(entries[i].kind, n + i + 1, entries[i].height, entries[i].payload))
  }

  ghost predicate TakesWhatFits(encode: JournalFile.Encoder) {
    forall r :: JournalFile.Fits(r) ==> encode(r).Ok?
  }

  lemma {:induction false} EverythingIsWritten(encode: JournalFile.Encoder, n: nat, entries: seq<JournalFile.Entry>)
    requires TakesWhatFits(encode)
    requires n + |entries| < Pow256(8) && forall i :: 0 <= i < |entries| ==> EncodableOne(entries[i])
    ensures JournalFile.Written(encode, n, entries) == Numbered(n, entries)
    decreases |entries|
  {
    if entries != [] {
      var e, rest := entries[0], entries[1..];
      var record := JournalFile.Record(e.kind, n + 1, e.height, e.payload);
      assert EncodableOne(e);
      assert JournalFile.Fits(record);
      forall i | 0 <= i < |rest| ensures EncodableOne(rest[i]) {
        assert rest[i] == entries[i + 1];
      }
      EverythingIsWritten(encode, n + 1, rest);
      assert Numbered(n, entries) == [record] + Numbered(n + 1, rest);
    }
  }

  lemma {:induction false} JournalEncoderTakesWhatFits(sha2: Digest32)
    ensures TakesWhatFits(JournalFile.JournalEncoder(sha2))
  {
    forall r | JournalFile.Fits(r) ensures JournalFile.Encode(r, sha2).Ok? {
    }
  }

  lemma {:induction false} LastCommitOfLonger(rs: seq<JournalFile.Record>, r: JournalFile.Record, highest: nat)
    ensures var before := JournalFile.LastCommitHeight(rs, highest);
            JournalFile.LastCommitHeight(rs + [r], highest)
            == if r.kind == JournalFile.JOURNAL_COMMIT && r.height > before then r.height else before
    decreases |rs|
  {
    if rs == [] {
      assert rs + [r] == [r];
    } else {
      assert (rs + [r])[1..] == rs[1..] + [r];
      var next := if rs[0].kind == JournalFile.JOURNAL_COMMIT && rs[0].height > highest then rs[0].height else highest;
      LastCommitOfLonger(rs[1..], r, next);
    }
  }

  lemma {:induction false} SameCommitHeight(journal: seq<JournalRecord>, rs: seq<JournalFile.Record>)
    requires |rs| == |journal|
    requires forall i :: 0 <= i < |rs| ==> rs[i].kind == KindByte(journal[i].kind) && rs[i].height == journal[i].height
    ensures JournalFile.LastCommitHeight(rs, 0) == CommitHeight(journal)
    decreases |journal|
  {
    if journal != [] {
      var n := |journal| - 1;
      SameCommitHeight(journal[..n], rs[..n]);
      LastCommitOfLonger(rs[..n], rs[n], 0);
      assert rs == rs[..n] + [rs[n]];
    }
  }

  /**
   Recovery's scan of the file the store's appends have written reads exactly the COMMIT height the store
   model uses.
   */
  lemma {:induction false} FileAndModelAgree(journal: seq<JournalRecord>, entries: seq<JournalFile.Entry>,
                                             sha2: Digest32)
    requires Writes(entries, journal) && Encodable(entries)
    ensures var decode := JournalFile.JournalDecoder(sha2);
            var file := JournalFile.Appended(decode, JournalFile.JournalEncoder(sha2), [], entries);
            JournalFile.LastCommitHeight(JournalFile.Scan(decode, file), 0) == CommitHeight(journal)
  {
    var all := JournalFile.JournalsBuiltByAppend(entries, sha2);
    JournalEncoderTakesWhatFits(sha2);
    EverythingIsWritten(JournalFile.JournalEncoder(sha2), 0, entries);
    forall i | 0 <= i < |all| ensures all[i].kind == KindByte(journal[i].kind) && all[i].height == journal[i].height {
      assert WritesOne(entries[i], journal[i]);
    }
    SameCommitHeight(journal, all);
  }
}
